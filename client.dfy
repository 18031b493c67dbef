/**
  The logic of the web client (script.js): the cover image chosen for a link
  (`getCoverArt`), the provider a title is looked up from (`getTitleFromUrl`),
  and the guard of the form's submit handler that decides whether a POST is
  sent and with what body.

  The two oEmbed services are parameters: `noembed(url)` and
  `spotifyOembed(url)` stand for the `title` field of the service's answer,
  `None` when the request or its JSON fails or the field is absent.
 */
module Client {
  import opened Wrappers
  import opened JsStrings
  import opened Urls
  import Catalog

  const SPOTIFY_IMAGE := "https://i.scdn.co/image/"
  const YOUTUBE_THUMB := "https://img.youtube.com/vi/"
  const YOUTUBE_THUMB_FILE := "/hqdefault.jpg"
  const PLACEHOLDER_COVER := "https://cdn-icons-png.flaticon.com/512/727/727245.png"

  // ----- getCoverArt -----

  /**
    `url.split(d)[1].split(cut)[0]`, defined whenever `url` includes `d`: the
    text after the first `d`, up to the next `d` and then up to the first `cut`.
   */
  function SplitPiece(url: string, d: string, cut: string): (piece: string)
    requires d != "" && cut != "" && Includes(url, d)
    ensures |Split(url, d)| >= 2 && piece == Split(Split(url, d)[1], cut)[0]
    ensures Before(url, d) + d + piece <= url
    ensures !Includes(piece, cut) && !Includes(piece, d)
  {
    var after := After(url, d);
    var piece := Before(after, cut);
    PrefixExcludes(piece, after, d);
    piece
  }

  /** The track id of a Spotify link (`url.split('track/')[1].split('?')[0]`), which the Spotify test lets be evaluated. */
  function SpotifyTrackId(url: string): (id: string)
    requires IsSpotifyTrack(url)
    ensures Includes(url, "track/") && id == SplitPiece(url, "track/", "?")
  {
    assert SPOTIFY_TRACK == "open.spotify.com/" + "track/";
    IncludesParts(url, "open.spotify.com/", "track/");
    SplitPiece(url, "track/", "?")
  }

  /**
    The video id of a YouTube link. When the link includes `watch?v=`, it is
    the text after the first `watch?v=`, cut at the next `watch?v=`, then at
    the first `&`. Otherwise it is the text after the first `youtu.be/`, which
    the YouTube test guarantees is there, cut at the next `youtu.be/`, then at
    the first `?`.
   */
  function YouTubeVideoId(url: string): (id: string)
    requires IsYouTube(url)
    ensures Includes(url, "watch?v=") ==> id == SplitPiece(url, "watch?v=", "&")
    ensures !Includes(url, "watch?v=") ==> Includes(url, YOUTU_BE) && id == SplitPiece(url, YOUTU_BE, "?")
  {
    assert YOUTUBE_WATCH == "youtube.com/" + "watch?v=";
    IncludesParts(url, "youtube.com/", "watch?v=");
    if Includes(url, "watch?v=") then SplitPiece(url, "watch?v=", "&")
    else SplitPiece(url, YOUTU_BE, "?")
  }

  /** `getCoverArt(url)`: the image shown on a link's card. */
  function CoverArt(url: string): (cover: string)
    ensures IsSpotifyTrack(url) ==> cover == SPOTIFY_IMAGE + SpotifyTrackId(url)
    ensures !IsSpotifyTrack(url) && IsYouTube(url) ==>
      cover == YOUTUBE_THUMB + YouTubeVideoId(url) + YOUTUBE_THUMB_FILE
    ensures !IsSpotifyTrack(url) && !IsYouTube(url) ==> cover == PLACEHOLDER_COVER
  {
    if IsSpotifyTrack(url) then SPOTIFY_IMAGE + SpotifyTrackId(url)
    else if IsYouTube(url) then YOUTUBE_THUMB + YouTubeVideoId(url) + YOUTUBE_THUMB_FILE
    else PLACEHOLDER_COVER
  }

  /**
    `url` is `front + d + id`, where `d` first occurs at the end of `front + d`
    and `id` lacks `cut`: then `url.split(d)[1].split(cut)[0]` is `id`.
   */
  lemma PieceAfterFirst(front: string, d: string, id: string, k: nat, cut: string)
    requires k < |d| && d[k] !in front && d[k] !in d[..k]
    requires !Includes(id, d) && cut != "" && !Includes(id, cut)
    ensures Includes(front + d + id, d)
    ensures Before(After(front + d + id, d), cut) == id
  {
    var url := front + d + id;
    FirstAtEnd(front, d, k);
    IndexOfExtend(front + d, id, d);
    assert url[|front| + |d|..] == id;
  }

  /** The cover of a plain Spotify track link is the image named by the track id. */
  lemma SpotifyTrackLinkCover(id: string)
    requires '/' !in id && '?' !in id
    ensures CoverArt("https://" + SPOTIFY_TRACK + id) == SPOTIFY_IMAGE + id
  {
    var front := "https://" + "open.spotify.com/";
    assert "https://" + SPOTIFY_TRACK + id == front + "track/" + id;
    assert "track/"[4] == 'k' && 'k' !in "track/"[..4] && 'k' !in front;
    MissingCharExcludes(id, "track/", '/');
    MissingCharExcludes(id, "?", '?');
    IncludesMiddle("https://", SPOTIFY_TRACK, id);
    PieceAfterFirst(front, "track/", id, 4, "?");
  }

  /** The cover of a `watch?v=` link without further parameters is the thumbnail of its video. */
  lemma YouTubeWatchLinkCover(id: string)
    requires '&' !in id && '?' !in id
    requires !IsSpotifyTrack("https://www." + YOUTUBE_WATCH + id)
    ensures CoverArt("https://www." + YOUTUBE_WATCH + id) == YOUTUBE_THUMB + id + YOUTUBE_THUMB_FILE
  {
    var front := "https://www." + "youtube.com/";
    assert "https://www." + YOUTUBE_WATCH + id == front + "watch?v=" + id;
    assert "watch?v="[5] == '?' && '?' !in "watch?v="[..5] && '?' !in front;
    MissingCharExcludes(id, "watch?v=", '?');
    MissingCharExcludes(id, "&", '&');
    IncludesMiddle("https://www.", YOUTUBE_WATCH, id);
    PieceAfterFirst(front, "watch?v=", id, 5, "&");
  }

  /** The cover of a `youtu.be/` short link without parameters is the thumbnail of its video. */
  lemma ShortYouTubeLinkCover(id: string)
    requires '/' !in id && '?' !in id
    ensures CoverArt("https://" + YOUTU_BE + id) == YOUTUBE_THUMB + id + YOUTUBE_THUMB_FILE
  {
    var front := "https://";
    var url := front + YOUTU_BE + id;
    assert SPOTIFY_TRACK == "open.spotify.com/" + "track/";
    assert SPOTIFY_TRACK[22] == "track/"[5] == '/';
    LateCharExcludes(front + YOUTU_BE, id, SPOTIFY_TRACK, 22);
    assert YOUTU_BE[0] == 'y' && 'y' !in front;
    MissingCharExcludes(id, YOUTU_BE, '/');
    MissingCharExcludes(id, "?", '?');
    assert '?' !in front + YOUTU_BE;
    MissingCharExcludes(url, "watch?v=", '?');
    PieceAfterFirst(front, YOUTU_BE, id, 0, "?");
  }

  // ----- Provider order -----

  datatype Provider = Spotify | YouTube | Unknown

  /** The provider `getCoverArt` recognises a link as: the Spotify test comes first. */
  function CoverProvider(url: string): (p: Provider)
    ensures p == Spotify <==> IsSpotifyTrack(url)
    ensures p == YouTube <==> !IsSpotifyTrack(url) && IsYouTube(url)
  {
    if IsSpotifyTrack(url) then Spotify else if IsYouTube(url) then YouTube else Unknown
  }

  /** The provider `getTitleFromUrl` asks for a title: the YouTube test comes first. */
  function TitleProvider(url: string): (p: Provider)
    ensures p == YouTube <==> IsYouTube(url)
    ensures p == Spotify <==> !IsYouTube(url) && IsSpotifyTrack(url)
  {
    if IsYouTube(url) then YouTube else if IsSpotifyTrack(url) then Spotify else Unknown
  }

  /** The two functions order the providers differently: on a link that passes both tests they disagree. */
  lemma ProvidersDisagree(url: string)
    requires IsSpotifyTrack(url) && IsYouTube(url)
    ensures CoverProvider(url) == Spotify && TitleProvider(url) == YouTube
  {
  }

  /** Links that pass both tests exist, such as a short YouTube link whose path holds a Spotify track path. */
  lemma BothProvidersLink()
    ensures var url := "https://" + YOUTU_BE + SPOTIFY_TRACK;
      IsSpotifyTrack(url) && IsYouTube(url) && CoverProvider(url) != TitleProvider(url)
  {
    var front := "https://" + YOUTU_BE;
    var url := front + SPOTIFY_TRACK;
    IncludesEnds(front, SPOTIFY_TRACK);
    IncludesParts(url, "https://", YOUTU_BE);
    assert IsSpotifyTrack(url) && IsYouTube(url);
    ProvidersDisagree(url);
  }

  // ----- getTitleFromUrl -----

  /** `getTitleFromUrl(url)` with the services' answers as parameters. */
  function TitleFromUrl(url: string, noembed: string -> Option<string>, spotifyOembed: string -> Option<string>): (title: Option<string>)
    ensures title.Some? ==> title.value != ""
    ensures TitleProvider(url) == YouTube ==> title == OrNull(noembed(url))
    ensures TitleProvider(url) == Spotify ==> title == OrNull(spotifyOembed(url))
    ensures TitleProvider(url) == Unknown ==> title == None
  {
    if IsYouTube(url) then OrNull(noembed(url))
    else if IsSpotifyTrack(url) then OrNull(spotifyOembed(url))
    else None
  }

  /** On a link that passes both tests the title comes from noembed, never from Spotify's service. */
  lemma BothProvidersTitleFromNoembed(url: string, noembed: string -> Option<string>, spotifyOembed: string -> Option<string>)
    requires IsSpotifyTrack(url) && IsYouTube(url)
    ensures TitleFromUrl(url, noembed, spotifyOembed) == OrNull(noembed(url))
    ensures CoverArt(url) == SPOTIFY_IMAGE + SpotifyTrackId(url)
  {
    ProvidersDisagree(url);
  }

  // ----- The submit handler -----

  /** What a submit of the form leads to. */
  datatype SubmitOutcome =
    | Ignored                           // empty link: nothing happens
    | AskForTitle                       // no title given or found: the title field is shown
    | Send(url: string, title: string)  // the body of the POST to /api/music

  /** The submit handler's decision, from the raw values of the two input fields. */
  function Submit(urlField: string, titleField: string, noembed: string -> Option<string>, spotifyOembed: string -> Option<string>): (out: SubmitOutcome)
    ensures out.Ignored? <==> forall k :: 0 <= k < |urlField| ==> IsJsSpace(urlField[k])
    ensures out.AskForTitle? <==>
              && Trim(urlField) != "" && Trim(titleField) == ""
              && TitleFromUrl(Trim(urlField), noembed, spotifyOembed).None?
    ensures out.Send? ==> out.url == Trim(urlField) && out.url != "" && out.title != ""
    ensures out.Send? && Trim(titleField) != "" ==> out.title == Trim(titleField)
    ensures out.Send? && Trim(titleField) == "" ==> Some(out.title) == TitleFromUrl(out.url, noembed, spotifyOembed)
  {
    TrimEmpty(urlField);
    var url := Trim(urlField);
    var typed := Trim(titleField);
    if url == "" then Ignored
    else if typed != "" then Send(url, typed)
    else
      match TitleFromUrl(url, noembed, spotifyOembed)
      case None => AskForTitle
      case Some(found) => Send(url, found)
  }

  /** Every body the client sends passes the server's validation and is stored as sent. */
  lemma SentBodyIsAccepted(urlField: string, titleField: string, noembed: string -> Option<string>, spotifyOembed: string -> Option<string>, now: int)
    requires Submit(urlField, titleField, noembed, spotifyOembed).Send?
    ensures var out := Submit(urlField, titleField, noembed, spotifyOembed);
      Catalog.Create(Some(out.url), Some(out.title), now) == Catalog.Created(Catalog.Entry(out.url, out.title, now))
  {
  }
}
