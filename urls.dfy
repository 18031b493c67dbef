/**
  The substring tests by which the web client and the bulk importer recognise
  a link's provider.
 */
module Urls {
  import opened JsStrings

  const SPOTIFY_TRACK := "open.spotify.com/track/"
  const YOUTUBE_WATCH := "youtube.com/watch?v="
  const YOUTU_BE := "youtu.be/"

  /** `url.includes('open.spotify.com/track/')`. */
  predicate IsSpotifyTrack(url: string) {
    Includes(url, SPOTIFY_TRACK)
  }

  /** `url.includes('youtube.com/watch?v=') || url.includes('youtu.be/')`. */
  predicate IsYouTube(url: string) {
    Includes(url, YOUTUBE_WATCH) || Includes(url, YOUTU_BE)
  }
}
