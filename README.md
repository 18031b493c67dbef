# music-share: a verified model of the link resolver, the bulk importer and the music API

music-share is a small web application for sharing music links (YouTube and
Spotify). This project models its logic in Dafny and proves properties of that
model. The modelled logic comes from three places:

- **The web client** (`script.js`):
  - `getCoverArt` picks the cover image for a link: a Spotify image for a track link, a YouTube thumbnail for a video link, and otherwise a fixed placeholder.
  - `getTitleFromUrl` decides which oEmbed service to ask for a link's title.
  - The submit handler decides whether to POST a new entry, and with what body.
- **The bulk importer** (`bulk-import.js`):
  - `processData` walks the input records and completes the ones it can in place: a looked-up title, a parsed date. It collects the records that are then complete.
  - `importData` sends the collected records only when at least one survived.
- **The REST API** (`api/index.js`):
  - `GET /api/music` pages through the collection newest first.
  - `POST /api/music` validates `{ url, title }` and stores one document.

The Dafny modules follow that structure:

| file | module | models |
|---|---|---|
| `wrappers.dfy` | `Wrappers` | `Option`, for `null`, `undefined` and absent fields |
| `js_strings.dfy` | `JsStrings` | the JavaScript string operations the code uses: `includes`/`indexOf`, `split(d)` with its `[0]` and `[1]`, `trim`, truthiness, `x \|\| null` |
| `urls.dfy` | `Urls` | the provider substring tests, shared by the client and the importer |
| `client.dfy` | `Client` | `getCoverArt`, `getTitleFromUrl` and the submit guard, as pure functions |
| `bulk_import.dfy` | `BulkImport` | `processData` as a method whose `while` loop modifies an array of records in place; `importData`'s empty guard |
| `catalog.dfy` | `Catalog` | the GET handler as a pure function over the collection; the POST handler as a method of the class `Collection`, which appends to its `entries` field |

Modelling choices:

- **The store.** The document store is the sequence of documents in insertion order. `Music.find().sort({ createdAt: -1 }).skip(s).limit(l)` is the window `[s, s + l)` of `NewestFirst(entries)`. `NewestFirst` is an insertion sort on `createdAt`, newest first. Among documents with equal `createdAt` it puts the later-inserted first.
- **Outside inputs.** The outside services are function parameters: noembed, Spotify's oEmbed, `new Date(x).getTime()`. The time the server stamps on a new document, `Date.now`, is the `now` parameter of `Post`.
- **Spotify track id.** The JavaScript `url.split('track/')[1].split('?')[0]` is modelled as the text after the first `track/`, cut at the next `track/`, then cut at the first `?`. `[1]` exists exactly when the url includes `track/` (`SplitHasSecond`). The guarding `includes('open.spotify.com/track/')` implies that (`SpotifyTrackId`), but the two are not equivalent.

Points where the code behaves unexpectedly, modelled as the code behaves:

- **Fast path and dates.** A record that already has all four fields is collected without its date being checked, even if `sharedAt` would not parse. The comment at bulk-import.js:53 presents this branch as a skip for records with all required fields. The comment at bulk-import.js:70 says the next step ensures a valid date, but on the slow path the date is checked only when `sharedAt` is truthy. A record without `sharedAt` then fails the final completeness test, as the comment at bulk-import.js:80 requires.
- **Importer title lookup.** The bulk importer looks titles up for YouTube links only. It never asks Spotify.
- **Video id.** When the link includes `watch?v=`, the id is the text after the first `watch?v=`, cut at the next `watch?v=`, then at the first `&`. Otherwise it is the text after the first `youtu.be/`, cut at the next `youtu.be/`, then at the first `?`. Its length and characters are not checked.
- **Provider order.** `getCoverArt` tests Spotify first, `getTitleFromUrl` tests YouTube first, and on a link that passes both tests they disagree (`ProvidersDisagree`, `BothProvidersLink`).
- **Paging defaults.** The defaults are page 1 and limit 10. A `page` or `limit` that parses to 0 also falls back to the default, and a negative parsed value is used as it is.

## Model

| member | source | states |
|---|---|---|
| JsStrings.Truthy | bulk-import.js:54 | definition: an optional string field is truthy when present and not the empty string |
| JsStrings.Includes | script.js:38 | definition: `s.includes(d)` holds exactly when `IndexOf` finds an occurrence |
| Urls.IsSpotifyTrack | script.js:38 | definition: the link includes `open.spotify.com/track/` |
| Urls.IsYouTube | script.js:43 | definition: the link includes `youtube.com/watch?v=` or `youtu.be/` |
| BulkImport.StampTruthy | bulk-import.js:71 | definition: `sharedAt` is truthy when present and not `""` or `0`; a `Date` is always truthy |
| BulkImport.Complete | bulk-import.js:54 | definition: `url`, `title`, `sharedBy` and `sharedAt` are all truthy |
| JsStrings.OrNull | script.js:20 | `x \|\| null` keeps a present, non-empty string and gives none otherwise |
| JsStrings.IndexOf | script.js:17 | `indexOf`: the result is an occurrence with none before it; none exactly when there is no occurrence anywhere |
| JsStrings.Split | script.js:39 | `split` with a non-empty separator yields at least one piece |
| JsStrings.SplitHasSecond | script.js:38-39 | `split(d)[1]` exists exactly when the string includes `d` |
| JsStrings.SplitJoin | script.js:39 | joining the pieces of `split(d)` with `d` gives back the string |
| JsStrings.SplitPiecesExcludeSeparator | script.js:39 | no piece of `split(d)` contains `d` |
| JsStrings.Before | script.js:39 | `split(d)[0]` is a prefix free of `d`, followed in the string by `d` or the end |
| JsStrings.After | script.js:39 | `split(d)[1]` follows the first `d`, is free of `d`, and is followed by `d` or the end |
| JsStrings.Trim | script.js:94 | `trim` leaves a slice that neither starts nor ends with white space, with only white space around it |
| JsStrings.TrimEmpty | script.js:94-95 | `trim()` is empty exactly when the string is all white space |
| Client.SplitPiece | script.js:39 | `url.split(d)[1].split(cut)[0]` is defined when `url` includes `d`, lies right after the first `d`, and is free of both `d` and `cut` |
| Client.SpotifyTrackId | script.js:38-39 | the Spotify test implies `includes('track/')`, so the track id can be computed |
| Client.YouTubeVideoId | script.js:43-49 | the `watch?v=` branch cuts at `&`; otherwise the link includes `youtu.be/` and the id is cut at `?` |
| Client.CoverArt | script.js:36-54 | a Spotify image for a track link; otherwise a YouTube thumbnail for a video link; otherwise the placeholder |
| Client.SpotifyTrackLinkCover | script.js:38-40 | the cover of `https://open.spotify.com/track/<id>` is `https://i.scdn.co/image/<id>` |
| Client.YouTubeWatchLinkCover | script.js:43-50 | the cover of `https://www.youtube.com/watch?v=<id>` is the `hqdefault.jpg` thumbnail of `<id>` |
| Client.ShortYouTubeLinkCover | script.js:43-50 | the cover of `https://youtu.be/<id>` is the `hqdefault.jpg` thumbnail of `<id>` |
| Client.CoverProvider | script.js:38-43 | `getCoverArt` recognises Spotify exactly on the Spotify test, and YouTube only when that test fails |
| Client.TitleProvider | script.js:17-23 | `getTitleFromUrl` recognises YouTube exactly on the YouTube test, and Spotify only when that test fails |
| Client.ProvidersDisagree | script.js:17-43 | on a link that passes both tests the cover is Spotify's but the title comes from YouTube |
| Client.BothProvidersLink | script.js:17-43 | such a link exists: `https://youtu.be/open.spotify.com/track/` |
| Client.TitleFromUrl | script.js:14-34 | YouTube links ask noembed, other Spotify track links ask Spotify, and every other link gives none; a result is never empty |
| Client.BothProvidersTitleFromNoembed | script.js:17-40 | a link passing both tests takes its title from noembed and its cover from Spotify |
| Client.Submit | script.js:92-131 | nothing happens exactly when the url is all white space; the user is asked for a title exactly when none was typed and none was found; a sent body has the trimmed url and a non-empty title, typed or found |
| Client.SentBodyIsAccepted | script.js:126-131 | every body the client sends passes the server's validation and is stored as sent |
| BulkImport.LookupTitle | bulk-import.js:31-42 | a title is found only for a YouTube link, is never empty, and is what noembed reports |
| BulkImport.TitleAfterLookup | bulk-import.js:60-68 | a truthy title is kept, and a missing one is looked up |
| BulkImport.Process | bulk-import.js:53-83 | a collected record is complete |
| BulkImport.ProcessVerdicts | bulk-import.js:53-83 | a complete record is kept untouched. Drop reasons, each iff: no title found; date present but unparseable; or else a missing url, `sharedBy` or `sharedAt`. The record is left with the found title and a parsed date. |
| BulkImport.TitleOnlyFromYouTube | bulk-import.js:33-37 | a record collected without its own title has a YouTube url, and its title is noembed's |
| BulkImport.CompleteSkipsDateCheck | bulk-import.js:54-57 | a complete record is collected untouched even when its `sharedAt` does not parse |
| BulkImport.Survivors | bulk-import.js:44-87 | the result is never longer than the input, and every collected record is complete |
| BulkImport.SurvivorsAreKeptRecords | bulk-import.js:45-86 | the result is, in input order, the processed records at exactly the positions whose verdict is `Kept` |
| BulkImport.ProcessData | bulk-import.js:44-87 | `processed` ends at the input length, the result is `Survivors` of the input, and each array element is left as processing made it |
| BulkImport.ImportData | bulk-import.js:132-142 | nothing is sent exactly when no record survives; otherwise the body is the surviving records; each array element is left as processing made it |
| Catalog.Insert | api/index.js:48-49 | inserting into a newest-first sequence keeps it newest first and adds exactly the one entry |
| Catalog.NewestFirst | api/index.js:48-49 | `sort({ createdAt: -1 })` is a newest-first permutation of the collection |
| Catalog.ChronologicalNewestFirst | api/index.js:35-49 | when creation times grow with insertion, newest first is reverse insertion order |
| Catalog.NewestFirstHead | api/index.js:49 | the first entry newest first is no older than any entry |
| Catalog.OrDefault | api/index.js:43-44 | a missing, non-numeric or zero parse gives the default; any other integer, negative ones included, is used as it is |
| Catalog.TotalPages | api/index.js:58 | integer `ceil(total / limit)`: `pages * limit >= total > (pages - 1) * limit`, and 0 pages exactly when the collection is empty |
| Catalog.Window | api/index.js:50-51 | `.skip(s).limit(l)` keeps at most `l` elements, namely those from position `s` on |
| Catalog.Query | api/index.js:48-51 | the query answers the newest-first entries from `skip` on, at most `limit` of them |
| Catalog.GetMusic | api/index.js:41-60 | the response echoes `currentPage` and `totalItems`, gives `totalPages` as `TotalPages` and lists the query at `skip = (page - 1) * limit` |
| Catalog.PageNonEmptyInRange | api/index.js:45-58 | with page and limit at least 1, a page is non-empty exactly when it is at most `totalPages` |
| Catalog.PagesUpToPrefix | api/index.js:45-51 | the windows of pages 1 to `n`, concatenated, are the first `n * limit` entries |
| Catalog.PageIsWindow | api/index.js:43-51 | page `p` as the handler lists it is the window at `(p - 1) * limit` |
| Catalog.AllPagesCoverCollection | api/index.js:45-58 | pages 1 to `totalPages`, concatenated, are the whole collection newest first |
| Catalog.PageOfPosition | api/index.js:45-58 | each position lies on exactly one page, `i / limit + 1`, which is within `totalPages` and lists that entry; so pages are disjoint |
| Catalog.UniquePage | api/index.js:45 | the only page whose skip range holds position `i` is `i / limit + 1` |
| Catalog.FirstPageStartsNewest | api/index.js:43-51 | the default first page starts with an entry no older than any other |
| Catalog.Create | api/index.js:67-77 | 400 with "URL and title are required" exactly when `url` or `title` is missing or empty; otherwise 201 with the document stamped `now` |
| Catalog.CreatedEntryLeadsFirstPage | api/index.js:35-51 | after a POST stamped later than every document, the default first page starts with the new document |
| Catalog.Collection.Post | api/index.js:67-77 | a rejected POST leaves the collection unchanged; an accepted one appends exactly the saved document; every stored document keeps a non-empty url and title |

## Left out

- **Network I/O.** The `fetch` calls to noembed and Spotify's oEmbed and the importer's `makeRequest` and `makePostRequest` are not modelled. Their outcome is a parameter: the reported `title`, or none when the request or its JSON fails.
- **The client's POST.** The POST from the client and its error `alert` are not modelled. `Submit` yields the body that would be sent.
- **The importer's POST.** `importData`'s POST to the bulk endpoint and the bulk endpoint itself are not modelled. `ImportData` yields the body it would send.
- **DOM work.** `renderMusicList`, the card elements, the title field's visibility, the button state and `focus` are user interface, not logic.
- **Files and logging.** Reading and `JSON.parse` of the input file are not modelled, nor is any console logging.
- **Input shapes.** The model does not cover a `null` record or field values of other JSON types. Record fields are optional strings. `sharedAt` is a string, an integer or a `Date`. Strings are sequences of Unicode characters, not JavaScript's UTF-16 code units. A lone surrogate cannot be represented. For the ASCII separators and the `trim` white-space set used here, the results agree.
- **Mongoose and Express.** The connection, `process.exit`, `Promise.all`, CORS, static serving and `listen` are foreign machinery or concurrency. The store is a plain sequence. A stored document is `{ url, title, createdAt }`. The `_id` and `__v` fields that Mongoose adds to every document are left out, including in the 201 body of the POST.
- **Error responses.** The 500 answers of both handlers are not modelled, because they arise only from store failures.
- **Times.** `Date.now` is the `now` parameter. `new Date(x).getTime()` is the `parse` parameter, with none for NaN.
- **Other endpoints.** Search, random pick, the sort toggle and seen-url de-duplication are not in the modelled code.
- Catalog.GetMusic: `music` is none when `skip` or `limit` is negative. The store's answer to those is not part of the model, so `GetMusic` takes no position on it.
- Catalog.Query: is none in the same cases, for the same reason.
- Catalog.NewestFirst: among documents with equal `createdAt` it puts the later-inserted first. The store does not promise any tie order, so this is one fixed choice.
- Catalog.AllPagesCoverCollection, Catalog.PageOfPosition: assume the store uses one tie order for all requests, because every request is answered from the same `NewestFirst`. The store does not promise this. `createdAt` is `Date.now` in milliseconds, so two documents saved in the same millisecond tie. Paging through such documents with different `skip` values can then repeat one document and skip another, and neither lemma covers that case.
- Catalog.TotalPages: is integer ceiling division, not `Math.ceil` over floating point. The two agree for the integer totals and limits the handler sees.
- Catalog.OrDefault: takes `parseInt`'s result as an optional integer. It does not model partial parses such as `"3abc"` or fractional input.
- BulkImport.ProcessData: holds the records as values in an array. When a field is filled in, the array element is overwritten, so the sharing between the input objects and the collected ones is not modelled.
- Client.TitleFromUrl: leaves out the Spotify branch's unused `id` computation at script.js:24. That computation cannot throw, because of the same guard as `SpotifyTrackId`'s precondition.
