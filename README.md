# GAPDownloader core, modelled in Dafny

GAPDownloader fetches a high-resolution image from the Google Arts &
Culture tile service. The image is cut into a zoom pyramid of tiles, and
every tile URL is signed.

This project models the deterministic rules around the network, image
and async work. It covers two source files, and proves properties of the
model.

- **`compute_url`** (`signer.dfy`, `base64.dfy`):
  - the octet message that is signed;
  - the base64 signature with `+` and `/` both written `_` and the final
    character dropped;
  - the URL the signature is spliced into.
- **`ZoomLevelInfo` and `load_tiles`** (`pyramid.dfy`, `output.dfy`):
  - level sizes and tile counts;
  - zoom normalisation with Python's `%`, and the PNG/JPEG choice at the
    65535-pixel cap;
  - the x-major tile grid and the pixel origin of each tile;
  - the author/date scan over the metadata, the output file name and the
    encoder options.
- **`ImageInfo.__init__`** (`resolver.dfy`):
  - the XMP metadata map, filled item by item in an insertion-ordered
    dict;
  - the signing path and token;
  - the slug, id and display name from the URL;
  - the descriptor URL and the numbered levels;
  - the exceptions raised by the constructor's own checks and by the
    descriptor fetch, as error values.
- **The batch driver `autodownload.py`** (`work_queue.dfy`):
  - the `dlcache` queue as a class whose methods update it in place;
  - id extraction and dedup on batch add, and the quality assertion;
  - the walk over pending rows, with the default zoom and the two-pass
    downgrade;
  - what a run writes back to the cache.
- **Python helpers** (`text.dfy`): the `str` and `bytes` behaviour the
  code relies on, stated over sequences. This covers `%d`,
  `find`/`rfind`, slices with negative bounds, `split`, `join`, `strip`,
  `replace` and `re.sub(r'\W', '', …)`. `capwords` is in `resolver.dfy`.

## Parameters

Some dependencies are not modelled. Each enters as a parameter:

- **HMAC-SHA1** is a function from key and message to a 20-octet digest.
- **Python's Unicode tables and `unidecode`** are the record `TextLib`:
  `\w`, `isspace`, `lower`, `title`, `unidecode`. `AsciiTables` states
  what they must say about ASCII.
- **Results of library parsing** are inputs:
  - the texts of the metadata list items;
  - the groups captured by `RE_URL_PATH_TOKEN`;
  - the unquoted URL path;
  - the parsed descriptor document, from a `fetch` function.
- **Whether `load_tiles` returns normally** is a function `load`.
- **Whether `ImageInfo(url)` succeeds** is a function `resolve`.

## Model

| member | source | states |
|---|---|---|
| Text.Dec | tile_fetch.py:38 | `%d` of a non-negative integer is a non-empty run of decimal digits, with a leading `0` only for zero |
| Text.ParseDecOfDec | tile_fetch.py:38 | reading back the digits `%d` writes gives the number again |
| Text.DecInjective | tile_fetch.py:38 | distinct numbers are formatted differently |
| Text.Find | tile_fetch.py:56-57 | `str.find`: -1 exactly when the character is absent; otherwise the index holds it and no earlier index does |
| Text.RFind | autodownload.py:36 | `str.rfind`: -1 exactly when the character is absent; otherwise the index holds it and no later index does |
| Text.ReplaceChar | tile_fetch.py:68 | `replace` of one character keeps the length, puts the new character exactly where the old one stood and leaves every other position as it was, so none of the old character remains |
| Text.Filter | tile_fetch.py:56 | `re.sub(r'\W', '', s)` keeps only word characters, never lengthens, and returns a text of word characters unchanged; `FilterNone` shows that one without any filters to empty |
| Text.FilterConcat | tile_fetch.py:56 | filtering a concatenation filters each part: the kept characters stay in their order |
| Text.FilterNone | tile_fetch.py:56 | a text without kept characters filters to nothing |
| Text.Strip | tile_fetch.py:57 | `strip()` leaves a result that neither starts nor ends with white space and sits in the input between two runs of white space that make up the rest of it |
| Text.Split | tile_fetch.py:67 | `split('/')` gives at least one part, and no part holds the separator |
| Text.JoinSplit | tile_fetch.py:67 | joining the parts of `split(c)` with `c` gives the text back |
| Text.Words | tile_fetch.py:68 | `split()` gives non-empty words with no white space, whose concatenation is exactly the non-space characters of the text, in order |
| Text.WordsOfJoin | tile_fetch.py:68 | `split()` of words joined by single spaces gives the words back |
| Text.ReplaceJoin | tile_fetch.py:68 | replacing a separator that no part holds turns a `-`-join into a space-join |
| Base64.Encode | tile_fetch.py:40 | `b64encode` of `n` octets has `4 * ceil(n / 3)` characters |
| Base64.DecodeEncode | tile_fetch.py:40 | decoding the base64 encoding of any octets gives them back, so the encoding loses nothing |
| Base64.EncodeShape | tile_fetch.py:40 | every character of an encoding is in the alphabet, except the final `(3 - n mod 3) mod 3` padding characters, which are `=` |
| Base64.EncodeAlt | tile_fetch.py:40 | `b64encode(d, altchars)` is the standard encoding with each `+` replaced by the first alternative character and each `/` by the second, every other character unchanged |
| Signer.SignatureShape | tile_fetch.py:39-40 | `Signature`: for a 20-octet digest, the signature is 27 letters, digits or `_`, holds no `=`, and is the alternative encoding without its one `=` |
| Signer.CoordsInjective | tile_fetch.py:38 | `Coords`: the `=x…-y…-z…-t` part determines x, y and z |
| Signer.SignedMessageInjective | tile_fetch.py:38 | `SignedMessage`: under one path and token, distinct tiles sign distinct messages |
| Signer.ComputeUrlLayout | tile_fetch.py:38-41 | `ComputeUrl`: the URL is the host, the signed message without its token, and the signature of the whole message under `IV` |
| Signer.ComputeUrlInjective | tile_fetch.py:31-42 | for any HMAC, under one path and token, distinct tiles get distinct URLs |
| Signer.ExampleSignature | tile_fetch.py:36-40 | the digest the documented signature implies signs as `HeJ3xylnSyyHPGwMZimI4EV3JP8` |
| Signer.ExampleUrl | tile_fetch.py:31-42 | the documented example: path, token and tile (0, 0, 7) give the documented URL when the HMAC yields the example digest |
| Pyramid.NormalizeZoom | tile_fetch.py:123-132 | error exactly when there are no levels; otherwise the result is below `n`, a zoom at or above `n` becomes `n - 1`, and every zoom below `n`, negative ones included, becomes Python's `z % n` |
| Pyramid.NormalizeZoomAgreesWithIndex | tile_fetch.py:132-133 | for a zoom in Python's index range, the level chosen is the one `tile_info[z]` names |
| Pyramid.NormalizeZoomExample | tile_fetch.py:122-133 | with five levels, the default zoom -1 selects level 4 |
| Pyramid.GridAt | tile_fetch.py:145-150 | the fetch list has `nx * ny` entries, and entry `i` is `(i / ny, i % ny)`: x in the outer loop |
| Pyramid.GridExactlyOnce | tile_fetch.py:145-150 | every `(x, y)` with `x < nx`, `y < ny` appears exactly once, at position `x * ny + y`, and nothing outside the rectangle appears |
| Pyramid.GridSize | tile_fetch.py:106-108 | a level's fetch list has `TotalTiles` (`total_tiles`) entries |
| Pyramid.GridCount | tile_fetch.py:147-149 | a negative tile count gives no tiles, as `range` of a negative number |
| Pyramid.TilesDisjoint | tile_fetch.py:157 | tiles pasted at `(x * tile_width, y * tile_height)` cover disjoint rectangles: a pixel lies in at most one tile |
| Pyramid.CanvasPixelInGrid | tile_fetch.py:99-104 | when the trims are not negative, every pixel of the canvas `Size` (`ZoomLevelInfo.size`) gives lies in a fetched tile, the one at `(px / w, py / h)` |
| Pyramid.GridTileOnCanvas | tile_fetch.py:99-104 | when less than a tile is trimmed, every fetched tile starts on the `Size` canvas |
| Output.LastValueDefault | tile_fetch.py:162-170 | without a matching tag, the variable keeps its initial value: `"0"` for the author, `""` for the date |
| Output.LastValueLastMatch | tile_fetch.py:164-170 | the last matching tag decides the value: later matches overwrite earlier ones |
| Output.AuthorDateDisjoint | tile_fetch.py:165-168 | no tag names both the author and the date, so the `elif` loses nothing |
| Output.DateHasNoSlash | tile_fetch.py:169-170 | the date never holds a `/` |
| Output.KeyMatchIgnoresCase | tile_fetch.py:165-168 | ASCII tags that differ only in case are matched alike |
| Output.ScanAuthorDate | tile_fetch.py:162-170 | the loop over `metadata.items()` leaves the author `AuthorOf` and the date `DateOf` define: the value of the last author tag, transliterated, and of the last date tag, dashed |
| Output.DashedDate | tile_fetch.py:170 | `replace('/', '-')` keeps the length, puts `-` exactly where `/` stood and leaves every other character as it was |
| Output.TrimmedNameDropsAuthor | tile_fetch.py:172-173 | `TrimmedName`: a display name ending in a space and the author loses exactly that suffix |
| Output.TrimmedNameNegativeEnd | tile_fetch.py:173 | when the author is longer than the name, the negative slice end counts from the end of the name |
| Output.FileNameExtension | tile_fetch.py:175-186 | `FileName` ends in `.png` exactly when the PNG flag is set, and in `.jpg` otherwise |
| Output.FileNameWithoutAuthor | tile_fetch.py:162-186 | without an author tag, the file name still takes the author form, starting `0 - `, because `author == 0` is never true |
| Output.SaveOptionsFor | tile_fetch.py:180-191 | PNG is saved with `optimize=True`; JPEG keeps the quality, uses `subsampling=0`, and optimizes exactly when quality is below 95 |
| Output.Origins | tile_fetch.py:154-157 | the paste loop puts each tile of the list it is given at `(x * tile_width, y * tile_height)`, whatever the list's order |
| Output.PlanLoad | tile_fetch.py:122-194 | error exactly without levels; otherwise every decision `load_tiles` takes: the level, canvas size, PNG flag (`NeedsPng`: a side over 65535), the fetch list in grid order and the paste origin of each tile, author, date, file name, encoder options, and XMP writing for JPEG only |
| Resolver.OrderedMap.Put | tile_fetch.py:57 | `d[k] = v` keeps the dict well formed, sets `k`, leaves every other key and value as it was, and keeps the insertion order |
| Resolver.MetadataEntryWithColon | tile_fetch.py:56-57 | `MetadataKey` and `MetadataValue` with a `:`: the tag is the namespace and the word characters before the first `:`, and the value is the stripped text after it |
| Resolver.MetadataEntryWithoutColon | tile_fetch.py:56-57 | `MetadataKey` and `MetadataValue` without a `:`: the tag drops the item's last character and the value is the whole stripped item |
| Resolver.Assign | tile_fetch.py:52-57 | assigning entries in turn keeps the map well formed and keeps the existing keys first, in order |
| Resolver.Provenance | tile_fetch.py:51 | the map starts with `Xmp.xmp.URL` mapped to the page URL |
| Resolver.MetadataKeysShape | tile_fetch.py:51-57 | in `Metadata`, the provenance tag comes first, and every tag starts with `Xmp.xmp.` |
| Resolver.AssignKeys | tile_fetch.py:52-57 | the final keys are the initial keys plus the assigned ones, and nothing else |
| Resolver.AssignLastWins | tile_fetch.py:57 | a tag assigned several times holds its last value |
| Resolver.AssignKeeps | tile_fetch.py:51-57 | a tag never assigned keeps its value |
| Resolver.ReadMetadata | tile_fetch.py:51-57 | the loop over the list items builds the map `Metadata` defines: `Provenance` with every item's entry assigned in order |
| Resolver.AfterLastSlash | tile_fetch.py:64 | `rsplit(b'/', 1)[1]` fails exactly without a `/`; otherwise it is the slash-free suffix after the last `/` |
| Resolver.DescriptorUrlInjective | tile_fetch.py:72 | `DescriptorUrl`: the host-relative path can be read back from `https:` + path + `=g`, so distinct paths give distinct descriptor URLs |
| Resolver.SlugAndId | tile_fetch.py:67 | unpacking `split('/')[-2:]` fails exactly when the path has no `/` |
| Resolver.SlugAndIdAreLastSegments | tile_fetch.py:66-67 | slug and id are slash-free, the path ends in slug + `/` + id, and what precedes is empty or ends in `/` |
| Resolver.CapwordsOfSlug | tile_fetch.py:68 | `Capwords` of a slug of ASCII words joined by `-`, once `-` is replaced by a space, gives the same words with their first letter upper-cased, joined by spaces |
| Resolver.ImageNameOfSlug | tile_fetch.py:68 | `ImageName` of such a slug is the transliteration of those title-cased words joined by spaces |
| Resolver.CapitalizeSlugWords | tile_fetch.py:68 | slug words hold no `-` or white space, and `capitalize` upper-cases only their first letter |
| Resolver.Levels | tile_fetch.py:73-78 | one level per `pyramid_level`, numbered by position, carrying that element's tile counts and trims, under the document's tile width and height |
| Resolver.Resolve | tile_fetch.py:48-78 | each exception is raised exactly when its condition holds, in source order; on success, every field is derived as stated |
| WorkQueue.ImageIdOf | autodownload.py:36 | the id is the non-empty slash-free text after the last `/`; without a `/`, or with `/` last, it is the whole URL |
| WorkQueue.EmptyTable | autodownload.py:29 | a new cache is a well-formed empty table |
| WorkQueue.AddAllKeeps | autodownload.py:33-44 | `AddAll`: a batch keeps ids unique, never changes or reorders an existing row, and adds only pending rows at the batch quality, each for one of its URLs under that URL's id |
| WorkQueue.AddAllCovers | autodownload.py:33-41 | a completed batch leaves every one of its ids in the table |
| WorkQueue.AddAllFails | autodownload.py:39-40 | the quality assertion fails exactly when the quality is outside 0..95 and some id is new |
| WorkQueue.AddOneIdempotent | autodownload.py:39-44 | `AddOne` of the same URL a second time changes nothing, whatever the quality: the id is then queued, or the assertion fails again on the same table |
| WorkQueue.AddAllIdempotent | autodownload.py:33-44 | adding a completed batch again leaves the table as it is |
| WorkQueue.AddAllPresent | autodownload.py:39-44 | a batch whose ids are all queued changes nothing |
| WorkQueue.AddTwiceIsAddOnce | autodownload.py:39-44 | the same URL twice has the effect of once |
| WorkQueue.ChosenZoomSteps | autodownload.py:77-96 | `ChosenZoom`, `Downgrade` twice from `DefaultZoom` (`len(tile_info) - 1`): at most two decrements, each only when the level at hand exceeds 65535; a fitting top level is kept, and a level still too large after two steps is used anyway |
| WorkQueue.ChosenZoomLevel | autodownload.py:81-101 | `load_tiles` downloads the level Python's `tile_info[zoom]` names; with a single level, -2 wraps back to level 0 |
| WorkQueue.TwoLevelDowngradeWraps | autodownload.py:88-96 | with two levels both too large, the zoom becomes -1, and `load_tiles` downloads the oversized top level |
| WorkQueue.ChooseZoom | autodownload.py:77-96 | the two guarded decrements compute the chosen zoom; no zoom without levels |
| WorkQueue.Pending | autodownload.py:58 | exactly the rows not yet downloaded, each once, in row order (a subsequence of the table's row order); none when every row is downloaded |
| WorkQueue.Mark | autodownload.py:104 | `df.at[k, "downloaded"] = True` keeps the table well formed and leaves row `k` marked: an existing row changes only its flag, a missing one is appended with NaN cells, and no other row changes |
| WorkQueue.Visit | autodownload.py:58-104 | the walk, `Step` by `Step`, never drops or reorders rows and never changes a row's URL or quality; it may append rows |
| WorkQueue.VisitMarksOnlyLoaded | autodownload.py:58-104 | a row changes only by being marked and a row is appended only marked, and each such row carries the id `ImageInfo` resolved for a visited row whose quality check, `ImageInfo` and `load_tiles` at the chosen zoom and the row's quality all succeeded |
| WorkQueue.VisitMarksAll | autodownload.py:58-104 | a walk that finishes loaded every row it visited and marked the row of each one's resolved image id |
| WorkQueue.VisitKeepsMarks | autodownload.py:58-104 | a row once marked stays marked |
| WorkQueue.VisitValid | autodownload.py:58-104 | the walk keeps the table well formed: ids unique, one row per id |
| WorkQueue.NothingPendingAfterWalk | autodownload.py:56-107 | after a finished walk over the pending rows, a row is still pending only when it was pending before, was loaded, and its image id differs from its key |
| WorkQueue.NothingPendingWhenKeyedById | autodownload.py:56-107 | when every row is keyed by its image's own id, a finished walk leaves no row pending |
| WorkQueue.MarkedUnderOtherId | autodownload.py:36-104 | a row whose URL resolves to another id: the walk appends a marked row under that id and the visited row stays pending |
| WorkQueue.QueryStringIds | autodownload.py:36 | a URL with a query string: the queue key `ImageIdOf` gives keeps it, while the id unpacked from the path does not |
| WorkQueue.Queue.constructor | autodownload.py:24-29 | the queue starts as the table read from `dlcache` |
| WorkQueue.Queue.AddRow | autodownload.py:36-44 | one URL of the batch updates the queue as `AddOne` with `ImageIdOf` says, keeping it well formed |
| WorkQueue.Queue.AddUrls | autodownload.py:31-44 | the `--batch-add` loop updates the queue as `AddAll` with `ImageIdOf` says, stopping at a failed assertion |
| WorkQueue.Queue.VisitRow | autodownload.py:60-104 | one row of the `--download` loop updates the queue as `Step` says: it marks the row of the resolved id, or raises and changes nothing |
| WorkQueue.Queue.MarkDownloaded | autodownload.py:104 | `df.at[k, "downloaded"] = True` updates the queue as `Mark` says |
| WorkQueue.Queue.DownloadPending | autodownload.py:56-107 | the `--download` loop over the pending rows updates the queue as `Visit` over `Pending` says, stopping at the first row that raises |
| WorkQueue.SessionWrites | autodownload.py:24-109 | `Session`: a run that writes `dlcache` keeps every row it read with its URL and holds a row for every URL of the batch; after a download, a row is still pending only when it was loaded but its image id differs from its key, and none is when every row is keyed by its image's own id |
| WorkQueue.RunSession | autodownload.py:10-109 | one run of the driver writes what `Session` says, or nothing when an exception ends it |

## Left out

- **Network I/O.** `urlopen`, the `aiohttp` session and the tile fetcher module are left out. The descriptor fetch, `ImageInfo(url)` and `load_tiles` are parameters.
- **Tile decryption.** `decryption.decrypt` is not part of this model.
- **Pixel work.** PIL canvas creation, decoding, pasting and saving are left out, and so is `shutil.rmtree`. The model keeps only the paste origins, the encoder options and whether XMP is written.
- **The per-tag XMP fallback.** At tile_fetch.py:206 it prints an unbound `e`, so the first failing tag raises. The model does not claim that tags are written one by one.
- **Library parsing.**
  - lxml selection and XPath, the `RE_URL_PATH_TOKEN` search, and `urlparse`/`unquote_plus` are left out. Their results are inputs.
  - `int()` of the descriptor attributes is left out. The levels arrive as integers.
- **UTF-8 decoding.**
  - `compute_url` returns octets rather than `decode('utf-8')` of them. The host, the coordinates and the base64 signature are ASCII, so the URL is ASCII whenever the path is.
  - The descriptor URL is formed from octets.
- **Driver plumbing.** pandas CSV reading and writing, argparse, the `print` calls and `sleep(randint(30, 40))` are left out. A run's result is the table it would write.
- **`tile_fetch.py` `main` (tile_fetch.py:211-345).** This interactive driver is not modelled:
  - its queue logic repeats that of `autodownload.py`;
  - line 274 and the loop at lines 319-336 are broken, the latter through an undefined `img_info`.
- **Single URL add (autodownload.py:46-54).** A URL whose id is already queued is only reported. A new id reaches `df.loc[image_info.image_id]` at line 51, which reads `image_info` before any assignment and raises. This branch is not modelled.
- **Explicit `--zoom` (autodownload.py:71-76).** `nargs=1` makes the zoom a list, so indexing `tile_info` with it fails. Only the default zoom is modelled.
- **Errors abort the run.**
  - Any failure in a row of the download loop ends the whole run, and `df.to_csv` is never reached, so the cache keeps what it held. Such failures are:
    - the quality assertion at autodownload.py:68;
    - a failed `ImageInfo`, after which the call at autodownload.py:101 raises before `load_tiles` runs: `zoom` is unbound on the first row, and `None` has no `image_name` on a later one;
    - no levels;
    - `load_tiles` raising.
  - No `try` surrounds the `load_tiles` call or the mark at autodownload.py:101-104, so none of these is caught per row.
- **WorkQueue.Mark, WorkQueue.Queue.MarkDownloaded.** The row pandas appends for a new label has NaN in its `url` and `quality` cells. The model writes them as `""` and `0`.
- **WorkQueue.AddOne, WorkQueue.AddAll, WorkQueue.Queue.AddRow.** The id function is a parameter. The queue and the driver always pass `ImageIdOf`, and the properties hold for any id function.
- **Output.FileName.** `author == 0` compares a `str` with an `int` and is never true, so the `image_name + ext` branches are dead. Only the author form is modelled.
- **Resolver.Resolve.** Whether the descriptor fetch or parse fails is one outcome, `DescriptorUnavailable`. The model does not tell I/O errors from parse errors.
- **Output.Origins, Output.PlanLoad.** The paste order is that of the results of `gather_progress`, which is not part of this model. The model pastes in grid order, and `Pyramid.TilesDisjoint` shows the order cannot change which pixels a tile covers.
- **Pyramid.CanvasPixelInGrid, Pyramid.GridTileOnCanvas.** The first needs trims that are not negative. The second needs trims of less than one tile per axis. The source assumes both and checks neither.
