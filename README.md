# MComix thumbnails, page metadata and bookmarks in Dafny

This project models three parts of MComix, a comic-book viewer.

- **The thumbnail engine** (`Thumbnailer`). For an image or an archive, it produces a small preview image. Previews are cached as PNG files under a cache directory.
  - The cache file name is the MD5 hex digest of the source file's `file://` URI, plus `.png`.
  - Each PNG carries text chunks: a URI, a modification time, a size, a MIME type, the image dimensions and the software version. For a plain image all of them describe that image. For an archive, all but the modification time describe the cover image extracted from it (or, for an encrypted archive, the placeholder image), and the modification time is the archive's own.
  - A cached preview is reused when its stored modification time still matches the source file and its longer side matches the requested size.
  - Otherwise a preview is created. For an archive, the cover is guessed from the member names. The completion callback fires first; the preview is then stored when storing is on.
- **Per-book page metadata** (`PageData`, `Metadata`). This covers which pages may not be shown as half of a double-page spread, where the book's body starts, and the page labels: Roman numerals for front matter, numbers counted from the body start for the rest. It also covers the rule that decides whether a page is the right half of a spread.
- **A bookmark** (`_Bookmark`). This covers its fields, its menu label, its identity (path and page only), its hash, its pickled form, its copy, and what activating it does.

Modules:

- `Text`: Python's `str` of an int, `float` read back, lower-casing and `in` on strings.
- `Paths`: `split`, `basename`, `dirname` and `join` on POSIX paths, as concrete functions.
- `CacheKey`: the hex form of a digest.
- `Cover`: `_guess_cover`.
- `ThumbnailTools`: the engine.
- `ThumbnailProperties`: lemmas about the engine.
- `Metadata`.
- `BookmarkMenuItem`.

In the engine:

- The file system is a `Disk` object that the methods change in place: a map from path to file (what `os.path.isfile` and `os.stat` see) and a set of directories (what `os.path.isdir` sees). `os.remove` and `os.makedirs` change it.
- The other libraries the engine calls are uninterpreted fields of `Backend`: `normpath`, `pathname2url`, `md5`, the archive and image helpers, `mimetypes` and the sort order. The one exception is `image_tools.load_pixbuf` on a cache hit: it is modelled as returning exactly the image stored in the cached PNG.
- An exception the engine's own code raises and does not catch comes back as `Raised`: `os.stat` of a missing file, a missing dict key, `float()` of a malformed value, and `with` on a None archive handler.
- A save fails where the disk forbids it: `os.makedirs` on an empty name or with a regular file at the directory or one of its ancestors, and `savev` onto a directory. Any other failing step is an injected `SaveFault`. The Python code logs such a failure and carries on.
- The callback and the starting of a background thread are recorded in `trace` in the order they occur.

Three behaviours of the code are worth stating outright:

- Saving removes the old thumbnail before writing the new one, so a failed write loses the previous thumbnail (`FailedWriteLosesOldEntry`).
- The freshness check catches only `IOError`. A cached PNG without a `Thumb::MTime` chunk, or with one that `float` cannot read, makes `thumbnail` raise rather than count as a miss (`BadStoredMTimeRaises`). So does an archive for which no handler can be made, since `with None:` raises (`MissingHandlerRaises`).
- The freshness check never consults `store_on_disk` (`FreshnessIgnoresStoreOnDisk`).

## Model

| member | source | states |
|---|---|---|
| ThumbnailTools.Thumbnailer.constructor | mcomix/mcomix/thumbnail_tools.py:32-64 | store_on_disk and the size fall back to the preferences when not given; default_sizes records which case applied; the other settings are kept as given |
| ThumbnailTools.Thumbnailer.Thumbnail | mcomix/mcomix/thumbnail_tools.py:66-93 | width and height are refreshed from the preference exactly when the size was not given, before anything else. An error from the freshness check then propagates, with the trace and the disk unchanged. On a valid cached thumbnail the PNG's image is returned and the callback fires once, with no creation. With mt, None is returned after a thread is spawned. Otherwise the result, events and disk are exactly those of `_create_thumbnail` |
| ThumbnailTools.Thumbnailer.Delete | mcomix/mcomix/thumbnail_tools.py:103-111 | the thumb file is removed when present and removal succeeds; no other file and no directory changes |
| ThumbnailTools.AfterDelete | mcomix/mcomix/thumbnail_tools.py:105-111 | the file map after `delete`: without the thumb file when it was there and removal succeeded, otherwise as before |
| ThumbnailTools.Thumbnailer.CreateThumbnailPixbuf | mcomix/mcomix/thumbnail_tools.py:113-160 | a metadata dict is produced only when storing is on, and whenever a pixbuf is produced while storing is on. The definition tries the archive branch only with archive support on and an archive MIME type; a missing handler raises, a handler yielding None or a non-archive gives (None, None); otherwise an image file is loaded directly |
| ThumbnailTools.Thumbnailer.ThumbnailFromArchive | mcomix/mcomix/thumbnail_tools.py:121-149 | the same two links between pixbuf, dict and store_on_disk for the archive branch |
| ThumbnailTools.Thumbnailer.CreateThumbnail | mcomix/mcomix/thumbnail_tools.py:162-173 | the result, the callback events and the disk afterwards are those of the creation effect: notify, then save only when there is a pixbuf and storing is on |
| ThumbnailTools.Thumbnailer.CreateEffect | mcomix/mcomix/thumbnail_tools.py:166-173 | the effect of `_create_thumbnail`: an exception from creation leaves everything as it was with no event; otherwise one Finished event with the pixbuf, then, when there is a pixbuf and storing is on, a SaveAttempted event and the disk the save leaves |
| ThumbnailTools.Thumbnailer.EffectOf | mcomix/mcomix/thumbnail_tools.py:167-173 | the same effect given the result of `_create_thumbnail_pixbuf`, so that `CreateEffect` is that effect of the creation step |
| ThumbnailTools.GetTextData | mcomix/mcomix/thumbnail_tools.py:176-193 | seven distinct keys in the order URI, MTime, Size, Mimetype, Image::Width, Image::Height, Software, each with the `tEXt::` prefix; the MTime entry is the decimal form of the source's mtime and the URI entry is the source's URI |
| ThumbnailTools.OptionLists | mcomix/mcomix/thumbnail_tools.py:207-211 | the two option lists have the dict's length and pair up entry by entry in the dict's order |
| ThumbnailTools.SaveThumbnail | mcomix/mcomix/thumbnail_tools.py:195-216 | the disk afterwards is the save effect: make the directory if missing, remove an existing file, write the PNG, and stop at the first failure without rollback |
| ThumbnailTools.SaveEffect | mcomix/mcomix/thumbnail_tools.py:200-216 | the disk after `_save_thumbnail`: the directory is added when missing (nothing happens when it is empty, a file is at it or at an ancestor, or makedirs fails); an existing file is removed (nothing more when that fails); then the PNG with the pixbuf and one chunk per `tEXt::` option is written with the clock as mtime, or, on a failed write, a thumb path that is a directory or a rejected key, nothing is written |
| ThumbnailTools.Thumbnailer.ThumbnailExists | mcomix/mcomix/thumbnail_tools.py:218-243 | false when recreation is forced or the thumb file is missing; true only for a PNG with a readable stored MTime whose longer side matches; an error only for a PNG whose MTime chunk is missing or unreadable |
| ThumbnailTools.Thumbnailer.UriToThumbpath | mcomix/mcomix/thumbnail_tools.py:250-255 | `dst_dir` joined with the lower-case hex MD5 digest of the URI plus ".png" |
| ThumbnailTools.Thumbnailer.PathToThumbpath | mcomix/mcomix/thumbnail_tools.py:245-248 | the cache path of the URI made of the URI prefix and `pathname2url` of the normalised path |
| ThumbnailProperties.FreshnessRule | mcomix/mcomix/thumbnail_tools.py:225-237 | true exactly when: not forced, a readable PNG, a parsable stored MTime equal to the source file's (unless that file is missing or its mtime is 0), and matching longer side |
| ThumbnailProperties.ChangedSourceIsStale | mcomix/mcomix/thumbnail_tools.py:234-237 | a source whose non-zero mtime differs from the stored one makes the thumbnail invalid |
| ThumbnailProperties.MissingSourceTrustsStoredMTime | mcomix/mcomix/thumbnail_tools.py:235-237 | with the source file missing or at mtime 0, validity depends on the size alone |
| ThumbnailProperties.BadStoredMTimeRaises | mcomix/mcomix/thumbnail_tools.py:230-239 | a PNG without a parsable `Thumb::MTime` is not a miss: the check raises |
| ThumbnailProperties.FreshnessIgnoresStoreOnDisk | mcomix/mcomix/thumbnail_tools.py:225-243 | two thumbnailers that differ only in store_on_disk (and archive support) agree on every freshness check |
| ThumbnailProperties.ThumbNameIsPlain | mcomix/mcomix/thumbnail_tools.py:253-254 | the cache file name has 36 characters and no separator |
| ThumbnailProperties.ThumbpathShape | mcomix/mcomix/thumbnail_tools.py:250-255 | the cache path's basename is the 32-digit hex digest plus ".png", and its directory is dst_dir (without a trailing separator) |
| ThumbnailProperties.UriToThumbpathInjective | mcomix/mcomix/thumbnail_tools.py:250-255 | two URIs map to the same cache path exactly when their digests are equal |
| ThumbnailProperties.SameNormpathSameThumbpath | mcomix/mcomix/thumbnail_tools.py:245-248 | source paths with the same normal form share a cache path |
| ThumbnailProperties.LookupFound | mcomix/mcomix/thumbnail_tools.py:185-193 | a key that is found in the dict occurs there with that value |
| ThumbnailProperties.DictSetLookup | mcomix/mcomix/thumbnail_tools.py:145 | after the archive's mtime is assigned into the dict, looking the key up gives that value |
| ThumbnailProperties.DictSetKeys | mcomix/mcomix/thumbnail_tools.py:145 | the assignment introduces no key other than the one assigned |
| ThumbnailProperties.DictSetValid | mcomix/mcomix/thumbnail_tools.py:145 | the assignment keeps the keys distinct and all `tEXt::` options |
| ThumbnailProperties.ChunkNameInjective | mcomix/mcomix/thumbnail_tools.py:212 | distinct `tEXt::` option keys write distinct chunk names |
| ThumbnailProperties.PngInfoHas | mcomix/mcomix/thumbnail_tools.py:212 | an option that no later option overwrites is read back from the PNG with its value |
| ThumbnailProperties.SavedChunk | mcomix/mcomix/thumbnail_tools.py:233-234 | the MTime written through `tEXt::Thumb::MTime` is what `info['Thumb::MTime']` reads back |
| ThumbnailProperties.SaveWrites | mcomix/mcomix/thumbnail_tools.py:200-212 | without a fault, on a disk that admits it (`CanSave`), the save succeeds: the thumb path holds the pixbuf with the dict's chunks, its directory exists, and every other file is unchanged |
| ThumbnailProperties.FailedWriteLosesOldEntry | mcomix/mcomix/thumbnail_tools.py:204-216 | when the write fails, the previous thumbnail is removed and nothing replaces it |
| ThumbnailProperties.SaveNeedsRoom | mcomix/mcomix/thumbnail_tools.py:200-212 | when the disk does not admit the save (no directory part, a file in the way of the directory, or the thumb path a directory) nothing is saved whatever the fault, and a file in the way leaves the disk unchanged; with no fault and valid text data, the save succeeds exactly when the disk admits it |
| ThumbnailProperties.NoDirectoryNoSave | mcomix/mcomix/thumbnail_tools.py:201-203 | a thumb path without a directory part is never written, whatever the fault |
| ThumbnailProperties.DeleteIdempotent | mcomix/mcomix/thumbnail_tools.py:103-111 | a successful delete removes the thumb file, a second delete changes nothing, and no other file is touched |
| ThumbnailProperties.ArchiveSupportOffIgnoresArchives | mcomix/mcomix/thumbnail_tools.py:117-121 | with archive support off, the archive collaborators are never consulted |
| ThumbnailProperties.EncryptedUsesPlaceholder | mcomix/mcomix/thumbnail_tools.py:129-141 | an encrypted archive's members are never listed or extracted; the pixbuf is the placeholder image's |
| ThumbnailProperties.MissingHandlerRaises | mcomix/mcomix/thumbnail_tools.py:121-128 | an archive for which `get_recursive_archive_handler` gives None makes creation raise at the `with`; no callback fires and the disk is unchanged |
| ThumbnailProperties.TextDataRecordsSourceMTime | mcomix/mcomix/thumbnail_tools.py:142-158 | a produced dict is valid, the source file exists, and its MTime entry is that file's own mtime (for an archive, the archive's rather than the extracted image's) |
| ThumbnailProperties.CreateNotifiesOnceThenSaves | mcomix/mcomix/thumbnail_tools.py:162-173 | when creation raises, nothing fires and nothing changes. Otherwise the callback fires exactly once, first, with the returned pixbuf, and a save follows exactly when there is a pixbuf and storing is on. The disk changes only in that case |
| ThumbnailProperties.CreatedThumbnailIsFresh | mcomix/mcomix/thumbnail_tools.py:162-243 | round trip: a preview created and stored without fault, by a thumbnailer with no forced recreation, on a disk that admits the save, is afterwards found valid exactly when its longer side equals the requested one |
| Cover.SurvivorsMembers | mcomix/mcomix/thumbnail_tools.py:263-270 | a name survives the filters exactly when it is in the list, has no `__MACOSX` path component, no "credit" in its lower-cased basename, and is an image |
| Cover.CandidatesMembers | mcomix/mcomix/thumbnail_tools.py:274-276 | the candidates are exactly the images mentioning cover or front, in any case, and not back |
| Cover.FirstCandidate | mcomix/mcomix/thumbnail_tools.py:275-279 | the first candidate is the first cover name in the sorted list |
| Cover.SortPermutation | mcomix/mcomix/thumbnail_tools.py:272 | the sort only reorders the images |
| Cover.SortSorted | mcomix/mcomix/thumbnail_tools.py:272 | under a total preorder the sorted list is in order |
| Cover.GuessCoverSurvivor | mcomix/mcomix/thumbnail_tools.py:258-284 | None exactly when nothing survives the filters; otherwise a member of the input that survives them |
| Cover.GuessCoverPrefersCover | mcomix/mcomix/thumbnail_tools.py:272-284 | a cover name wins when one survives, and it comes first in the order among the cover names; otherwise the result comes first among all survivors |
| Cover.GuessCover | mcomix/mcomix/thumbnail_tools.py:258-284 | the survivors of the three filters, sorted; the first one whose lower-cased name mentions cover or front but not back, else the first survivor, else None |
| Paths.Split | mcomix/mcomix/thumbnail_tools.py:264 | `split` always gives at least one part |
| Paths.SplitJoin | mcomix/mcomix/thumbnail_tools.py:264 | splitting loses nothing, and no part contains the separator |
| Paths.Basename | mcomix/mcomix/thumbnail_tools.py:268 | the basename is a suffix of the path with no separator |
| Paths.BasenameOfJoin | mcomix/mcomix/thumbnail_tools.py:254 | a plain name joined onto a directory is the basename of the result |
| Paths.JoinCancel | mcomix/mcomix/thumbnail_tools.py:254 | with the directory fixed, `join` is injective in relative names |
| Paths.DirnameOfJoin | mcomix/mcomix/thumbnail_tools.py:254 | `dirname` of a plain name joined onto a directory without a trailing separator is that directory |
| Paths.DirnameOfJoinNonEmpty | mcomix/mcomix/thumbnail_tools.py:201-203 | joined onto a non-empty directory, the directory part is never empty |
| CacheKey.HexDigestRoundTrip | mcomix/mcomix/thumbnail_tools.py:253 | the hex form has two lower-case hex digits per byte and decodes back to the digest |
| CacheKey.HexDigestInjective | mcomix/mcomix/thumbnail_tools.py:253 | distinct digests have distinct hex forms |
| Text.NatToStringDigits | mcomix/mcomix/thumbnail_tools.py:182 | `str` of a natural number is a non-empty string of digits with that value |
| Text.ParseIntOfIntToString | mcomix/mcomix/thumbnail_tools.py:234 | reading back the decimal form of an mtime gives the mtime |
| Text.IntToStringInjective | mcomix/mcomix/metadata.py:47-49 | distinct integers have distinct decimal forms |
| Text.IntToStringHasNoSeparators | mcomix/mcomix/bookmark_menu_item.py:32-33 | the decimal form is non-empty and has no spaces or parentheses |
| Metadata.PageData.constructor | mcomix/mcomix/metadata.py:24-27 | no page is blocked, there are no labels, and the body starts at page 1 |
| Metadata.PageData.Clear | mcomix/mcomix/metadata.py:29-32 | back to the freshly constructed state |
| Metadata.PageData.AddNotDoublePage | mcomix/mcomix/metadata.py:34-35 | exactly the given page is added to the blocked pages |
| Metadata.PageData.CanDisplayAsDoublePage | mcomix/mcomix/metadata.py:37-38 | true exactly when the page was never blocked |
| Metadata.PageData.SetBodyPageNum | mcomix/mcomix/metadata.py:40-45 | the body start is recorded and pages 1 to b-1 get their Roman numeral (none for b <= 1). For b above 11, pages 1 to 10 are labelled and then KeyError is raised (ok is false exactly then) |
| Metadata.PageData.GetPageDisplayStr | mcomix/mcomix/metadata.py:47-50 | from the body start on, the decimal form of the page's offset from the body start plus one; before it, the stored label, or None for the KeyError of a page without one |
| Metadata.GetPreviousFirstPageOfDoublePageRun | mcomix/mcomix/metadata.py:53-63 | the loop computes the first page of the page's run |
| Metadata.IsPageSecondPartOfDouble | mcomix/mcomix/metadata.py:66-73 | the two parity branches amount to: the run starts after a blocked page and the page lies an odd number of pages after the run's first page |
| Metadata.Metadata.constructor | mcomix/mcomix/metadata.py:77-78 | a fresh PageData in its initial state |
| Metadata.Metadata.Clear | mcomix/mcomix/metadata.py:84-85 | the page data is back to its initial state |
| Metadata.Metadata.LoadPageData | mcomix/mcomix/metadata.py:93-101 | the page data starts cleared; exactly the pages with a false double_pages entry are blocked; the body start is the given value, or 1 when absent; the labels are those of set_body_page_num |
| Metadata.NotDoubleMembers | mcomix/mcomix/metadata.py:96-99 | a page is blocked exactly when some entry maps it to false |
| Metadata.ScanBackFindsBlocked | mcomix/mcomix/metadata.py:57-63 | the scan returns one past the nearest blocked page at or below its start, or 0 when none from 1 up is blocked |
| Metadata.FirstOfRunCharacterized | mcomix/mcomix/metadata.py:53-63 | -1 exactly for a blocked page. 0 exactly when no page from 1 to p is blocked. Otherwise r with 2 <= r <= p, where page r-1 is blocked and pages r to p are not |
| Metadata.RunStartIsFirstHalf | mcomix/mcomix/metadata.py:66-73 | the first page of a run starts its own run and is never a right half |
| Metadata.RunAlternates | mcomix/mcomix/metadata.py:66-73 | consecutive pages of a run share its first page and alternate between left and right halves |
| Metadata.NoBlockNoSecondHalf | mcomix/mcomix/metadata.py:66-69 | with no blocked page up to p, p is never a right half |
| Metadata.RomanNumeralShape | mcomix/mcomix/metadata.py:9-20 | every numeral is non-empty and does not start with a digit |
| Metadata.RomanNumeralInjective | mcomix/mcomix/metadata.py:9-20 | distinct keys have distinct numerals |
| Metadata.BodyStartShowsOne | mcomix/mcomix/metadata.py:47-49 | the body start page is labelled "1" |
| Metadata.LabelsAfterSetBody | mcomix/mcomix/metadata.py:40-50 | after the body start is set on cleared data: front pages show their numeral, pages before 1 have no label (KeyError), and later pages count from 1 |
| Metadata.LabelsDistinct | mcomix/mcomix/metadata.py:40-50 | labels set up that way differ from page to page |
| BookmarkMenuItem.MakeBookmark | mcomix/mcomix/bookmark_menu_item.py:12-20 | the bookmark keeps every value it is built from |
| BookmarkMenuItem.Label | mcomix/mcomix/bookmark_menu_item.py:32-33 | the name, ", (", the page, " / ", the page count and ")" |
| BookmarkMenuItem.SamePath | mcomix/mcomix/bookmark_menu_item.py:46-48 | true exactly when the given path is the bookmark's |
| BookmarkMenuItem.SamePage | mcomix/mcomix/bookmark_menu_item.py:50-52 | true exactly when the given page is the bookmark's |
| BookmarkMenuItem.Equals | mcomix/mcomix/bookmark_menu_item.py:86-91 | against another bookmark: same path and same page; against anything else: false |
| BookmarkMenuItem.Hash | mcomix/mcomix/bookmark_menu_item.py:93-95 | the bitwise or, in 64-bit two's complement, of the path's string hash and CPython's hash of the page |
| BookmarkMenuItem.HashInt | mcomix/mcomix/bookmark_menu_item.py:95 | CPython's `hash` of the page: the residue modulo 2**61 - 1 carrying the sign of the page, with -2 in place of -1, so strictly between -(2**61 - 1) and 2**61 - 1 |
| BookmarkMenuItem.Pack | mcomix/mcomix/bookmark_menu_item.py:65-70 | the tuple of name, path, page, page count, archive type and timestamp |
| BookmarkMenuItem.Unpack | mcomix/mcomix/bookmark_menu_item.py:12-20 | a bookmark built with the given window and file handler from a packed tuple, field by field |
| BookmarkMenuItem.Clone | mcomix/mcomix/bookmark_menu_item.py:72-84 | a bookmark built from the same window, file handler and values |
| BookmarkMenuItem.Load | mcomix/mcomix/bookmark_menu_item.py:35-43 | OpenFile of the bookmark's path and page when the open file is another one or none; SetPage of its page otherwise |
| BookmarkMenuItem.EqualsIsEquivalence | mcomix/mcomix/bookmark_menu_item.py:86-91 | equality is reflexive, symmetric and transitive on bookmarks, and false against anything else |
| BookmarkMenuItem.EqualsIsSamePathAndPage | mcomix/mcomix/bookmark_menu_item.py:46-52 | equality with another bookmark is exactly same_path and same_page of its path and page |
| BookmarkMenuItem.HashAgreesWithEquals | mcomix/mcomix/bookmark_menu_item.py:86-95 | equal bookmarks have equal hashes, whatever the string hash |
| BookmarkMenuItem.PackRoundTrip | mcomix/mcomix/bookmark_menu_item.py:65-70 | rebuilding from the packed tuple with the same references gives the same bookmark; with any references, an equal one |
| BookmarkMenuItem.CloneIsEqual | mcomix/mcomix/bookmark_menu_item.py:72-84 | a clone has every field of the original, so it is equal to it, has the same label and hash, and activates the same way |
| BookmarkMenuItem.LoadTargetsBookmark | mcomix/mcomix/bookmark_menu_item.py:35-43 | activation targets the bookmarked page, and opens the bookmarked file exactly when it is not the file currently open |
| BookmarkMenuItem.LabelDeterminesFields | mcomix/mcomix/bookmark_menu_item.py:32-33 | two labels are equal exactly when name, page and page count are |

## Left out

- Threads. With `mt`, `thumbnail` records that a creation thread was started and returns None. The thread's later run is the same `_create_thumbnail` effect. Races between concurrent writers are not modelled.
- Floating-point modification times. An mtime is an integer, `str` is its decimal form, and `float` of a stored value reads only that form (an optional minus sign and digits), so e.g. "1.5" or "1e3" count as unreadable.
- Exceptions raised inside the collaborators. The collaborators are modelled as total; an exception one of them raises (`load_pixbuf_size`, `load_pixbuf`, `get_image_info`, `archive_mime_type`, `get_recursive_archive_handler`, `list_contents`, `extract`) is not represented, although in Python it would escape `thumbnail` before `thumbnail_finished` fires.
- `os.path.normpath`, `pathname2url`, `i18n.to_unicode`, MD5, `mimetypes.guess_type`, the image and archive helpers, and the natural order of `alphanumeric_sort` are uninterpreted collaborators. The exception is `image_tools.load_pixbuf` of a cached thumbnail (thumbnail_tools.py:81): it is interpreted as returning exactly the image stored in that PNG, since the model keeps a saved file as its pixbuf. `Cover.GuessCoverPrefersCover` and `Cover.SortSorted` assume that order is a total preorder.
- Case-insensitive matching (`re.I`, `str.lower`) is modelled for ASCII letters only.
- `os.makedirs` with mode 0o700, `os.chmod` with 0o600 and `LockedFileIO` (file permissions and locking) are left out. Creating the directory is modelled as adding that one directory.
- Failures of `os.makedirs`, `os.remove` and `savev` that the modelled disk does not explain (permissions, a full disk, a read-only file system) are selected by an injected `SaveFault`. The failures it does explain are modelled: an empty directory name, a regular file at the directory or an ancestor, and a thumb path that is a directory. Paths are compared as given, so a file in the way is found only when its path is a textual prefix of the directory followed by `/`. `savev` rejecting a key is modelled as rejecting any key without the `tEXt::` prefix.
- The PNG encoding itself is left out. A saved file is modelled as its pixbuf, its text chunks, the clock value `now` as mtime and an uninterpreted encoded size.
- The temporary directory that archive extraction uses is left out. Extraction is a function from member name to the path written and what is found there.
- `thumbnail_finished` is recorded as an event; its subscribers are not modelled.
- The toolbar hide/show in `_load`, the menu image chosen in `_Bookmark.__init__`, and `to_row` are left out, since they touch only the GTK widgets. The window and the file handler are opaque handles.
- The default arguments of `Thumbnailer.__init__` (`dst_dir=constants.THUMBNAIL_PATH`, `store_on_disk=None`, `size=None`, `force_recreation=False`, `archive_support=False`) and of `thumbnail` (`mt=False`) are left out: every caller of the model passes all of them, with None written as `Option.None`.
- `datetime.fromtimestamp`/`timestamp` is left out: the bookmark keeps the epoch it was built from, so `pack` returns it unchanged.
- String hashing is salted per process and is a parameter of `BookmarkMenuItem.Hash`. The int hash is CPython's 64-bit rule.
- `Metadata.load` and the INI parsing (`configparser`, `int(key)`, `getboolean`, `getint`, and the KeyError for a missing section) are left out. `LoadPageData` receives the parsed entries of the `double_pages` section and the optional `body_start`.
