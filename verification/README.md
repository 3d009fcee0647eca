# milkdud in Dafny

milkdud scans a music library for folders of FLAC rips. A folder counts as
an album when it has an Exact Audio Copy or CUETools rip log with a CTDB
TOC ID, or when rip logs are ignored. The albums are summarised, and a
private BitTorrent metainfo file is built over their files.

This project models the logic of that program. Hashing, the TOC-ID regular
expression, file-system results and the anacrolix library are uninterpreted
parameters. The modelled parts are:

- **Piece construction.** `generatePieces` of the `torrent` package cuts the
  byte stream into windows of `pieceLength` bytes and appends one 20-byte
  digest per window. This is the "pieces" string of the info dictionary in
  BEP 3 (The BitTorrent Protocol Specification).
- **Builder in torrent/torrent.go.** `New`, `AddFile`, `buildFromPathList`,
  the path sort and the piece-length check of `Create`, and the abort on a
  read error.
- **Builder in torrent.go (main package).** `createTorrentFile` and
  `AddFile`, which keep a map from relative path to size. `Create` then:
  - recomputes the total from the map;
  - lists one file per key, in map iteration order;
  - runs piece generation, bencoding, the magnet link and the output file,
    all as parameters.
- **Library scanning in main.go.** This covers:
  - the exponent and divisor choice of `byteCountSI`;
  - EAC and CUETools TOC-ID detection;
  - extension classification and per-folder counters in `CrawlFolder`;
  - the folder summary loop of `main`.
- **The beets reader.** Album aggregation in `GetAlbum`, row mapping in
  `GetAllAlbums`, and the argument check of `New`. Query results arrive
  already fetched.
- **Music data types (files.go).** The `FileType` constants and `String`,
  and the `ToCID` lookup link.

Modules:

| file | module | concern |
|---|---|---|
| wrappers.dfy | Wrappers | `Option`, `Result` |
| text.dfy | Text | `strings.Contains`, `Replace`, `Split`, `Join`, string `<` |
| paths.dfy | Paths | `filepath.Clean`, `Rel`, `Join`, `Dir`, `path.Ext` |
| files.dfy | MusicFiles | files.go |
| pieces.dfy | Pieces | `generatePieces` and piece accounting |
| metainfo.dfy | Metainfo | metainfo records, announce tiers, the path sort |
| torrent_builder.dfy | TorrentBuilder | torrent/torrent.go |
| library_torrent.dfy | LibraryTorrent | torrent.go |
| byte_count.dfy | ByteCount | `byteCountSI` |
| toc_detection.dfy | TocDetection | `detectEACTOCID`, `detectCUERipperTOCID`, `detectAccuripInFile` |
| crawl.dfy | Crawl | `CrawlFolder` |
| summary.dfy | Summary | the folder loop of `main` |
| beets.dfy | Beets | beets/beets.go |

Go's `range` over a map has no fixed order. The model makes the order a
parameter and requires it to list every key exactly once (`IsEnumeration`).

Behaviours of the code that the model keeps as they are:

- On a read error, `generatePieces` returns the digests it has so far
  together with the error.
- An empty file list is not an error: `Create` goes on to the piece-length
  check with whatever the list holds.
- Nothing compares the number of digests with the number of files or with
  the total length.
- `AddFile` panics, rather than returning an error, when `filepath.Rel`
  fails. That happens when exactly one of the root and the path is
  absolute, or when the root keeps a ".." that the path does not share.
  A path outside the root is recorded under its "../" form. `AddFile`
  accepts any size.
- The torrent/torrent.go file list keeps duplicate paths.
- The piece length comes from anacrolix's `ChoosePieceLength`, which is a
  parameter here.

## Model

| member | source | states |
|---|---|---|
| Text.Contains | main.go:308-309 | The result is true exactly when `sub` occurs at some position of `s`. |
| Text.Without | main.go:305-306 | Removing every `c` leaves no `c`, keeps every other character, and never lengthens the text. |
| Text.WithoutConcat | main.go:305-306 | Removal distributes over concatenation. |
| Text.WithoutAbsent | main.go:305-306 | Text without `c` is unchanged, so removal is idempotent. |
| Text.Split | torrent.go:76 | Splitting gives at least one part, and no part holds the separator. Joining the parts with the separator gives the input back. |
| Text.SplitJoin | torrent/torrent.go:102 | Separator-free parts, joined and split again, give the same parts. |
| Text.SplitConcat | torrent/torrent.go:102 | Splitting `a + "/" + c` gives the parts of `a` followed by the parts of `c`. |
| Text.JoinWithConcat | torrent/torrent.go:132 | Joining two non-empty part lists one after the other puts exactly one separator between their joins. |
| Text.LastIndexOfAt | beets/beets.go:150 | The last occurrence of `c` is at `k` exactly when `s[k]` is `c` and no `c` comes after it. |
| Text.LessTransitive | torrent/torrent.go:131-133 | Go's string `<` is transitive. |
| Text.LessTotal | torrent/torrent.go:131-133 | Go's string `<` orders any two different strings one way or the other. |
| Text.LessAsymmetric | torrent/torrent.go:131-133 | Go's string `<` never holds both ways. |
| Paths.Clean | torrent.go:28 | A cleaned path is rooted exactly when the input is. |
| Paths.CleanIdempotent | torrent.go:28 | Cleaning a cleaned path changes nothing. |
| Paths.JoinParts | main.go:207 | `filepath.Join` below a non-empty directory scans the name's elements onto the directory's cleaned elements, so ".." steps back and "." vanishes. The result is that scan spelled out, and its elements are the scan. |
| Paths.Rel | torrent.go:28-31 | An absolute and a relative path that clean differently cannot be related. Paths that clean to the same text give ".". A different target that cleans to "." keeps its "." as a last "/." element, as Go's `filepath.Rel` does. |
| Paths.DotTailClean | torrent.go:28-31 | The trailing "/." is added exactly when the target cleans to ".". |
| Paths.RelToDot | torrent.go:28-31 | From the root "a", the target "." is "../.". |
| Paths.RelDot | torrent.go:28-31 | The relative path is "." exactly when both paths clean to the same text. |
| Paths.RelRoundTrip | torrent.go:28-33 | Whenever `filepath.Rel` succeeds, joining its result below the root gives back the cleaned input path. This includes "../" results for paths outside the root. |
| Paths.RelSucceeds | torrent.go:28-31 | `filepath.Rel` succeeds whenever both paths are absolute or both relative and the cleaned root holds no "..". So it panics only in the cases the library refuses. |
| Paths.RelFromDot | main.go:165 | With the root ".", every relative path can be related. |
| Paths.RelFromSlash | main.go:165 | With the root "/", every absolute path can be related. |
| Paths.RelJoin | torrent/torrent.go:96-102 | Take any non-empty root, including ".", "/" or one with a trailing slash. Joining ordinary names below it and taking the result relative to the root gives back the names joined with "/". |
| Paths.Dir | beets/beets.go:150 | The result is "." when there is no separator. Otherwise it is rooted exactly when the path is. It is always a clean path. |
| Paths.DirJoin | beets/beets.go:150 | The directory of an ordinary name joined below a clean directory is that directory. |
| Paths.Ext | main.go:373 | The extension is empty or a suffix of the name that starts with its only ".". |
| Paths.ExtOfSuffix | main.go:373 | A name ending in "." plus dot-free text has exactly that suffix as its extension. |
| Paths.ExtNoDot | main.go:373 | A name without "." has no extension. |
| MusicFiles.ParseFileTypeRoundTrip | files.go:10-20 | Each constant's text parses back to that constant. The only texts that parse are the five constants' own. |
| MusicFiles.StringInjective | files.go:10-16 | The five constants have pairwise different texts. |
| MusicFiles.ToCID | files.go:47-50 | The link starts with the CUETools lookup prefix of files.go:8, and the TOC ID can be read back from it. |
| MusicFiles.ToCIDDependsOnTocID | files.go:47-50 | Two folders get the same link exactly when their TOC IDs are equal. |
| Pieces.CopyN | torrent/torrent.go:303 | `io.CopyN` moves at most `n` bytes and leaves the rest of the stream. It reports a full copy exactly when `n` bytes moved. |
| Pieces.GeneratePieces | torrent/torrent.go:300-314 | The output is the prefix followed by one digest per window of the whole stream, even when the read fails. The error is the reader's error, or none at EOF. |
| Pieces.CeilDiv | torrent/torrent.go:300-309 | The window count is zero only for an empty stream. Otherwise it is the least `c` with `n <= c*L`. |
| Pieces.CeilDivExact | torrent/torrent.go:300-309 | A stream of `m` whole pieces has exactly `m` windows. |
| Pieces.WindowCount | torrent/torrent.go:300-309 | A stream of `n` bytes has ceil(n/L) windows. |
| Pieces.WindowContents | torrent/torrent.go:302-308 | Window k holds bytes [k*L, min((k+1)*L, n)). |
| Pieces.WindowSizes | torrent/torrent.go:302-308 | Every window but the last holds L bytes. The last window is non-empty and holds what is left, which is L on a piece boundary. |
| Pieces.WindowsPartition | torrent/torrent.go:302-308 | Concatenating the windows gives back the stream. |
| Pieces.FlattenDigestAt | torrent/torrent.go:305 | Digest k of the pieces string sits at bytes [20k, 20(k+1)). |
| Pieces.PiecesLayout | torrent/torrent.go:300-309 | The pieces string is 20*ceil(n/L) bytes long. Its k-th digest is the hash of bytes [k*L, min((k+1)*L, n)). |
| Pieces.PiecesOfEmpty | torrent/torrent.go:304-306 | An empty stream gives no digest. |
| Pieces.CrossFileBoundary | torrent/torrent.go:300-309 | Take 10 zero bytes, then 10 one-bytes, with L = 16. Piece 0 spans the file boundary without padding, and piece 1 holds the last 4 bytes. |
| Metainfo.AnnounceTiers | torrent/torrent.go:202-204 | There is one tier per tracker, and flattening the tiers gives back the trackers in order. |
| Metainfo.AnnounceTierAt | torrent/torrent.go:202-204 | Tier k holds only tracker k. |
| Metainfo.Insert | torrent/torrent.go:131-133 | Inserting into a path-sorted list keeps it sorted and adds exactly that entry. |
| Metainfo.SumLengthsPermutation | torrent/torrent.go:131-136 | Reordering a file list leaves the sum of its lengths unchanged. |
| Metainfo.TotalLengthReordered | torrent/torrent.go:131-136 | Sorting the files does not change `Info.TotalLength`, so the fallback piece length is the same before and after the sort. |
| Metainfo.SortByPath | torrent/torrent.go:131-133 | The sorted file list is ascending by "/"-joined path and is a permutation of the input. |
| TorrentBuilder.New | torrent/torrent.go:192-216 | There is one single-URL tier per tracker, in order. The comment, creator and clock reading are stored, and the builder starts empty. |
| TorrentBuilder.AddFile | torrent/torrent.go:42-56 | It panics exactly when `filepath.Rel` fails on the root and the path. Otherwise the relative path maps to `size`, the total grows by `size`, and exactly one entry `[path]` is appended. Earlier entries stay unchanged. |
| TorrentBuilder.AddFilesAccumulate | torrent/torrent.go:42-56 | After a run of calls, the total grew by the sum of the sizes. There is one new entry per call, in call order. |
| TorrentBuilder.BuildFiles | torrent/torrent.go:73-108 | Entries with zero or several paths are passed over. The loop fails exactly when a single path comes before the root's own entry and is missing, empty, unreadable by stat (the nil-pointer panic), or not relatable to the root. Say the root is not among the single paths. Then each single path gets one file, in order. The file's segments are `strings.Split` of that path relative to the root, and its length is what stat reports. |
| TorrentBuilder.FailsBeforeSome | torrent/torrent.go:75-104 | Scanning the paths in order meets a fatal one before the root exactly when some path is fatal and the root is not among the paths before it. |
| TorrentBuilder.BuildFailsExactly | torrent/torrent.go:75-104 | The loop fails exactly when some single path is missing, empty, unreadable or not relatable to the root, and no entry naming the root comes before it. |
| TorrentBuilder.FileForJoinsBack | torrent/torrent.go:96-102 | A built file's segments, joined with "/" below the root, give back the entry's path in cleaned form. |
| TorrentBuilder.BuildFromPathList | torrent/torrent.go:58-71 | The info is always named "music". |
| TorrentBuilder.BuildSkipsMultiPath | torrent/torrent.go:75-82 | An entry with zero or several paths has no effect. |
| TorrentBuilder.BuildStopsAtRoot | torrent/torrent.go:91-94 | An entry equal to the root ends the scan. The single-file length becomes its size. |
| TorrentBuilder.BuildMissingFails | torrent/torrent.go:86-89 | A missing or empty path fails the build. |
| TorrentBuilder.AssembleInfo | torrent/torrent.go:119-154 | A build failure is passed on. The piece length is the one chosen for the running total, or, when that is zero, the one chosen for the built files' total length. Zero ends in the piece-length error, and a stream failure in the piece-generation error. A successful info is named "music" and is private. Its files are the built files, sorted by path, as a permutation. Its pieces are the digests of the whole stream, 20*ceil(n/L) bytes. |
| TorrentBuilder.Create | torrent/torrent.go:111-185 | Any failure before bencoding leaves the builder unchanged. A bencoding failure leaves it with no info bytes. Otherwise the info bytes are the bencoding of the assembled info. Then an open or write error is reported, after the bytes are stored. |
| TorrentBuilder.CreateAbortsOnReadFailure | torrent/torrent.go:150-154 | A read error in piece generation aborts `Create`. Nothing is bencoded, and the outcome does not depend on opening or writing the output. |
| TorrentBuilder.CreateRejectsZeroPieceLength | torrent/torrent.go:135-141 | With a zero piece length from the chooser, `Create` fails before hashing. |
| LibraryTorrent.CreateTorrentFile | torrent.go:115-124 | The new builder has an empty map, a zero total, and the given root and trackers. |
| LibraryTorrent.AddFile | torrent.go:27-35 | It panics exactly when `filepath.Rel` fails on the root and the path. Otherwise the relative path maps to `size`, whatever it mapped to before, and the total grows by `size`. |
| LibraryTorrent.AddFileTwice | torrent.go:33-34 | A repeated path keeps only the second size in the map, but both sizes in the running total. |
| LibraryTorrent.EnumerationKeys | torrent.go:53 | A map iteration order lists every key exactly once. |
| LibraryTorrent.SumOverPermutation | torrent.go:52-55 | The recomputed total does not depend on iteration order. |
| LibraryTorrent.SumOverUpdate | torrent.go:52-55 | Setting a key to `v` changes the recomputed total by `v` minus the size it replaces. So each distinct relative path counts once, with its latest size. |
| LibraryTorrent.FileList | torrent.go:71-78 | There is one file per listed key. Its length is the mapped size, and its segments are the key split on the separator. |
| LibraryTorrent.AssembleMetaInfo | torrent.go:40-50 | There is one single-URL tier per tracker, in order. The comment is stored, and the creator is "milkdud". |
| LibraryTorrent.AssembleInfo | torrent.go:52-82 | The info is named `torrentFsRoot` and is private. It has one file per map key, whose "/"-joined path is the key and whose length is the mapped size. Every key appears, and the single length is that of the last key listed. The piece length is the one chosen for the sum over the map, or, when that is zero, for the info's total length. |
| LibraryTorrent.SumLengthsFileList | torrent.go:71-81 | The file list's lengths add up to the sum over the map. |
| LibraryTorrent.PieceLengthOfMapTotal | torrent.go:52-83 | The piece length is always the one chosen for the sum over the map. A path added twice counts once, with its last size, unlike the running total. |
| LibraryTorrent.AssembleInfoIgnoresSumOrder | torrent.go:52-57 | The assembled info is the same whatever order the total was summed in. |
| LibraryTorrent.Create | torrent.go:84-111 | A piece-generation failure makes `Create` fail with that error. After that, a bencoding, open or write failure is returned, in that order. Without any failure, the result is the magnet of the metainfo carrying the bencoded info. |
| LibraryTorrent.CreateReturnsMagnet | torrent.go:92-111 | On success the output file opened. The result is the magnet of the metainfo carrying the bencoded info with its pieces. |
| LibraryTorrent.CreateAbortsBeforeOpening | torrent.go:84-90 | After a piece-generation failure, the result does not depend on opening or writing the output file. |
| ByteCount.ByteCountSI | main.go:262-274 | The plain form is used exactly below 1000 bytes. Otherwise `div` is 1000^(exp+1) with div <= b < 1000*div, and `exp` indexes "kMGTPE" within bounds. |
| ByteCount.ScaleStep | main.go:268-271 | One loop turn keeps `n` the floor of b/div, with `div` a power of 1000. |
| ByteCount.ScaleFinish | main.go:268-273 | When the loop stops, `div` is the largest power of 1000 not above `b`. For a 64-bit `b`, the exponent is at most 5. |
| ByteCount.PowBound | main.go:273 | A power of 1000 that fits in int64 has exponent at most 6. |
| TocDetection.DetectEACTOCID | main.go:303-319 | The id is non-empty only if the NUL-stripped log contains both "Exact Audio Copy" and "has been confirmed". When it does, the id is the matcher's capture on that text, or "" without a match. |
| TocDetection.DetectCUERipperTOCID | main.go:322-333 | The id is non-empty only if "CUETools log" is in the unstripped text. When it is, the id is the matcher's capture, or "" without a match. |
| TocDetection.DetectAccuripInFile | main.go:277-300 | A read error is passed on unchanged, and only then does detection fail. |
| TocDetection.DetectedIdHasMarker | main.go:283-299 | A non-empty id comes with one ripper's markers, and it is the matcher's capture on the text that ripper checked. |
| TocDetection.EacLogYieldsId | main.go:283-289 | A confirmed EAC log whose capture is non-empty yields that capture. |
| TocDetection.CueToolsLogYieldsId | main.go:291-299 | A CUETools log that is not a confirmed EAC log yields the capture on the raw text, or "" without a match. |
| TocDetection.EacPreferred | main.go:283-289 | When EAC detection finds an id, it is returned. |
| TocDetection.CueToolsFallback | main.go:291-299 | Without an EAC id, the CUETools result, possibly "", is returned. |
| TocDetection.NoMarkerNoId | main.go:303-333 | A log naming neither ripper yields "", whatever the matcher finds. |
| TocDetection.EacIgnoresNul | main.go:305-306 | Inserting a NUL anywhere does not change the EAC result. |
| TocDetection.EacStripIdempotent | main.go:305-306 | Stripping NULs beforehand does not change the EAC result. |
| Crawl.Extension | main.go:373 | The extension holds no ".". |
| Crawl.ExtensionOfSuffix | main.go:373 | "name.flac" has extension "flac", and likewise for any dot-free suffix. |
| Crawl.ExtensionNoDot | main.go:373 | A name without "." has the empty extension. |
| Crawl.Classify | main.go:379-455 | A kept file's type has the extension as its text. |
| Crawl.ClassifyRules | main.go:379-455 | "flac" is always kept. "accurip" and "log" are kept exactly with a non-empty TOC ID, "jpg" and "jpeg" exactly with art import on, and any other extension never. |
| Crawl.EmptyFolder | main.go:355-363 | The record for `dir` starts with no files, and its counters agree with that empty list. |
| Crawl.Keep | main.go:381-389 | Appending a kept file keeps the total bytes, file count and flac count equal to those of the list. |
| Crawl.Mark | main.go:396-398 | Marking a folder with a found id keeps every earlier kept file admitted. |
| Crawl.Visit | main.go:366-370 | A walk error fails the callback with that error. Directories pass unchanged. A regular file fails it exactly when it is an unreadable log, and otherwise updates the folder as in `VisitFile`. |
| Crawl.VisitFile | main.go:371-456 | A regular file fails the callback exactly when it is an unreadable log. Otherwise the counters stay consistent, the file is appended when kept, and the TOC ID becomes the log's id when it has one. |
| Crawl.Walk | main.go:366-463 | The walk fails exactly when some entry fails. Otherwise the kept files are appended in walk order and counters stay consistent. The TOC ID is the one the last log with an id yielded, and it is present exactly when one was found. |
| Crawl.LastIdIsLastLog | main.go:396-397 | The TOC ID after the walk is that of the last entry yielding one. |
| Crawl.LastIdNoLog | main.go:396-397 | Entries that yield no id leave the TOC ID as it was. |
| Crawl.CrawlFolder | main.go:336-466 | An empty name or failed stat gives its error. Otherwise the walk fails exactly when some entry fails. On success: the files are the kept entries in walk order; total bytes, file count and flac count agree with them; flacCnt <= fileCnt; `hasAccurip` holds exactly when some log yielded an id; the TOC ID is the last log's id. |
| Crawl.WalkSkipsUnknown | main.go:453-455 | A file with an unknown extension, anywhere in the walk, changes nothing. |
| Crawl.SelectionKeepsFlac | main.go:380-389 | Every visited `*.flac` file ends up in the folder. |
| Summary.InitialOutput | main.go:145-160 | The output starts with no albums, no skipped folders and an empty file list. |
| Summary.AddItems | main.go:206-210 | It panics exactly when `filepath.Rel` fails on the torrent root and some file's item path. Otherwise the file list is written with each item path and size, in file order. The torrent's path map is written likewise with each path made relative to the root. The torrent total grows by the folder's file sizes. |
| Summary.StampKeys | main.go:208 | After writing items into a map, its keys are the earlier keys and the paths written. |
| Summary.StampLast | main.go:208 | A path keeps the size of the last write to it. |
| Summary.SummariseFolder | main.go:176-217 | A folder panics the loop exactly when it is included and `filepath.Rel` fails on one of its item paths. |
| Summary.SummariseStep | main.go:191-216 | One more folder keeps every counter, list and total in agreement with the folders seen. |
| Summary.SummariseFolders | main.go:176-217 | It panics exactly when `filepath.Rel` fails on the torrent root and some album's item path. Otherwise these all agree with the folders: the scanned count, album list, skipped list, album and TOC-ID counts, and the byte and file totals. The file list is every album item written in order, and so is the torrent's path map, made relative to the root. The torrent's running total agrees too. `averageAlbumSizeBytes` equals the byte total. |
| Summary.FileListKeys | main.go:206-209 | After the loop, the file list's keys are exactly the album item paths. The torrent's keys are its earlier keys and those paths made relative. |
| Summary.FileListLastWrite | main.go:206-208 | After the loop, an item path holds the size of the last file written to it. |
| Summary.PanicWitness | main.go:194-209 | An album with an item path `filepath.Rel` cannot relate to the root makes the whole loop panic. |
| Summary.FolderPartition | main.go:191-215 | Each folder counts once: as an album, as skipped, or as the scan root left out. So AccuripFolderCnt <= FolderCnt <= FoldersScanned. |
| Summary.IgnoreKeepsAll | main.go:194 | With rip logs ignored, every folder is an album and none is skipped. |
| Summary.AlbumsHaveTocID | main.go:178-194 | Without the `-r` flag (ignore rip logs), a folder is an album exactly when it has a TOC ID. |
| Beets.New | beets/beets.go:200-214 | An empty path is refused before opening. The reader is bound to the given path. |
| Beets.SummariseRows | beets/beets.go:99-111 | It fails exactly when a row fails to scan. Otherwise there is one summary per row, in row order, with title = `album` and artist = `albumartist`. |
| Beets.GetAllAlbums | beets/beets.go:89-118 | It fails exactly on a query, scan or iteration error. Otherwise rows map to summaries in order, with title = `album` and artist = `albumartist`. |
| Beets.GetAlbum | beets/beets.go:121-161 | A lookup error or an album with no items is an error. Otherwise: the id is the requested one; every item's id and path are listed in order and counted; the directory, title, artist and MusicBrainz ids come from the first item only. |

## Left out

- `writeFiles` (torrent/torrent.go:219-297) is a worker pool writing into a shared pipe. The byte stream it produces is an input of the model (`Stream`).
- SHA-1 is an uninterpreted function from bytes to 20-byte digests.
- The TOC-ID regular expression (main.go:31) is an uninterpreted matcher returning the first capture group or nothing.
- These anacrolix calls are parameters: `ChoosePieceLength`, `Info.GeneratePieces`, `bencode.Marshal`, `MetaInfo.Magnet`, `SetDefaults` and `Write`.
- `MagnetURL` (torrent/torrent.go:187-190) is the opaque `MetaInfo.Magnet`, so it is not modelled.
- These file-system calls become given outcomes: `os.Stat`, `os.ReadFile`, `os.Open`/`OpenFile` and `filepath.WalkDir`.
- The walk in `main` that collects folders is not modelled, including its depth limit of 32 (main.go:111-135). The summary loop takes the crawled folders as input.
- `CrawlBeetsDB` (main.go:469-505) is not modelled. It opens the database, and it fails when there are no albums (main.go:482-484). It panics when `GetAlbum` fails (main.go:487-490). It crawls each album's directory and skips only the folders whose `CrawlFolder` fails (main.go:492-498). The pieces it calls are modelled as `Beets.GetAllAlbums`, `Beets.GetAlbum` and `Crawl.CrawlFolder`.
- The `d.Info()` panic in `CrawlFolder` (main.go:374-377) is not modelled. Each entry carries its size.
- The SQL in beets/beets.go is not modelled: `sql.Open`, queries, row scanning, `getAlbumTracks` and `PrintTableInfo`. Their results are inputs.
- Flag parsing, printing, JSON output and `os.Exit` are not modelled.
- The `TotalFileSize` and `AverageAlbumSize` strings of `Output` are not modelled. They are float formatting of `byteCountSI`.
- `PathUtf8` (torrent/torrent.go:54) is not modelled. It duplicates `Path`.
- main.go:239 calls `Create` with two arguments, but torrent.go:16 and torrent.go:38 declare three. The model follows torrent.go.
- ByteCount.ByteCountSI: the model gives the divisor, exponent and prefix, not the printed "%.1f" value.
- Pieces.GeneratePieces: requires a non-zero piece length. `Create` guarantees this (torrent/torrent.go:139-141), and with zero the Go loop never ends.
- TorrentBuilder.BuildFiles: when the root itself is among the entries, the contract states when the loop fails and that earlier files are kept, but not which files come before the root's entry. `BuildStopsAtRoot` covers the stop.
- Paths are Unix paths with "/" as the separator. Windows volume names are not modelled.
- Integer widths: every counter and total is an unbounded integer, so int64 wrap-around is not modelled. `byteCountSI` alone takes an int64-bounded argument, because its index bound depends on it.
