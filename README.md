# adm-core download engine in Dafny

This project models the core of adm-core, an Android download manager, and
proves properties of the model. The modelled core covers:

- **The single-stream HLS playlist parser.** It turns a playlist into an
  ordered list of segment links. A segment may carry a `Range` request
  header (RFC 8216: `#EXTM3U` in section 4.3.1.1, `#EXTINF` in section
  4.3.2.1, `#EXT-X-BYTERANGE` in section 4.3.2.2).
- **The single-file downloader.** It copies an HTTP body read by read into a
  file. It can pause, and it resumes with an open-ended `Range` request
  (RFC 7233, sections 2.1, 3.1 and 4.1).
- **The two playlist coordinators.** The library's "parallel" one fetches
  each segment into a temporary directory, then merges. The app's sequential
  one fetches each segment with its own single-file downloader into a
  directory named after the target file.
- **The view model's merge.** It sorts the segment files by the number in
  their names, then concatenates them.
- **The progress tracker.** It holds an insertion-ordered map from job id to
  a snapshot, publishes the list of snapshots, and flushes them into the job
  store.
- **The background worker.** It polls a running download, reports each poll
  to the tracker, and ends on success, loss of connectivity or failure.
- **The path helper.** It places a folder inside the public Downloads
  directory.

Files, the network, the job store and the device's connectivity are values
given to the model:

- A file system is a map from path to bytes.
- A response is a status code, an announced length, the blocks `read`
  returns and the read (if any) that throws.
- A concurrent pause is the read at which the copy loop first sees the flag.
- The worker's polls are a finite trace of observations.
- Random UUIDs are parameters.

Where the source updates objects in place, the model uses classes:

- `CustomDownloaderImpl`, `M3u8DownloaderParallel`, `M3u8Downloader`,
  `ProgressManager`, `DownloadingWorker`, and the parser with its three
  instance flags.
- Each method is proved equal to a pure function of the old state. The
  properties are then lemmas about those functions.

## Model

Source paths are relative to the repository root.

| member | source | states |
|---|---|---|
| Text.IndexOf | m3u8-parser/src/main/java/com/down/m3u8_parser/parsers/single_stream/M3u8SingleStreamTestParserImpl.kt:57 | the index of the first occurrence, or -1 exactly when the character does not occur |
| Text.LastIndexOf | app/src/main/java/com/down/adm_core/m3u8/M3u8Downloader.kt:36 | the index of the last occurrence, or -1 exactly when the character does not occur |
| Text.Split | m3u8-parser/src/main/java/com/down/m3u8_parser/parsers/single_stream/M3u8SingleStreamTestParserImpl.kt:57 | `split` always yields at least one part |
| Text.SplitOne | m3u8-parser/src/main/java/com/down/m3u8_parser/parsers/single_stream/M3u8SingleStreamTestParserImpl.kt:57-58 | `split` yields the text alone exactly when the separator does not occur |
| Text.SplitInTwo | m3u8-parser/src/main/java/com/down/m3u8_parser/parsers/single_stream/M3u8SingleStreamTestParserImpl.kt:57-58 | `split` yields two parts exactly when the separator occurs once; the parts are the text before and after it |
| Text.SubstringAfterLastHasNo | app/src/main/java/com/down/adm_core/m3u8/M3u8Downloader.kt:50 | the text after the last separator holds no separator |
| Text.IndexOfAfter | m3u8-parser/src/main/java/com/down/m3u8_parser/parsers/single_stream/M3u8SingleStreamTestParserImpl.kt:57 | `substringAfter(':')` of `a:b` is `b` when `a` has no `:` |
| Text.SubstringBeforeLastOf | app/src/main/java/com/down/adm_core/MainScreenViewModel.kt:149 | before and after the last separator of `a/b` are `a` and `b` when `b` has none |
| Text.FirstBreak | m3u8-parser/src/main/java/com/down/m3u8_parser/parsers/single_stream/M3u8SingleStreamTestParserImpl.kt:49 | the first line terminator, or -1 when there is none |
| Text.Lines | m3u8-parser/src/main/java/com/down/m3u8_parser/parsers/single_stream/M3u8SingleStreamTestParserImpl.kt:49 | `lines()` yields at least one line |
| Text.LinesHaveNoBreaks | m3u8-parser/src/main/java/com/down/m3u8_parser/parsers/single_stream/M3u8SingleStreamTestParserImpl.kt:49 | no line holds a line terminator |
| Text.LinesJoin | m3u8-parser/src/main/java/com/down/m3u8_parser/parsers/single_stream/M3u8SingleStreamTestParserImpl.kt:49 | for a text without `\r`, joining its lines with `\n` gives the text back |
| Text.NatToStringDigits | app/src/main/java/com/down/adm_core/m3u8/M3u8Downloader.kt:50 | an index's decimal text is a non-empty run of digits without a leading zero |
| Text.ParseInteger | app/src/main/java/com/down/adm_core/MainScreenViewModel.kt:149 | `toIntOrNull`/`toLongOrNull` return only values within the type's range |
| Text.DigitsValueOfNatToString | app/src/main/java/com/down/adm_core/MainScreenViewModel.kt:149 | reading back the decimal text of a number gives the number |
| Text.ToIntOrNullOfNatToString | app/src/main/java/com/down/adm_core/MainScreenViewModel.kt:149 | `n.toString().toIntOrNull()` is `n` for every non-negative `Int` |
| Text.ToLongOrNullOfLongToString | adm-core/src/main/java/com/adm/core/ProgressManager.kt:98-100 | `toLong()` reads back every `Long`'s decimal text, negative ones included |
| Text.NatToStringInjective | app/src/main/java/com/down/adm_core/m3u8/M3u8Downloader.kt:50 | distinct numbers have distinct decimal texts |
| Text.LongToStringInjective | adm-core/src/main/java/com/adm/core/ProgressManager.kt:171 | distinct `Long`s have distinct decimal texts |
| Text.NatToStringHasNo | app/src/main/java/com/down/adm_core/m3u8/M3u8Downloader.kt:50 | a decimal text holds no non-digit, in particular no `/` or `.` |
| Components.NameOfFromName | adm-core/src/main/java/com/adm/core/ProgressManager.kt:176 | a stored status text read back either names the state it gives or gives `Idle` |
| Components.FromNameOfName | adm-core/src/main/java/com/adm/core/ProgressManager.kt:161-176 | a state's stored name reads back as that state |
| Files.WriteAt | adm-core/src/main/java/com/adm/core/services/downloader/CustomDownloaderImpl.kt:96-112 | `seek` then `write` keeps the bytes before the offset, puts the data at it, grows the file only past its end, and appends at the end |
| Files.ConcatAppend | adm-core/src/main/java/com/adm/core/services/downloader/CustomDownloaderImpl.kt:102-117 | the blocks of two runs laid end to end are the two concatenations laid end to end |
| Files.ConcatPrefix | adm-core/src/main/java/com/adm/core/services/downloader/CustomDownloaderImpl.kt:102-117 | the blocks written so far form a prefix of the whole body |
| DownloaderPaths.DirInsideDownloads | adm-core/src/main/java/com/adm/core/utils/DownloaderPathsHelper.kt:8-16 | the path starts with the root, ends with the folder name and has exactly one `/` between them |
| DownloaderPaths.LeadingSlashIrrelevant | adm-core/src/main/java/com/adm/core/utils/DownloaderPathsHelper.kt:9-12 | a folder name with or without its leading `/` gives the same directory |
| Segments.ResolveKeepsLink | app/src/main/java/com/down/adm_core/m3u8/M3u8Downloader.kt:41-46 | an absolute link is fetched as is, and every resolved URL ends with the link |
| Segments.ResolveRelative | adm-core/src/main/java/com/adm/core/m3u8/M3u8DownloaderParallel.kt:79-84 | a relative link replaces the playlist URL's last path component |
| Segments.SegmentStem | app/src/main/java/com/down/adm_core/m3u8/M3u8Downloader.kt:50 | the stem of segment `i`'s file name is `i` in decimal |
| Segments.SegmentNamesDistinct | adm-core/src/main/java/com/adm/core/m3u8/M3u8DownloaderParallel.kt:92 | distinct segments get distinct file names, so none overwrites another |
| SingleStreamParser.Step | m3u8-parser/src/main/java/com/down/m3u8_parser/parsers/single_stream/M3u8SingleStreamTestParserImpl.kt:50-84 | one line sets flags only to true (except a consumed link clears the pick); only the last stream can change; at most one stream is added; the step throws only in byte-range mode with no stream yet |
| SingleStreamParser.ScanLines | m3u8-parser/src/main/java/com/down/m3u8_parser/parsers/single_stream/M3u8SingleStreamTestParserImpl.kt:50-84 | across a scan the header and byte-range flags stay set, the stream count never shrinks, and a failed scan stays failed |
| SingleStreamParser.ScanLinesSnoc | m3u8-parser/src/main/java/com/down/m3u8_parser/parsers/single_stream/M3u8SingleStreamTestParserImpl.kt:50 | one more line is one more step |
| SingleStreamParser.ScanAppend | m3u8-parser/src/main/java/com/down/m3u8_parser/parsers/single_stream/M3u8SingleStreamTestParserImpl.kt:50-84 | scanning two blocks of lines is scanning the first and then the second |
| SingleStreamParser.NothingBeforeHeader | m3u8-parser/src/main/java/com/down/m3u8_parser/parsers/single_stream/M3u8SingleStreamTestParserImpl.kt:51-54 | before `#EXTM3U` is seen, no line changes anything |
| SingleStreamParser.UnpickedLineIgnored | m3u8-parser/src/main/java/com/down/m3u8_parser/parsers/single_stream/M3u8SingleStreamTestParserImpl.kt:69-83 | a line after a consumed link, with no `#EXTINF:` in between, is ignored |
| SingleStreamParser.UrlPair | m3u8-parser/src/main/java/com/down/m3u8_parser/parsers/single_stream/M3u8SingleStreamTestParserImpl.kt:53-82 | in URL-listing mode, `#EXTINF:` plus a link line appends exactly one stream with that link and no headers |
| SingleStreamParser.ByteRangeLinkReplacesLast | m3u8-parser/src/main/java/com/down/m3u8_parser/parsers/single_stream/M3u8SingleStreamTestParserImpl.kt:70-73 | in byte-range mode the link line replaces only the last stream's link, and the count is unchanged |
| SingleStreamParser.LinkStreams | m3u8-parser/src/main/java/com/down/m3u8_parser/parsers/single_stream/M3u8SingleStreamTestParserImpl.kt:75-80 | one link stream per playlist entry, in order |
| SingleStreamParser.UrlBody | m3u8-parser/src/main/java/com/down/m3u8_parser/parsers/single_stream/M3u8SingleStreamTestParserImpl.kt:53-82 | after the header, N `#EXTINF:`/link pairs yield exactly those N link streams |
| SingleStreamParser.UrlPlaylist | m3u8-parser/src/main/java/com/down/m3u8_parser/parsers/single_stream/M3u8SingleStreamTestParserImpl.kt:47-86 | a fresh parser turns a URL-listing playlist into one stream per entry, in order, each with its link and no headers |
| SingleStreamParser.RangeStreams | m3u8-parser/src/main/java/com/down/m3u8_parser/parsers/single_stream/M3u8SingleStreamTestParserImpl.kt:55-73 | one stream per range, carrying the shared link and that range's `Range` header |
| SingleStreamParser.ByteRangeLineParts | m3u8-parser/src/main/java/com/down/m3u8_parser/parsers/single_stream/M3u8SingleStreamTestParserImpl.kt:57 | `#EXT-X-BYTERANGE:A@B` splits into exactly A and B |
| SingleStreamParser.InfoStep | m3u8-parser/src/main/java/com/down/m3u8_parser/parsers/single_stream/M3u8SingleStreamTestParserImpl.kt:53-54 | after the header, `#EXTINF:` arms the pick and changes nothing else |
| SingleStreamParser.ByteRangeStep | m3u8-parser/src/main/java/com/down/m3u8_parser/parsers/single_stream/M3u8SingleStreamTestParserImpl.kt:55-68 | with the pick armed, a two-part byte-range line enters byte-range mode and appends a stream with header `Range: bytes=A-B` |
| SingleStreamParser.RangeLinkStep | m3u8-parser/src/main/java/com/down/m3u8_parser/parsers/single_stream/M3u8SingleStreamTestParserImpl.kt:69-83 | in byte-range mode the link fills in the last stream's link and clears the pick |
| SingleStreamParser.RangeTriple | m3u8-parser/src/main/java/com/down/m3u8_parser/parsers/single_stream/M3u8SingleStreamTestParserImpl.kt:53-82 | info, byte-range and link lines add one stream with the link and the `Range` header |
| SingleStreamParser.RangeBody | m3u8-parser/src/main/java/com/down/m3u8_parser/parsers/single_stream/M3u8SingleStreamTestParserImpl.kt:53-82 | after the header, N byte-range triples yield exactly the N range streams |
| SingleStreamParser.ByteRangePlaylist | m3u8-parser/src/main/java/com/down/m3u8_parser/parsers/single_stream/M3u8SingleStreamTestParserImpl.kt:47-86 | a fresh parser turns a byte-range playlist into one stream per range, in order, with the shared link and `Range: bytes=A-B` copied verbatim |
| SingleStreamParser.StaleByteRangeFlagThrows | m3u8-parser/src/main/java/com/down/m3u8_parser/parsers/single_stream/M3u8SingleStreamTestParserImpl.kt:18-73 | a parser left in byte-range mode throws on the first link of a URL-listing playlist |
| SingleStreamParser.ScanKeepsRangeModeHasStream | m3u8-parser/src/main/java/com/down/m3u8_parser/parsers/single_stream/M3u8SingleStreamTestParserImpl.kt:58-73 | from cleared flags, byte-range mode is only ever entered together with a first stream |
| SingleStreamParser.FreshScanNeverFails | m3u8-parser/src/main/java/com/down/m3u8_parser/parsers/single_stream/M3u8SingleStreamTestParserImpl.kt:70-73 | a scan from cleared flags never calls `last()` on an empty list |
| SingleStreamParser.FailureIsFinal | m3u8-parser/src/main/java/com/down/m3u8_parser/parsers/single_stream/M3u8SingleStreamTestParserImpl.kt:70-73 | once `last()` has thrown, the remaining lines change nothing |
| SingleStreamParser.M3u8SingleStreamTestParser.constructor | m3u8-parser/src/main/java/com/down/m3u8_parser/parsers/single_stream/M3u8SingleStreamTestParserImpl.kt:18-20 | the three flags start cleared |
| SingleStreamParser.M3u8SingleStreamTestParser.GetM3u8ChunksFromText | m3u8-parser/src/main/java/com/down/m3u8_parser/parsers/single_stream/M3u8SingleStreamTestParserImpl.kt:47-86 | the loop returns the streams of the fold from the instance's current flags, or the exception, and leaves the flags where the fold ends |
| SingleStreamParser.M3u8SingleStreamTestParser.GetM3u8ChunksFresh | m3u8-parser/src/main/java/com/down/m3u8_parser/parsers/single_stream/M3u8SingleStreamTestParserImpl.kt:47-86 | corrected call: clears the flags first, so the result depends on the text alone and never throws |
| SingleStreamParser.M3u8SingleStreamTestParser.GetM3u8Chunks | m3u8-parser/src/main/java/com/down/m3u8_parser/parsers/single_stream/M3u8SingleStreamTestParserImpl.kt:22-45 | a missing body, or one without `#EXTINF:`, gives no streams and keeps the flags; otherwise the text is scanned |
| CustomDownloader.RequestHeaders | adm-core/src/main/java/com/adm/core/services/downloader/CustomDownloaderImpl.kt:78-85 | `Range: bytes=N-` is sent only on a resume with chunking; the caller's headers are sent only with chunking, and they win over `Range` |
| CustomDownloader.StopIndex | adm-core/src/main/java/com/adm/core/services/downloader/CustomDownloaderImpl.kt:102-117 | the copy loop stops at the first throwing read, the end of the body or the first pause seen, whichever comes first, and at once if already paused |
| CustomDownloader.StopAt | adm-core/src/main/java/com/adm/core/services/downloader/CustomDownloaderImpl.kt:102-117 | the loop has reached its stop read exactly when that read throws, ends the body, or sees the pause |
| CustomDownloader.SuccessIffCompleteCopy | adm-core/src/main/java/com/adm/core/services/downloader/CustomDownloaderImpl.kt:102-125 | the status is `Success` exactly when nothing throws or pauses up to the end of the body; the file is then the old bytes plus the whole body |
| CustomDownloader.DownloadedIsFileLength | adm-core/src/main/java/com/adm/core/services/downloader/CustomDownloaderImpl.kt:108-112 | once a block is written, the downloaded count equals the file's length |
| CustomDownloader.PauseKeepsPrefix | adm-core/src/main/java/com/adm/core/services/downloader/CustomDownloaderImpl.kt:103-107 | a pause seen at read `p` ends `Paused` with the old bytes plus the first `p` blocks, a prefix of the full file |
| CustomDownloader.FailureKeepsWrittenBlocks | adm-core/src/main/java/com/adm/core/services/downloader/CustomDownloaderImpl.kt:123-125 | an exception at read `j` ends `Failed` with blocks `0..j-1` kept on disk |
| CustomDownloader.AlreadyPausedWritesNothing | adm-core/src/main/java/com/adm/core/services/downloader/CustomDownloaderImpl.kt:103-107 | with the flag already set, nothing is written |
| CustomDownloader.ThrowWritesNothing | adm-core/src/main/java/com/adm/core/services/downloader/CustomDownloaderImpl.kt:75-95 | an exception before the copy loop writes nothing and keeps the byte counts; `Success` needs an accepted code and the whole body copied |
| CustomDownloader.PausedPrefix | adm-core/src/main/java/com/adm/core/services/downloader/CustomDownloaderImpl.kt:102-107 | a fresh download paused at read `p` leaves a prefix of the resource on disk |
| CustomDownloader.PauseThenResume | adm-core/src/main/java/com/adm/core/services/downloader/CustomDownloaderImpl.kt:76-96 | with chunking, a download paused at read `p` and resumed: the resume asks for `Range: bytes=N-` with `N` the file's length, a server that honours it answers `206` with that tail, and the file is then exactly the resource |
| CustomDownloader.NonChunkedResumeDuplicates | adm-core/src/main/java/com/adm/core/services/downloader/CustomDownloaderImpl.kt:76-96 | without chunking, the resume sends no `Range`, gets the whole resource with `200` and appends it after the paused prefix: the file is prefix + resource, never the resource when the prefix is non-empty |
| CustomDownloader.ResumeBase | adm-core/src/main/java/com/adm/core/services/downloader/CustomDownloaderImpl.kt:96 | the intended write position of a resume: after the file with a `Range`, from an emptied file without |
| CustomDownloader.CorrectedPauseThenResume | adm-core/src/main/java/com/adm/core/services/downloader/CustomDownloaderImpl.kt:76-96 | with the intended write position, pause then resume yields exactly the resource with or without chunking |
| CustomDownloader.AppendBlock | adm-core/src/main/java/com/adm/core/services/downloader/CustomDownloaderImpl.kt:108-112 | writing block `i` at the file's end gives the concatenation of blocks `0..i` |
| CustomDownloader.CustomDownloaderImpl.constructor | adm-core/src/main/java/com/adm/core/services/downloader/CustomDownloaderImpl.kt:22-29 | starts `Idle`, unpaused, with zero sizes and the given id |
| CustomDownloader.CustomDownloaderImpl.CopyBody | adm-core/src/main/java/com/adm/core/services/downloader/CustomDownloaderImpl.kt:98-125 | the copy loop leaves the file and the fields as the copy specification says |
| CustomDownloader.CustomDownloaderImpl.DownloadFile | adm-core/src/main/java/com/adm/core/services/downloader/CustomDownloaderImpl.kt:68-135 | creates the file unless that throws, sends those request headers, copies on 200/206 from the file's end, changes nothing on any other code, and reports an exception from creating, connecting or opening the streams, with `Progress` already set in the last case |
| CustomDownloader.CustomDownloaderImpl.Transfer | adm-core/src/main/java/com/adm/core/services/downloader/CustomDownloaderImpl.kt:87-125 | after the file exists: connecting and, for 200/206, opening the streams and copying, with the file and fields the specification gives |
| CustomDownloader.CustomDownloaderImpl.DownloadMedia | adm-core/src/main/java/com/adm/core/services/downloader/CustomDownloaderImpl.kt:31-55 | records the request, resets to `Idle`, downloads without `Range`, and returns the new id, or, when the download throws, keeps the old id and returns none |
| CustomDownloader.CustomDownloaderImpl.ResumeDownloading | adm-core/src/main/java/com/adm/core/services/downloader/CustomDownloaderImpl.kt:57-66 | only a paused download resumes, by clearing the flag, setting `Progress` and asking for the tail, with the file, fields and exception of that download; otherwise nothing happens |
| CustomDownloader.CustomDownloaderImpl.PauseDownloading | adm-core/src/main/java/com/adm/core/services/downloader/CustomDownloaderImpl.kt:141-143 | sets the pause flag |
| CustomDownloader.CustomDownloaderImpl.GetCurrentStatus | adm-core/src/main/java/com/adm/core/services/downloader/CustomDownloaderImpl.kt:149-154 | `Success` is forced once the downloaded size reaches a positive total; otherwise the recorded status |
| CustomDownloader.CustomDownloaderImpl.CancelDownloading | adm-core/src/main/java/com/adm/core/services/downloader/CustomDownloaderImpl.kt:156-160 | changes no state and no size |
| M3u8Parallel.AllRequests | adm-core/src/main/java/com/adm/core/m3u8/M3u8DownloaderParallel.kt:68-98 | one request per segment, in order: the resolved URL, `<i>.<ext>` in the temporary directory, the caller's headers, no chunking |
| M3u8Parallel.CompletedPrefix | adm-core/src/main/java/com/adm/core/m3u8/M3u8DownloaderParallel.kt:99-102 | the run of downloaded segments before the first that was not |
| M3u8Parallel.CompletedPrefixAt | adm-core/src/main/java/com/adm/core/m3u8/M3u8DownloaderParallel.kt:99-102 | that run ends exactly at the first segment not downloaded |
| M3u8Parallel.IssuedCount | adm-core/src/main/java/com/adm/core/m3u8/M3u8DownloaderParallel.kt:68-106 | no more requests than segments |
| M3u8Parallel.AllOrNothing | adm-core/src/main/java/com/adm/core/m3u8/M3u8DownloaderParallel.kt:59-126 | success exactly when the playlist is non-empty, every segment downloaded and the merge succeeded; it then names the target file |
| M3u8Parallel.StatusOf | adm-core/src/main/java/com/adm/core/m3u8/M3u8DownloaderParallel.kt:133-144 | the pause flag wins over failure, failure over completion; `Progress` otherwise (both directions) |
| M3u8Parallel.M3u8DownloaderParallel.constructor | adm-core/src/main/java/com/adm/core/m3u8/M3u8DownloaderParallel.kt:35-41 | zero counters, all flags clear |
| M3u8Parallel.M3u8DownloaderParallel.FetchSegments | adm-core/src/main/java/com/adm/core/m3u8/M3u8DownloaderParallel.kt:68-106 | issues the segment requests in order until the first not downloaded, counting the downloaded ones, and marks failure |
| M3u8Parallel.M3u8DownloaderParallel.DownloadMedia | adm-core/src/main/java/com/adm/core/m3u8/M3u8DownloaderParallel.kt:46-127 | the result is the all-or-nothing result; failed iff error, completed iff success; counters and requests as issued |
| M3u8Parallel.M3u8DownloaderParallel.PauseDownloading | adm-core/src/main/java/com/adm/core/m3u8/M3u8DownloaderParallel.kt:158-161 | the status is `Paused` whatever the other flags |
| M3u8Parallel.M3u8DownloaderParallel.CancelDownloading | adm-core/src/main/java/com/adm/core/m3u8/M3u8DownloaderParallel.kt:146-149 | marks failure; a pause still shows first |
| M3u8Parallel.M3u8DownloaderParallel.ResumeDownloading | adm-core/src/main/java/com/adm/core/m3u8/M3u8DownloaderParallel.kt:151-156 | clears the pause flag; the status falls back to the other flags |
| M3u8Sequential.SegmentDirectoryInside | app/src/main/java/com/down/adm_core/m3u8/M3u8Downloader.kt:36 | the segment directory lies inside the target directory |
| M3u8Sequential.SegmentDirectoryOfStem | app/src/main/java/com/down/adm_core/m3u8/M3u8Downloader.kt:36 | for `stem.ext` the segments go to `directoryPath/stem` |
| M3u8Sequential.SegmentHeadersOverride | app/src/main/java/com/down/adm_core/m3u8/M3u8Downloader.kt:53 | every header of either side is sent, and the segment's own wins |
| M3u8Sequential.SegmentPathsDistinct | app/src/main/java/com/down/adm_core/m3u8/M3u8Downloader.kt:50-51 | distinct segments are written to distinct files |
| M3u8Sequential.SegmentPaths | app/src/main/java/com/down/adm_core/m3u8/M3u8Downloader.kt:50-51 | the file of each segment, in index order |
| M3u8Sequential.SegmentPathsAreDistinct | app/src/main/java/com/down/adm_core/m3u8/M3u8Downloader.kt:50-51 | the segment files are pairwise distinct |
| M3u8Sequential.WriteSegmentsStep | app/src/main/java/com/down/adm_core/m3u8/M3u8Downloader.kt:39-59 | one more segment is one more write |
| M3u8Sequential.WriteSegmentsKeepsOthers | app/src/main/java/com/down/adm_core/m3u8/M3u8Downloader.kt:39-59 | fetching the segments leaves every other file as it was |
| M3u8Sequential.WriteSegmentsContents | app/src/main/java/com/down/adm_core/m3u8/M3u8Downloader.kt:39-59 | each segment's file ends as its own response alone would leave it (created unless creating it threw); no segment overwrites another |
| M3u8Sequential.AllRequests | app/src/main/java/com/down/adm_core/m3u8/M3u8Downloader.kt:39-56 | one request per segment, in order: the resolved URL, `<i>.<ext>`, the segment directory, the merged headers, with chunking |
| M3u8Sequential.FetchSegment | app/src/main/java/com/down/adm_core/m3u8/M3u8Downloader.kt:40-56 | a fresh downloader gets segment `i`'s request; only that segment's file changes; no id when its download throws |
| M3u8Sequential.FirstThrow | app/src/main/java/com/down/adm_core/m3u8/M3u8Downloader.kt:39-59 | the first segment whose downloader throws: none before it does, and it does |
| M3u8Sequential.Attempted | app/src/main/java/com/down/adm_core/m3u8/M3u8Downloader.kt:39-59 | the segments whose downloader was started: all of them, or those up to and including the first that throws |
| M3u8Sequential.FetchedOneMore | app/src/main/java/com/down/adm_core/m3u8/M3u8Downloader.kt:39-59 | one more segment extends the requests and the files by that segment's |
| M3u8Sequential.KeptRequestsOneMore | app/src/main/java/com/down/adm_core/m3u8/M3u8Downloader.kt:58 | storing the next downloader under its id keeps the request of every earlier id's downloader unless the id repeats |
| M3u8Sequential.KeptOthersOneMore | app/src/main/java/com/down/adm_core/m3u8/M3u8Downloader.kt:58 | storing the next downloader under its id leaves every older entry under another key alone |
| M3u8Sequential.KeptOneMore | app/src/main/java/com/down/adm_core/m3u8/M3u8Downloader.kt:58 | storing one more downloader under its id keeps every earlier id's downloader unless the id repeats, and every older entry under another key |
| M3u8Sequential.KeptSamePrefix | app/src/main/java/com/down/adm_core/m3u8/M3u8Downloader.kt:58 | the kept downloaders only depend on the requests of the segments kept |
| M3u8Sequential.FetchNext | app/src/main/java/com/down/adm_core/m3u8/M3u8Downloader.kt:39-59 | from the state after `i` segments, reaches the state after `i+1`; the downloader is kept under its id unless it threw |
| M3u8Sequential.FetchInOrder | app/src/main/java/com/down/adm_core/m3u8/M3u8Downloader.kt:39-59 | the segments in order until the first whose downloader throws: their requests and files; under the last occurrence of each returned id the downloader given that segment's request; older entries under other keys kept |
| M3u8Sequential.M3u8Downloader.constructor | app/src/main/java/com/down/adm_core/m3u8/M3u8Downloader.kt:18-21 | empty id, zero counters, no downloaders |
| M3u8Sequential.M3u8Downloader.GetCurrentStatus | app/src/main/java/com/down/adm_core/m3u8/M3u8Downloader.kt:69-76 | `Success` exactly when the counter reached a positive segment count; `Progress` otherwise |
| M3u8Sequential.M3u8Downloader.FetchAll | app/src/main/java/com/down/adm_core/m3u8/M3u8Downloader.kt:39-59 | the counter grows by one per segment whose downloader returned, whatever its outcome, and stops at the first exception; requests, downloaders and files as above |
| M3u8Sequential.M3u8Downloader.DownloadMedia | app/src/main/java/com/down/adm_core/m3u8/M3u8Downloader.kt:23-63 | records the segment count and fetches the segments; returns a new id only when none threw; from a zero counter the status is then `Success` exactly when no segment threw and there was one, so an exception leaves it `Progress` |
| M3u8Sequential.M3u8Downloader.PauseDownloading | app/src/main/java/com/down/adm_core/m3u8/M3u8Downloader.kt:86-88 | no effect on status or sizes |
| M3u8Sequential.M3u8Downloader.ResumeDownloading | app/src/main/java/com/down/adm_core/m3u8/M3u8Downloader.kt:82-84 | no effect on status or sizes |
| M3u8Sequential.M3u8Downloader.CancelDownloading | app/src/main/java/com/down/adm_core/m3u8/M3u8Downloader.kt:78-80 | no effect on status or sizes |
| SegmentMerger.StemKey | app/src/main/java/com/down/adm_core/MainScreenViewModel.kt:148-150 | the key is an `Int`, and `Int.MAX_VALUE` for a stem that is not a number |
| SegmentMerger.SegmentKey | app/src/main/java/com/down/adm_core/MainScreenViewModel.kt:148-150 | the key of segment `i`'s file is `i` |
| SegmentMerger.Insert | app/src/main/java/com/down/adm_core/MainScreenViewModel.kt:148 | insertion adds exactly one element |
| SegmentMerger.InsertSorted | app/src/main/java/com/down/adm_core/MainScreenViewModel.kt:148 | insertion keeps a sorted sequence sorted |
| SegmentMerger.SortBySorted | app/src/main/java/com/down/adm_core/MainScreenViewModel.kt:148-150 | `sortedBy` yields a sequence sorted by key |
| SegmentMerger.SortByPermutation | app/src/main/java/com/down/adm_core/MainScreenViewModel.kt:148-150 | `sortedBy` is a permutation of its input |
| SegmentMerger.SortBySortedPermutation | app/src/main/java/com/down/adm_core/MainScreenViewModel.kt:148-150 | sorted and a permutation |
| SegmentMerger.WithKeyPrepend | app/src/main/java/com/down/adm_core/MainScreenViewModel.kt:148 | the elements of a key in `[x] + s` |
| SegmentMerger.WithKeyNone | app/src/main/java/com/down/adm_core/MainScreenViewModel.kt:148 | a sorted sequence starting above `v` has no element of key `v` |
| SegmentMerger.WithKeyInsertFront | app/src/main/java/com/down/adm_core/MainScreenViewModel.kt:148 | inserting in front keeps each key's elements in order |
| SegmentMerger.WithKeyInsertStep | app/src/main/java/com/down/adm_core/MainScreenViewModel.kt:148 | inserting past the head keeps each key's elements in order |
| SegmentMerger.WithKeyInsert | app/src/main/java/com/down/adm_core/MainScreenViewModel.kt:148 | insertion puts an element after all earlier elements of the same key |
| SegmentMerger.SortByStable | app/src/main/java/com/down/adm_core/MainScreenViewModel.kt:148-150 | the sort is stable: elements with the same key keep their input order |
| SegmentMerger.SortedPermutationUnique | app/src/main/java/com/down/adm_core/MainScreenViewModel.kt:148-150 | a sorted permutation of a sequence with strictly increasing keys equals that sequence |
| SegmentMerger.SegmentFiles | app/src/main/java/com/down/adm_core/MainScreenViewModel.kt:146-147 | the files of segments `0..n-1`, in index order |
| SegmentMerger.SortRestoresIndexOrder | app/src/main/java/com/down/adm_core/MainScreenViewModel.kt:146-150 | whatever order the directory lists them in, sorting restores index order |
| SegmentMerger.MergedAppend | app/src/main/java/com/down/adm_core/MainScreenViewModel.kt:169-184 | merging two lists is merging each and concatenating |
| SegmentMerger.Contents | app/src/main/java/com/down/adm_core/MainScreenViewModel.kt:177-183 | the contents of the files, in order |
| SegmentMerger.MergedAllPresent | app/src/main/java/com/down/adm_core/MainScreenViewModel.kt:169-184 | with every file present, the output is their contents end to end |
| SegmentMerger.Present | app/src/main/java/com/down/adm_core/MainScreenViewModel.kt:171-174 | only existing paths |
| SegmentMerger.MergedSkipsMissing | app/src/main/java/com/down/adm_core/MainScreenViewModel.kt:171-174 | a missing file is skipped: the output is that of the existing files alone |
| SegmentMerger.ReadPrefix | app/src/main/java/com/down/adm_core/MainScreenViewModel.kt:178-182 | the bytes of a file written before read `r`: one full buffer per earlier read, at most the file |
| SegmentMerger.MergedUpToPrefix | app/src/main/java/com/down/adm_core/MainScreenViewModel.kt:166-191 | a merge that throws still writes a prefix of the full merge, in order; without an exception, all of it |
| SegmentMerger.CopySegment | app/src/main/java/com/down/adm_core/MainScreenViewModel.kt:177-183 | copying one file through the 1 MiB buffer appends it whole, or, when a read that is made throws, the part read before it |
| SegmentMerger.MergeStep | app/src/main/java/com/down/adm_core/MainScreenViewModel.kt:169-183 | copying an existing file throws exactly when the merge fails there, leaving the merge's output; otherwise the loop moves on by that file |
| SegmentMerger.MergeSkip | app/src/main/java/com/down/adm_core/MainScreenViewModel.kt:171-174 | skipping a missing file moves the loop on without output |
| SegmentMerger.MergeTsFiles | app/src/main/java/com/down/adm_core/MainScreenViewModel.kt:164-192 | the output file holds the segments merged before an exception and the part of the failing segment read before it; every segment when none; nothing changes when the output cannot be opened |
| SegmentMerger.Merge | app/src/main/java/com/down/adm_core/MainScreenViewModel.kt:138-158 | the output file is the merge of the listing sorted by key, up to an exception as above |
| SegmentMerger.MergeInIndexOrder | app/src/main/java/com/down/adm_core/MainScreenViewModel.kt:138-192 | a download's segments, listed in any order and all present, merge into their contents in index order |
| Progress.IdTextInjective | adm-core/src/main/java/com/adm/core/ProgressManager.kt:117-118 | different job ids have different map keys |
| Progress.IdTextInjectiveAll | adm-core/src/main/java/com/adm/core/ProgressManager.kt:117-118 | the same, for all ids |
| Progress.RowRoundTrip | adm-core/src/main/java/com/adm/core/ProgressManager.kt:161-181 | row to snapshot and back is the identity iff the status text names a state; otherwise the status becomes "Idle" |
| Progress.SnapshotRoundTrip | adm-core/src/main/java/com/adm/core/ProgressManager.kt:161-181 | writing a snapshot changes only the status and sizes, reads back as the snapshot, and is idempotent |
| Progress.Values | adm-core/src/main/java/com/adm/core/ProgressManager.kt:138-141 | the map's values in insertion order |
| Progress.ValuesIdsDistinct | adm-core/src/main/java/com/adm/core/ProgressManager.kt:139 | the published snapshots have pairwise distinct ids |
| Progress.Put | adm-core/src/main/java/com/adm/core/ProgressManager.kt:73-81 | a new key goes to the end of the order, an existing key keeps its place |
| Progress.UpdateProgressOp | adm-core/src/main/java/com/adm/core/ProgressManager.kt:65-83 | only a tracked job's sizes change and the values are published; an unknown id changes nothing |
| Progress.UpdateStatusOp | adm-core/src/main/java/com/adm/core/ProgressManager.kt:85-96 | only a tracked job's status changes and the values are published; an unknown id changes nothing |
| Progress.RemoveKey | adm-core/src/main/java/com/adm/core/ProgressManager.kt:99 | the order without the removed key |
| Progress.RemoveKeyDistinct | adm-core/src/main/java/com/adm/core/ProgressManager.kt:99 | removal keeps the keys pairwise distinct |
| Progress.DeleteOp | adm-core/src/main/java/com/adm/core/ProgressManager.kt:98-101 | the entry leaves the map; the row goes only when the id reads as a `Long`; the published list is not refreshed |
| Progress.AddLocalVideoOp | adm-core/src/main/java/com/adm/core/ProgressManager.kt:102-111 | a job absent from the store is stored, tracked and published; otherwise nothing changes |
| Progress.AddLocalVideoIdempotent | adm-core/src/main/java/com/adm/core/ProgressManager.kt:102-111 | adding twice is adding once |
| Progress.DbMapOfKey | adm-core/src/main/java/com/adm/core/ProgressManager.kt:117-118 | every row is found under its id's text |
| Progress.DbMapKey | adm-core/src/main/java/com/adm/core/ProgressManager.kt:117-118 | a row is found only under its id's text |
| Progress.FlushStep | adm-core/src/main/java/com/adm/core/ProgressManager.kt:121-133 | one more snapshot adds at most its one write |
| Progress.FlushWritesChangeRows | adm-core/src/main/java/com/adm/core/ProgressManager.kt:122-131 | every write replaces an existing row and differs from it only in status or sizes |
| Progress.UpsertsOneMore | adm-core/src/main/java/com/adm/core/ProgressManager.kt:130 | one more upsert |
| Progress.FlushRows | adm-core/src/main/java/com/adm/core/ProgressManager.kt:120-134 | the loop writes exactly the flush's rows, in order, and upserts them |
| Progress.Synced | adm-core/src/main/java/com/adm/core/ProgressManager.kt:114-136 | the flushed store has the same keys |
| Progress.LatestOfDistinct | adm-core/src/main/java/com/adm/core/ProgressManager.kt:121-122 | with distinct ids, each snapshot is the one found for its id |
| Progress.LatestAbsent | adm-core/src/main/java/com/adm/core/ProgressManager.kt:121-122 | an id no snapshot carries finds none |
| Progress.SyncedKeep | adm-core/src/main/java/com/adm/core/ProgressManager.kt:121-133 | a snapshot of another id keeps a row |
| Progress.SyncedUnchanged | adm-core/src/main/java/com/adm/core/ProgressManager.kt:122-123 | a snapshot finding no row changes nothing |
| Progress.SyncedUpdate | adm-core/src/main/java/com/adm/core/ProgressManager.kt:122-131 | a snapshot finding a row sets that row only |
| Progress.FlushLastFound | adm-core/src/main/java/com/adm/core/ProgressManager.kt:122-131 | the last snapshot's row is upserted unless unchanged |
| Progress.FlushSyncsFound | adm-core/src/main/java/com/adm/core/ProgressManager.kt:122-131 | a found row brings the store one step closer to synced |
| Progress.FlushSyncsMissing | adm-core/src/main/java/com/adm/core/ProgressManager.kt:122-123 | a missing row keeps the store synced |
| Progress.FlushSyncs | adm-core/src/main/java/com/adm/core/ProgressManager.kt:114-136 | the flush's writes bring the store to the synced store, whichever rows were skipped as equal |
| Progress.NoWritesWhenSynced | adm-core/src/main/java/com/adm/core/ProgressManager.kt:129 | nothing is written when every found row already agrees |
| Progress.SyncedRowsAgree | adm-core/src/main/java/com/adm/core/ProgressManager.kt:124-129 | after a flush, every snapshot's row agrees with it |
| Progress.SyncedIdempotent | adm-core/src/main/java/com/adm/core/ProgressManager.kt:114-136 | syncing twice is syncing once |
| Progress.FlushIdempotent | adm-core/src/main/java/com/adm/core/ProgressManager.kt:114-136 | a second flush writes nothing |
| Progress.LatestOfValues | adm-core/src/main/java/com/adm/core/ProgressManager.kt:116 | in the values, the snapshot found for an id is the map's entry |
| Progress.BatchOpEffect | adm-core/src/main/java/com/adm/core/ProgressManager.kt:114-136 | the flush changes exactly the rows of tracked jobs, adds and removes none |
| Progress.BatchOpIdempotent | adm-core/src/main/java/com/adm/core/ProgressManager.kt:114-136 | a second flush writes nothing and changes nothing |
| Progress.Snapshots | adm-core/src/main/java/com/adm/core/ProgressManager.kt:50-54 | one snapshot per row |
| Progress.SnapshotsAt | adm-core/src/main/java/com/adm/core/ProgressManager.kt:50-54 | snapshot `i` is row `i` converted |
| Progress.SeedKeys | adm-core/src/main/java/com/adm/core/ProgressManager.kt:49-55 | the seeded order lists each key once, and each snapshot is under its own id |
| Progress.SeedStore | adm-core/src/main/java/com/adm/core/ProgressManager.kt:49-55 | every stored row is a listed row under its own id |
| Progress.SeedStoreHolds | adm-core/src/main/java/com/adm/core/ProgressManager.kt:49-55 | with distinct ids, every listed row is stored |
| Progress.SeedStep | adm-core/src/main/java/com/adm/core/ProgressManager.kt:52 | one more row extends order, map and store |
| Progress.SeedValid | adm-core/src/main/java/com/adm/core/ProgressManager.kt:46-55 | start-up yields a valid tracker |
| Progress.IdTextFresh | adm-core/src/main/java/com/adm/core/ProgressManager.kt:52 | with distinct ids, each key is new when put |
| Progress.SeedOrderOfDistinct | adm-core/src/main/java/com/adm/core/ProgressManager.kt:49-55 | with distinct ids, the order lists every row's key in listing order |
| Progress.SeedEntriesOfDistinct | adm-core/src/main/java/com/adm/core/ProgressManager.kt:49-55 | with distinct ids, the map holds every row's snapshot |
| Progress.SeedContents | adm-core/src/main/java/com/adm/core/ProgressManager.kt:49-55 | the seeded order and map hold each row once, in listing order |
| Progress.SeedPublishesValues | adm-core/src/main/java/com/adm/core/ProgressManager.kt:49-55 | at start-up the published list is the map's values |
| Progress.ProgressManager.constructor | adm-core/src/main/java/com/adm/core/ProgressManager.kt:46-55 | the fields are the seeded tracker |
| Progress.ProgressManager.EmitProgressUpdates | adm-core/src/main/java/com/adm/core/ProgressManager.kt:138-141 | publishes the map's values |
| Progress.ProgressManager.UpdateProgress | adm-core/src/main/java/com/adm/core/ProgressManager.kt:65-83 | performs `UpdateProgressOp` on the fields |
| Progress.ProgressManager.UpdateStatus | adm-core/src/main/java/com/adm/core/ProgressManager.kt:85-96 | performs `UpdateStatusOp` on the fields |
| Progress.ProgressManager.DeleteVideo | adm-core/src/main/java/com/adm/core/ProgressManager.kt:98-101 | performs `DeleteOp`; throws exactly when the id is not a `Long` |
| Progress.ProgressManager.AddLocalVideo | adm-core/src/main/java/com/adm/core/ProgressManager.kt:102-111 | performs `AddLocalVideoOp` on the fields |
| Progress.ProgressManager.BatchUpdateDatabase | adm-core/src/main/java/com/adm/core/ProgressManager.kt:114-136 | writes exactly the flush's rows and leaves the fields as `BatchOp` says |
| Worker.ExitAt | adm-core/src/main/java/com/adm/core/DownloadingWorker.kt:116-139 | `Completed` iff success; `NetworkLost` iff offline and not success; `DownloadFailed` iff failed while online |
| Worker.ShouldRetry | adm-core/src/main/java/com/adm/core/DownloadingWorker.kt:116-139 | `false` exactly after completion, `true` after the other exits |
| Worker.CheckTrace | adm-core/src/main/java/com/adm/core/DownloadingWorker.kt:101-141 | the polling loop keeps the tracker valid |
| Worker.FirstStop | adm-core/src/main/java/com/adm/core/DownloadingWorker.kt:101-141 | the first observation that ends the loop |
| Worker.CheckTraceExit | adm-core/src/main/java/com/adm/core/DownloadingWorker.kt:101-141 | the loop stops at the first ending observation and takes its exit, or is still polling |
| Worker.CheckTraceFrame | adm-core/src/main/java/com/adm/core/DownloadingWorker.kt:110-139 | only the job's own snapshot can change; an unknown job leaves the tracker untouched |
| Worker.SnapshotAtStop | adm-core/src/main/java/com/adm/core/DownloadingWorker.kt:110-139 | an ending first observation sets its sizes and the exit's status |
| Worker.CheckTraceSnapshot | adm-core/src/main/java/com/adm/core/DownloadingWorker.kt:101-141 | the job's final snapshot has the last polled sizes and the exit's status |
| Worker.CheckProgressStatus | adm-core/src/main/java/com/adm/core/DownloadingWorker.kt:97-143 | after `checkProgress` the status is `Success`, `PausedNetwork`, `Failed` or `Progress` according to the exit |
| Worker.SuccessWins | adm-core/src/main/java/com/adm/core/DownloadingWorker.kt:116-125 | a success observation completes even without a connection |
| Worker.FailedOfflineIsNetworkLoss | adm-core/src/main/java/com/adm/core/DownloadingWorker.kt:125-139 | `Failed` observed offline counts as a lost connection |
| Worker.NotificationPercentBounds | adm-core/src/main/java/com/adm/core/DownloadingWorker.kt:147 | 0 without a positive total; between 0 and 100 within it; 100 at it |
| Worker.DownloadingWorker.constructor | adm-core/src/main/java/com/adm/core/DownloadingWorker.kt:224-233 | holds the tracker and the default job description |
| Worker.DownloadingWorker.CheckProgress | adm-core/src/main/java/com/adm/core/DownloadingWorker.kt:97-143 | the loop leaves the tracker and returns the exit that `CheckProgressOp` gives |
| Worker.DownloadingWorker.DoWork | adm-core/src/main/java/com/adm/core/DownloadingWorker.kt:52-67 | fails without input; succeeds with the tracker untouched for a blank id; throws with the tracker untouched for an id that is not a `Long`; otherwise polls and succeeds |

## Left out

- Concurrency.
  - The coroutines, the channel of 16 and `awaitAll` of the parallel coordinator are not modelled. Its segments are fetched one after the other, in playlist order. The loop stops at the first segment that was not downloaded, where the source lets the other segments run on.
  - The mutex in the tracker is not modelled, and neither is the downloader running beside the worker's polling loop. The downloader's behaviour is a trace of observations.
- I/O.
  - Files, the network and the job store are values. Creating directories (`mkdirs`) is not modelled.
  - The merger that the parallel coordinator calls is not part of this model; its outcome is an input.
  - Notifications, the foreground service, `NetConnectedWorker` scheduling, Gson decoding (the decoded job is an `Option`) and logging are left out.
  - The source code behind `getDownloadingStatus` is not part of this model. The model assumes it reads back the enum's `name` and gives `Idle` for any other text.
- Randomness. UUIDs are parameters.
- Text.ParseInteger: accepts the ASCII digits `0`-`9` only. Kotlin's `toIntOrNull` and `toLong` also accept every other Unicode decimal digit (for example `٣` reads as 3); text with such digits reads as no number here.
- SegmentMerger.StemKey: a file stem made of non-ASCII decimal digits sorts last here, where the source reads it as a number. File names written by this program are ASCII.
- Files.ChildPath: joins with one `/` and does not normalise a trailing or repeated `/` the way `java.io.File` does.
- CustomDownloader.RequestHeaders: header names are compared case-sensitively. `setRequestProperty` replaces a property case-insensitively, so a caller's `range` would override `Range` there.
- CustomDownloader.CustomDownloaderImpl.ResumeDownloading: the re-download runs within the call. The source launches it in a coroutine and returns at once, so the flag is cleared before the status becomes `Progress`; the model shows the state once that coroutine has run.
- CustomDownloader.CustomDownloaderImpl.DownloadFile: the set-up exceptions are taken at three points (creating the file; opening, connecting and reading the code; opening the streams). The exception types and messages are not modelled, and neither are the `finally` block's `close` calls.
- Floating point.
  - The `Float` progress of snapshots and of the view model is left out.
  - Worker.NotificationPercent: computed exactly over integers, truncated toward zero. The `Float` rounding of `downloaded / total.toFloat()` is not modelled.
- Worker.DownloadingWorker.CheckProgress: assumes the job id reads as a `Long`. The notification call after each progress report converts it with `toLong().toInt()`, which throws otherwise; that exception path is not modelled here. `DoWork` only calls it for such ids, having thrown already for the others.
- Worker.DownloadingWorker.DoWork: `startWorkerDownloading` is modelled only through its call to `checkProgress`. The downloader it builds and starts, and its handler that pauses the downloader on cancellation, are left out.
- The worker's infinite polling loop runs over a finite trace. A trace that ends without a stop is reported as `StillPolling`.
- The `Long`-to-`Int` narrowing of `getInt` is not modelled, because it only feeds notification ids.
- The repository's `deleteFromQue` query is a store deletion by id.
- Progress.FlushSyncs, Progress.BatchOpEffect and the seeding lemmas assume distinct rows or distinct ids. The job store is keyed by `downloadId`, so its rows are distinct.
- SegmentMerger.MergeTsFiles: requires that the output path is not one of the segment paths. Reading the file being written, which aliasing would cause, is not modelled. Reads are taken as full 1 MiB buffers except the last of a file, and an exception is placed at a read, not part-way through a write.
- `MainScreenViewModel.download`, `pause`, `resume`, `checkProgress` and `calculateProgress` are UI glue around the manager and are not modelled; only `merge` and `mergeTsFiles` are.
- The sequential app downloader's pause, resume and cancel do nothing in the source; the model says so and no more.

## Findings

| source | as written | input that shows it | evidently intended | confidence | as-written member | corrected member |
|---|---|---|---|---|---|---|
| m3u8-parser/src/main/java/com/down/m3u8_parser/parsers/single_stream/M3u8SingleStreamTestParserImpl.kt:47-86 | The three scan flags are instance fields that no call resets. After a byte-range playlist, the byte-range flag stays set. The next call then replaces the "last" stream of a list that is still empty, and `streams.last()` throws. | One parser instance first scans a byte-range playlist, then is given `#EXTM3U`, `#EXTINF:1,`, `seg.ts` | each call scans its text from cleared flags and returns one stream per entry | not executed | SingleStreamParser.StaleByteRangeFlagThrows | SingleStreamParser.M3u8SingleStreamTestParser.GetM3u8ChunksFresh |
| adm-core/src/main/java/com/adm/core/services/downloader/CustomDownloaderImpl.kt:76-96 | A resume seeks to the file's current length whether or not a `Range` was sent. Without chunking support no `Range` is sent, the server answers `200` with the whole resource, and it is written after the paused prefix. | A download without chunking support paused after its first block, then resumed against a server holding the same resource | the resumed body lands at the offset the request asked for, so the file ends as the resource | not executed | CustomDownloader.NonChunkedResumeDuplicates | CustomDownloader.CorrectedPauseThenResume |

The corrected call clears the flags first. `FreshScanNeverFails` proves that a
scan from cleared flags never throws. `UrlPlaylist` and `ByteRangePlaylist`
state what such a scan yields.

For the resume, `ResumeBase` writes the resumed body after the file only
when a `Range` was sent and over an emptied file otherwise.
`CorrectedPauseThenResume` proves that pause then resume then gives exactly
the resource, with and without chunking support. The single-file downloader
class itself keeps the code as written.
