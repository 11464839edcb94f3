/** The app's sequential playlist downloader: every segment is fetched with
    its own single-file downloader, one after the other, into a directory
    named after the target file. The playlist, the segments' responses and
    the random ids are inputs. */
module M3u8Sequential {
  import opened Wrappers
  import opened Text
  import opened Components
  import opened Files
  import opened DownloaderPaths
  import opened Segments
  import opened CustomDownloader

  /** The directory the segments go to: the target directory, a `/`, and
      the target file name up to its last dot (the whole name without one). */
  function SegmentDirectory(directoryPath: string, fileName: string): string {
    directoryPath + "/" + SubstringBeforeLast(fileName, '.')
  }

  /** The segment directory lies inside the target directory. */
  lemma SegmentDirectoryInside(directoryPath: string, fileName: string)
    ensures StartsWith(SegmentDirectory(directoryPath, fileName), directoryPath + "/")
  {
    var d := SegmentDirectory(directoryPath, fileName);
    assert d[..|directoryPath + "/"|] == directoryPath + "/";
  }

  /** For a file name `stem.ext` whose extension has no dot, the segments go
      to `directoryPath/stem`. */
  lemma SegmentDirectoryOfStem(directoryPath: string, stem: string, ext: string)
    requires '.' !in ext
    ensures SegmentDirectory(directoryPath, stem + "." + ext) == directoryPath + "/" + stem
  {
    SubstringBeforeLastOf(stem, '.', ext);
  }

  /** The headers a segment is fetched with: the caller's headers overridden
      by the segment's own. */
  function SegmentHeaders(headers: map<string, string>, stream: SingleStream): map<string, string> {
    headers + stream.headers
  }

  /** Every header of either side is sent; a segment's own header wins over
      the caller's of the same name. */
  lemma SegmentHeadersOverride(headers: map<string, string>, stream: SingleStream)
    ensures var h := SegmentHeaders(headers, stream);
      h.Keys == headers.Keys + stream.headers.Keys &&
      (forall k :: k in stream.headers ==> h[k] == stream.headers[k]) &&
      (forall k :: k in headers && k !in stream.headers ==> h[k] == headers[k])
  {
  }

  /** The file of segment `i` under the Downloads root. */
  function SegmentPath(root: string, directoryPath: string, fileName: string, i: nat): string {
    ChildPath(DirInsideDownloads(root, SegmentDirectory(directoryPath, fileName)), SegmentName(i, fileName))
  }

  /** Distinct segments are written to distinct files. */
  lemma SegmentPathsDistinct(root: string, directoryPath: string, fileName: string, i: nat, j: nat)
    requires i != j
    ensures SegmentPath(root, directoryPath, fileName, i) != SegmentPath(root, directoryPath, fileName, j)
  {
    var dir := DirInsideDownloads(root, SegmentDirectory(directoryPath, fileName));
    var a, b := SegmentName(i, fileName), SegmentName(j, fileName);
    SegmentNamesDistinct(i, j, fileName);
    assert ChildPath(dir, a)[|dir| + 1..] == a;
    assert ChildPath(dir, b)[|dir| + 1..] == b;
  }

  /** The request the downloader of segment `i` is given. */
  function SegmentRequest(url: string, fileName: string, directoryPath: string, mimeType: string,
                          headers: map<string, string>, showNotification: bool,
                          i: nat, stream: SingleStream): DownloadRequest {
    DownloadRequest(ResolveUrl(url, stream.link), SegmentName(i, fileName),
                    SegmentDirectory(directoryPath, fileName), mimeType,
                    SegmentHeaders(headers, stream), showNotification)
  }

  /** What segment `i`'s file holds after its fresh downloader ran: with an
      accepted response and no exception before the copy, what was there
      followed by the whole body up to a failing read; otherwise what was
      there. */
  function SegmentFile(fs: FileSystem, path: string, response: Response): Bytes {
    FileAfter(Existing(fs, path), response, false, None)
  }

  /** The files after segment `i`'s fresh downloader ran: the segment's file
      is created and written unless creating it threw. */
  function SegmentWrite(fs: FileSystem, path: string, response: Response): FileSystem {
    if Created(response) then fs[path := SegmentFile(fs, path, response)] else fs
  }

  /** The files of the first `n` segments, in order. */
  function SegmentPaths(root: string, directoryPath: string, fileName: string, n: nat): (ps: seq<string>)
    ensures |ps| == n
    ensures forall i :: 0 <= i < n ==> ps[i] == SegmentPath(root, directoryPath, fileName, i)
  {
    seq(n, i requires 0 <= i < n => SegmentPath(root, directoryPath, fileName, i))
  }

  predicate Distinct(ps: seq<string>) {
    forall i, j :: 0 <= i < j < |ps| ==> ps[i] != ps[j]
  }

  lemma SegmentPathsAreDistinct(root: string, directoryPath: string, fileName: string, n: nat)
    ensures Distinct(SegmentPaths(root, directoryPath, fileName, n))
  {
    var ps := SegmentPaths(root, directoryPath, fileName, n);
    forall i, j | 0 <= i < j < n
      ensures ps[i] != ps[j]
    {
      SegmentPathsDistinct(root, directoryPath, fileName, i, j);
    }
  }

  /** The file system after the files `paths` were fetched one after the
      other, file `i` with response `i`. */
  function WriteSegments(fs: FileSystem, paths: seq<string>, responses: seq<Response>): FileSystem
    requires |paths| == |responses|
    decreases |responses|
  {
    if |responses| == 0 then fs
    else
      var i := |responses| - 1;
      SegmentWrite(WriteSegments(fs, paths[..i], responses[..i]), paths[i], responses[i])
  }

  /** One more segment extends the fold by one write. */
  lemma WriteSegmentsStep(fs: FileSystem, paths: seq<string>, responses: seq<Response>, i: nat)
    requires |paths| == |responses| && i < |paths|
    ensures WriteSegments(fs, paths[..i + 1], responses[..i + 1]) ==
      SegmentWrite(WriteSegments(fs, paths[..i], responses[..i]), paths[i], responses[i])
  {
    assert paths[..i + 1][..i] == paths[..i] && responses[..i + 1][..i] == responses[..i];
  }

  /** Fetching the segments leaves every other file as it was. */
  lemma {:induction false} WriteSegmentsKeepsOthers(fs: FileSystem, paths: seq<string>,
                                                    responses: seq<Response>, q: string)
    requires |paths| == |responses| && q !in paths
    ensures var files := WriteSegments(fs, paths, responses);
      (q in files <==> q in fs) && (q in fs ==> files[q] == fs[q])
    decreases |responses|
  {
    if |responses| > 0 {
      var n := |responses| - 1;
      assert q !in paths[..n];
      WriteSegmentsKeepsOthers(fs, paths[..n], responses[..n], q);
    }
  }

  /** When the files are distinct, each ends as its own response alone
      would leave it over what was on disk before: no segment overwrites
      another. */
  lemma {:induction false} WriteSegmentsContents(fs: FileSystem, paths: seq<string>,
                                                 responses: seq<Response>, i: nat)
    requires |paths| == |responses| && Distinct(paths) && i < |paths|
    ensures var files := WriteSegments(fs, paths, responses);
      var one := SegmentWrite(fs, paths[i], responses[i]);
      (paths[i] in files <==> paths[i] in one) && (paths[i] in files ==> files[paths[i]] == one[paths[i]])
    decreases |responses|
  {
    var n := |responses| - 1;
    var prev := WriteSegments(fs, paths[..n], responses[..n]);
    if i < n {
      WriteSegmentsContents(fs, paths[..n], responses[..n], i);
      assert paths[i] != paths[n];
    } else {
      assert paths[n] !in paths[..n];
      WriteSegmentsKeepsOthers(fs, paths[..n], responses[..n], paths[n]);
      assert Existing(prev, paths[n]) == Existing(fs, paths[n]);
    }
  }

  /** The requests of every segment of the playlist, in order. */
  function AllRequests(url: string, fileName: string, directoryPath: string, mimeType: string,
                       headers: map<string, string>, showNotification: bool,
                       streams: seq<SingleStream>): (rs: seq<DownloadRequest>)
    ensures |rs| == |streams|
    ensures forall i :: 0 <= i < |streams| ==>
      rs[i] == SegmentRequest(url, fileName, directoryPath, mimeType, headers, showNotification, i, streams[i])
  {
    seq(|streams|, i requires 0 <= i < |streams| =>
      SegmentRequest(url, fileName, directoryPath, mimeType, headers, showNotification, i, streams[i]))
  }

  /** One iteration of the segment loop: a fresh single-file downloader is
      given segment `i`'s request and fetches it into the segment's file;
      nothing else on disk changes. Its id is `None` when it threw. */
  method FetchSegment(url: string, fileName: string, directoryPath: string, mimeType: string,
                      headers: map<string, string>, showNotification: bool, root: string,
                      fs: FileSystem, i: nat, path: string, stream: SingleStream, response: Response,
                      newId: string)
    returns (mediaDownloader: CustomDownloaderImpl, segmentId: Option<string>, files: FileSystem,
             request: DownloadRequest)
    requires path == SegmentPath(root, directoryPath, fileName, i)
    ensures fresh(mediaDownloader)
    ensures segmentId == (if Throws(response) then None else Some(newId))
    ensures request == mediaDownloader.model
    ensures request == SegmentRequest(url, fileName, directoryPath, mimeType, headers, showNotification, i, stream)
    ensures files == SegmentWrite(fs, path, response)
  {
    var newDirectory := directoryPath + "/" + SubstringBeforeLast(fileName, '.');
    var urlToDownload := ResolveUrl(url, stream.link);
    // the downloader's own random id is replaced by `downloadMedia`
    mediaDownloader := new CustomDownloaderImpl("");
    segmentId, files := mediaDownloader.DownloadMedia(
      urlToDownload, SegmentName(i, fileName), newDirectory, mimeType,
      SegmentHeaders(headers, stream), showNotification, true,
      root, fs, response, None, newId);
    request := mediaDownloader.model;
  }

  /** The elements of a sequence. */
  function SetOf<T>(s: seq<T>): set<T> {
    set k | k in s
  }

  /** The index of the first segment whose downloader throws, or the number
      of segments when none does. */
  function FirstThrow(responses: seq<Response>): (k: nat)
    ensures k <= |responses|
    ensures forall j :: 0 <= j < k ==> !Throws(responses[j])
    ensures k < |responses| ==> Throws(responses[k])
  {
    if |responses| == 0 then 0
    else if Throws(responses[0]) then 0
    else 1 + FirstThrow(responses[1..])
  }

  /** The number of segments whose downloader was started: up to and
      including the first that throws. */
  function Attempted(responses: seq<Response>): (n: nat)
    ensures n <= |responses|
    ensures n == |responses| || n == FirstThrow(responses) + 1
    ensures FirstThrow(responses) <= n
  {
    if FirstThrow(responses) < |responses| then FirstThrow(responses) + 1 else |responses|
  }

  /** The downloader under the last occurrence of each of the first `n`
      ids was given that segment's request. */
  ghost predicate KeptRequests(after: map<string, CustomDownloaderImpl>, ids: seq<string>,
                               requests: seq<DownloadRequest>, n: nat)
    reads after.Values
    requires n <= |ids| && n <= |requests|
  {
    forall j :: 0 <= j < n && ids[j] !in ids[j + 1..n] ==> ids[j] in after && after[ids[j]].model == requests[j]
  }

  /** Every key before that is none of the first `n` ids keeps its downloader. */
  ghost predicate KeptOthers(before: map<string, CustomDownloaderImpl>, after: map<string, CustomDownloaderImpl>,
                             ids: seq<string>, n: nat)
    requires n <= |ids|
  {
    forall key :: key in before && key !in SetOf(ids[..n]) ==> key in after && after[key] == before[key]
  }

  /** The kept downloaders after the first `n` segments: the keys before and
      the segments' ids; the downloader under the last occurrence of an id
      was given that segment's request; every other key keeps its
      downloader. */
  ghost predicate Kept(before: map<string, CustomDownloaderImpl>, after: map<string, CustomDownloaderImpl>,
                       ids: seq<string>, requests: seq<DownloadRequest>, n: nat)
    reads after.Values
  {
    && n <= |ids| && n <= |requests|
    && after.Keys == before.Keys + SetOf(ids[..n])
    && KeptRequests(after, ids, requests, n)
    && KeptOthers(before, after, ids, n)
  }

  lemma SetOfSnoc<T>(s: seq<T>, x: T)
    ensures SetOf(s + [x]) == SetOf(s) + {x}
  {
  }

  /** One more downloader under the next id keeps the earlier ids' requests
      unless the id repeats. */
  lemma KeptRequestsOneMore(after: map<string, CustomDownloaderImpl>, ids: seq<string>,
                            requests: seq<DownloadRequest>, n: nat, d: CustomDownloaderImpl)
    requires n < |ids| && n < |requests| && d.model == requests[n]
    requires KeptRequests(after, ids, requests, n)
    ensures KeptRequests(after[ids[n] := d], ids, requests, n + 1)
  {
    var after' := after[ids[n] := d];
    forall j | 0 <= j < n + 1 && ids[j] !in ids[j + 1..n + 1]
      ensures ids[j] in after' && after'[ids[j]].model == requests[j]
    {
      if j < n {
        assert ids[j + 1..n + 1] == ids[j + 1..n] + [ids[n]];
        assert ids[j] != ids[n] && ids[j] !in ids[j + 1..n];
      }
    }
  }

  /** One more downloader under the next id leaves every other older key alone. */
  lemma KeptOthersOneMore(before: map<string, CustomDownloaderImpl>, after: map<string, CustomDownloaderImpl>,
                          ids: seq<string>, n: nat, d: CustomDownloaderImpl)
    requires n < |ids| && SetOf(ids[..n + 1]) == SetOf(ids[..n]) + {ids[n]}
    requires KeptOthers(before, after, ids, n)
    ensures KeptOthers(before, after[ids[n] := d], ids, n + 1)
  {
  }

  /** One more segment kept under its id extends `Kept` by one. */
  lemma KeptOneMore(before: map<string, CustomDownloaderImpl>, after: map<string, CustomDownloaderImpl>,
                    ids: seq<string>, requests: seq<DownloadRequest>, n: nat, d: CustomDownloaderImpl)
    requires n < |ids| && n < |requests| && d.model == requests[n]
    requires Kept(before, after, ids, requests, n)
    ensures Kept(before, after[ids[n] := d], ids, requests, n + 1)
  {
    TakeOneMore(ids, n);
    SetOfSnoc(ids[..n], ids[n]);
    KeptRequestsOneMore(after, ids, requests, n, d);
    KeptOthersOneMore(before, after, ids, n, d);
  }

  /** Kept with different requests that agree on the first `n`. */
  lemma KeptSamePrefix(before: map<string, CustomDownloaderImpl>, after: map<string, CustomDownloaderImpl>,
                       ids: seq<string>, requests: seq<DownloadRequest>, requests': seq<DownloadRequest>, n: nat)
    requires n <= |requests| && n <= |requests'| && requests'[..n] == requests[..n]
    requires Kept(before, after, ids, requests, n)
    ensures Kept(before, after, ids, requests', n)
  {
    forall j | 0 <= j < n
      ensures requests'[j] == requests[j]
    {
      assert requests'[..n][j] == requests[..n][j];
    }
  }

  /** One more segment fetched: the requests and the files so far each
      grow by that segment's. */
  lemma FetchedOneMore(all: seq<DownloadRequest>, paths: seq<string>, responses: seq<Response>,
                       fs: FileSystem, i: nat, files: FileSystem, request: DownloadRequest)
    requires |paths| == |responses| && i < |all| && i < |paths|
    requires request == all[i]
    requires files == WriteSegments(fs, paths[..i], responses[..i])
    ensures all[..i] + [request] == all[..i + 1]
    ensures SegmentWrite(files, paths[i], responses[i]) == WriteSegments(fs, paths[..i + 1], responses[..i + 1])
  {
    TakeOneMore(all, i);
    WriteSegmentsStep(fs, paths, responses, i);
  }

  /** Segment `i` fetched after the first `i`: the requests and the files
      each grow by that segment's; unless its downloader threw, the
      downloader is kept under its id. */
  method FetchNext(url: string, fileName: string, directoryPath: string, mimeType: string,
                   headers: map<string, string>, showNotification: bool,
                   root: string, fs: FileSystem, streams: seq<SingleStream>,
                   responses: seq<Response>, ids: seq<string>,
                   downloader: map<string, CustomDownloaderImpl>, i: nat,
                   files: FileSystem, requests: seq<DownloadRequest>,
                   downloaders: map<string, CustomDownloaderImpl>)
    returns (files': FileSystem, requests': seq<DownloadRequest>,
             downloaders': map<string, CustomDownloaderImpl>, thrown: bool)
    requires |responses| == |streams| && |ids| > |streams| && i < |streams|
    requires requests == AllRequests(url, fileName, directoryPath, mimeType, headers, showNotification, streams)[..i]
    requires Kept(downloader, downloaders, ids, requests, i)
    requires files == WriteSegments(fs, SegmentPaths(root, directoryPath, fileName, |streams|)[..i], responses[..i])
    ensures thrown == Throws(responses[i])
    ensures requests' == AllRequests(url, fileName, directoryPath, mimeType, headers, showNotification, streams)[..i + 1]
    ensures thrown ==> downloaders' == downloaders
    ensures Kept(downloader, downloaders', ids, requests', if thrown then i else i + 1)
    ensures files' == WriteSegments(fs, SegmentPaths(root, directoryPath, fileName, |streams|)[..i + 1], responses[..i + 1])
  {
    ghost var all := AllRequests(url, fileName, directoryPath, mimeType, headers, showNotification, streams);
    ghost var paths := SegmentPaths(root, directoryPath, fileName, |streams|);
    var path := SegmentPath(root, directoryPath, fileName, i);
    var mediaDownloader, segmentId, request;
    mediaDownloader, segmentId, files', request := FetchSegment(
      url, fileName, directoryPath, mimeType, headers, showNotification, root,
      files, i, path, streams[i], responses[i], ids[i]);
    assert path == paths[i];
    FetchedOneMore(all, paths, responses, fs, i, files, request);
    requests' := requests + [request];
    thrown := segmentId.None?;
    downloaders' := downloaders;
    KeptSamePrefix(downloader, downloaders, ids, requests, requests', i);
    if !thrown {
      KeptOneMore(downloader, downloaders, ids, requests', i, mediaDownloader);
      downloaders' := downloaders[segmentId.value := mediaDownloader];
    }
  }

  /** The segments in order until one throws: for each, a fresh single-file
      downloader fetches it with its resolved URL, its `<i>.<ext>` name, the
      segment directory and the merged headers, and is kept under the id it
      returns; the exception of the first that throws ends the loop, with
      that segment's file as its downloader left it and no id kept. */
  method FetchInOrder(url: string, fileName: string, directoryPath: string, mimeType: string,
                      headers: map<string, string>, showNotification: bool,
                      root: string, fs: FileSystem, streams: seq<SingleStream>,
                      responses: seq<Response>, ids: seq<string>,
                      downloader: map<string, CustomDownloaderImpl>)
    returns (files: FileSystem, requests: seq<DownloadRequest>,
             downloaders: map<string, CustomDownloaderImpl>, fetched: nat)
    requires |responses| == |streams| && |ids| > |streams|
    ensures fetched == FirstThrow(responses)
    ensures requests == AllRequests(url, fileName, directoryPath, mimeType, headers, showNotification,
                                    streams)[..Attempted(responses)]
    ensures Kept(downloader, downloaders, ids, requests, fetched)
    ensures files == WriteSegments(fs, SegmentPaths(root, directoryPath, fileName, |streams|)[..Attempted(responses)],
                                   responses[..Attempted(responses)])
  {
    files, requests, downloaders := fs, [], downloader;
    fetched := 0;
    var thrown := false;
    while fetched < |streams| && !thrown
      invariant fetched <= FirstThrow(responses)
      invariant thrown ==> fetched == FirstThrow(responses) < |streams|
      invariant !thrown && fetched == |streams| ==> fetched == FirstThrow(responses)
      invariant var n := if thrown then fetched + 1 else fetched;
        && requests == AllRequests(url, fileName, directoryPath, mimeType, headers, showNotification, streams)[..n]
        && files == WriteSegments(fs, SegmentPaths(root, directoryPath, fileName, |streams|)[..n], responses[..n])
      invariant Kept(downloader, downloaders, ids, requests, fetched)
      decreases |streams| - fetched, if thrown then 0 else 1
    {
      files, requests, downloaders, thrown := FetchNext(url, fileName, directoryPath, mimeType, headers,
                                                        showNotification, root, fs, streams, responses, ids,
                                                        downloader, fetched, files, requests, downloaders);
      if !thrown {
        fetched := fetched + 1;
      }
    }
  }

  class M3u8Downloader {
    var downloadingId: string
    var download: int
    var totalChunks: int
    var downloader: map<string, CustomDownloaderImpl>

    constructor ()
      ensures downloadingId == "" && download == 0 && totalChunks == 0 && downloader == map[]
    {
      downloadingId, download, totalChunks, downloader := "", 0, 0, map[];
    }

    /** `getCurrentStatus`: `Success` exactly when as many segments were
        downloaded as the playlist has and it has some; `Progress` otherwise. */
    function GetCurrentStatus(): (s: DownloadingState)
      reads this
      ensures s == Success <==> download == totalChunks && totalChunks > 0
      ensures s != Success ==> s == Progress
    {
      if download == totalChunks && totalChunks > 0 then Success else Progress
    }

    /** `getBytesInfo`: one "kilobyte" per segment. */
    function GetBytesInfo(): (int, int)
      reads this
    {
      (download * 1024, totalChunks * 1024)
    }

    /** The segment loop of `downloadMedia`, with the counter growing by
        one per segment whose downloader returned, whatever the segment's
        outcome; the first exception ends it. */
    method FetchAll(url: string, fileName: string, directoryPath: string, mimeType: string,
                    headers: map<string, string>, showNotification: bool,
                    root: string, fs: FileSystem, streams: seq<SingleStream>,
                    responses: seq<Response>, ids: seq<string>)
      returns (files: FileSystem, requests: seq<DownloadRequest>, thrown: bool)
      requires |responses| == |streams| && |ids| > |streams|
      modifies this`download, this`downloader
      ensures thrown <==> FirstThrow(responses) < |streams|
      ensures download == old(download) + FirstThrow(responses)
      ensures requests == AllRequests(url, fileName, directoryPath, mimeType, headers, showNotification,
                                      streams)[..Attempted(responses)]
      ensures Kept(old(downloader), downloader, ids, requests, FirstThrow(responses))
      ensures files == WriteSegments(fs, SegmentPaths(root, directoryPath, fileName, |streams|)[..Attempted(responses)],
                                     responses[..Attempted(responses)])
    {
      var fetched;
      files, requests, downloader, fetched := FetchInOrder(url, fileName, directoryPath, mimeType, headers,
                                                           showNotification, root, fs, streams, responses,
                                                           ids, downloader);
      download := download + fetched;
      thrown := fetched < |streams|;
    }

    /** `downloadMedia`: records the number of segments, fetches them into
        the segment directory and returns a new random id; when a segment's
        downloader throws, the exception reaches the caller (`None`) and the
        count stays short of the total. */
    method DownloadMedia(url: string, fileName: string, directoryPath: string, mimeType: string,
                         headers: map<string, string>, showNotification: bool, supportChunks: bool,
                         root: string, fs: FileSystem, streams: seq<SingleStream>,
                         responses: seq<Response>, ids: seq<string>)
      returns (id: Option<string>, files: FileSystem, requests: seq<DownloadRequest>)
      requires |responses| == |streams| && |ids| == |streams| + 1
      modifies this`download, this`downloader, this`totalChunks, this`downloadingId
      ensures totalChunks == |streams| && download == old(download) + FirstThrow(responses)
      ensures FirstThrow(responses) < |streams| ==> id == None && downloadingId == old(downloadingId)
      ensures FirstThrow(responses) == |streams| ==> id == Some(ids[|streams|]) && downloadingId == ids[|streams|]
      ensures old(download) == 0 ==>
        (GetCurrentStatus() == Success <==> FirstThrow(responses) == |streams| && |streams| > 0)
      ensures requests == AllRequests(url, fileName, directoryPath, mimeType, headers, showNotification,
                                      streams)[..Attempted(responses)]
      ensures Kept(old(downloader), downloader, ids, requests, FirstThrow(responses))
      ensures files == WriteSegments(fs, SegmentPaths(root, directoryPath, fileName, |streams|)[..Attempted(responses)],
                                     responses[..Attempted(responses)])
    {
      totalChunks := |streams|;
      var thrown;
      files, requests, thrown := FetchAll(url, fileName, directoryPath, mimeType, headers, showNotification,
                                          root, fs, streams, responses, ids);
      if thrown {
        id := None;
        return;
      }
      downloadingId := ids[|streams|];
      id := Some(downloadingId);
    }

    /** Pausing, resuming and cancelling do nothing. */
    method PauseDownloading()
      ensures GetCurrentStatus() == old(GetCurrentStatus()) && GetBytesInfo() == old(GetBytesInfo())
    {
    }

    method ResumeDownloading()
      ensures GetCurrentStatus() == old(GetCurrentStatus()) && GetBytesInfo() == old(GetBytesInfo())
    {
    }

    method CancelDownloading()
      ensures GetCurrentStatus() == old(GetCurrentStatus()) && GetBytesInfo() == old(GetBytesInfo())
    {
    }
  }
}
