/** The single-file fetcher: one HTTP GET whose body is copied, read by read,
    into a file opened at the end of what is already on disk; with chunking
    support a resumed download asks only for the missing tail with an
    open-ended `Range: bytes=N-` request (RFC 7233, sections 2.1 and 3.1) and
    accepts `206 Partial Content` (RFC 7233, section 4.1) as well as `200`.

    The network is an input: the response code, the announced content length
    and the successive results of `read` on the body, plus the read (if any)
    at which an I/O exception is thrown. A concurrent `pauseDownloading` is
    the read index at which the copy loop first sees the flag set. */
module CustomDownloader {
  import opened Wrappers
  import opened Text
  import opened Components
  import opened Files
  import opened DownloaderPaths

  const BUFFER_SIZE: nat := 1024 * 16
  const HTTP_OK: int := 200
  const HTTP_PARTIAL: int := 206

  /** The steps before the copy loop whose exceptions are not caught and
      leave `downloadFile` (and the caller with it): creating the file,
      opening and connecting the connection and reading its code, and, for
      an accepted code only, opening the two streams. */
  datatype SetupStep = CreateFile | Connect | OpenStreams

  /** The server's answer. `contentLength` is -1 when the server does not
      announce one; `body` holds the blocks `read(buffer)` returns before it
      returns -1; `failAt` is the read that throws instead (the index
      `|body|` is the final, end-of-stream read); `setupFails` is the step
      before the loop that throws, if any. */
  datatype Response = Response(code: int, contentLength: int, body: seq<Bytes>, failAt: Option<nat>,
                               setupFails: Option<SetupStep>)

  /** The parameters of the current download. */
  datatype DownloadRequest = DownloadRequest(
    url: string, fileName: string, directoryPath: string, mimeType: string,
    headers: map<string, string>, showNotification: bool)

  predicate Accepted(code: int) {
    code == HTTP_PARTIAL || code == HTTP_OK
  }

  /** `downloadFile` throws before its copy loop: the streams are opened
      only for an accepted code. */
  predicate Throws(r: Response) {
    r.setupFails.Some? && (r.setupFails.value != OpenStreams || Accepted(r.code))
  }

  /** `createNewFile` ran, so the destination exists afterwards. */
  predicate Created(r: Response) {
    r.setupFails != Some(CreateFile)
  }

  /** The value of an open-ended `Range` request from byte `n` on. */
  function RangeHeader(n: nat): string {
    "bytes=" + NatToString(n) + "-"
  }

  /** The request properties set on the connection: the open-ended `Range`
      only for a resume with chunking support, the caller's headers only
      with chunking support (set after `Range`, so they win on a clash). */
  function RequestHeaders(supportChunking: bool, forPauseResume: bool, existingSize: nat,
                          headers: map<string, string>): (h: map<string, string>)
    ensures !supportChunking ==> h == map[]
    ensures supportChunking ==> forall k :: k in headers ==> k in h && h[k] == headers[k]
    ensures supportChunking && forPauseResume && "Range" !in headers ==>
      "Range" in h && h["Range"] == RangeHeader(existingSize)
    ensures "Range" in h && "Range" !in headers ==> supportChunking && forPauseResume
    ensures forall k :: k in h ==> k in headers || k == "Range"
  {
    var range := if supportChunking && forPauseResume
      then map["Range" := RangeHeader(existingSize)] else map[];
    if supportChunking then range + headers else range
  }

  function MinOpt(a: nat, o: Option<nat>): nat {
    if o.Some? && o.value < a then o.value else a
  }

  /** The read at which the copy loop stops: the first read that throws, the
      end of the body, or the first read after which the pause flag is seen
      (at once when it was already set), whichever comes first. */
  function StopIndex(n: nat, failAt: Option<nat>, paused: bool, pauseAt: Option<nat>): (k: nat)
    ensures k <= n
    ensures failAt.Some? && failAt.value < k ==> false
    ensures pauseAt.Some? && pauseAt.value < k ==> false
    ensures paused ==> k == 0
    ensures k == n || failAt == Some(k) || pauseAt == Some(k) || paused
  {
    if paused then 0 else MinOpt(MinOpt(n, failAt), pauseAt)
  }

  /** The loop has reached its stop read exactly when that read throws, is
      the end of the body, or sees the pause flag. */
  lemma StopAt(n: nat, failAt: Option<nat>, paused: bool, pauseAt: Option<nat>, i: nat)
    requires i <= StopIndex(n, failAt, paused, pauseAt)
    ensures i == StopIndex(n, failAt, paused, pauseAt) <==>
      (failAt == Some(i) || i == n || pauseAt == Some(i) || paused)
  {
  }

  /** The fields the copy loop updates: the pause flag, the status, and the
      downloaded and total byte counts. */
  datatype CopyState = CopyState(paused: bool, status: DownloadingState, downloaded: int, total: int)

  /** The file once the copy loop is over: the bytes already on disk followed
      by every block read before the stop read. */
  function CopiedFile(existing: Bytes, r: Response, paused: bool, pauseAt: Option<nat>): Bytes {
    existing + Concat(r.body[..StopIndex(|r.body|, r.failAt, paused, pauseAt)])
  }

  /** The fields once the copy loop of an accepted response is over. The
      status is `Failed` when the stop read throws, `Paused` when the loop
      broke off for a pause, `Success` when the body ran out with no pause,
      and stays `Progress` when a pause lands only after the last read. The
      sizes change only when at least one block was written. */
  function AfterCopy(st: CopyState, existingSize: nat, r: Response, pauseAt: Option<nat>,
                     totalSize: int): CopyState {
    var n := |r.body|;
    var k := StopIndex(n, r.failAt, st.paused, pauseAt);
    var paused := st.paused || (pauseAt == Some(k) && r.failAt != Some(k));
    CopyState(
      paused,
      if r.failAt == Some(k) then Failed else if k < n then Paused else if paused then Progress else Success,
      if k > 0 then existingSize + |Concat(r.body[..k])| else st.downloaded,
      if k > 0 then totalSize else st.total)
  }

  /** What is on disk at `path` before a download: nothing when it is missing. */
  function Existing(fs: FileSystem, path: string): Bytes {
    if path in fs then fs[path] else []
  }

  /** The file after one `downloadFile` on what is already there: copied
      into only when the code is accepted and nothing threw first. */
  function FileAfter(existing: Bytes, r: Response, paused: bool, pauseAt: Option<nat>): Bytes {
    if Accepted(r.code) && !Throws(r) then CopiedFile(existing, r, paused, pauseAt) else existing
  }

  /** The fields after one `downloadFile`: an accepted code sets `Progress`
      before the streams are opened, so an exception there leaves it set;
      an earlier exception or another code changes nothing. */
  function FieldsAfter(st: CopyState, existingSize: nat, r: Response, pauseAt: Option<nat>): CopyState {
    if Throws(r) then
      (if r.setupFails == Some(OpenStreams) then st.(status := Progress) else st)
    else if Accepted(r.code) then AfterCopy(st, existingSize, r, pauseAt, r.contentLength + existingSize)
    else st
  }

  /** A `downloadFile` that throws before its loop writes nothing, leaves the
      byte counts alone and never records `Success`; `Success` at all needs
      an accepted code and the whole body copied. */
  lemma ThrowWritesNothing(st: CopyState, existing: Bytes, r: Response, pauseAt: Option<nat>)
    requires st.status != Success
    ensures Throws(r) ==>
      && FileAfter(existing, r, st.paused, pauseAt) == existing
      && FieldsAfter(st, |existing|, r, pauseAt).downloaded == st.downloaded
      && FieldsAfter(st, |existing|, r, pauseAt).total == st.total
    ensures FieldsAfter(st, |existing|, r, pauseAt).status == Success ==>
      !Throws(r) && Accepted(r.code) &&
      FileAfter(existing, r, st.paused, pauseAt) == existing + Concat(r.body)
  {
    if !Throws(r) && Accepted(r.code) {
      SuccessIffCompleteCopy(st, existing, r, pauseAt, r.contentLength + |existing|);
    }
  }

  /** The copy ends in `Success` exactly when the flag was clear, no read up
      to the end of the body throws and no pause lands up to it; the file is
      then the old bytes followed by the whole body. */
  lemma SuccessIffCompleteCopy(st: CopyState, existing: Bytes, r: Response, pauseAt: Option<nat>,
                               totalSize: int)
    ensures AfterCopy(st, |existing|, r, pauseAt, totalSize).status == Success <==>
      !st.paused && (r.failAt.None? || r.failAt.value > |r.body|) &&
      (pauseAt.None? || pauseAt.value > |r.body|)
    ensures AfterCopy(st, |existing|, r, pauseAt, totalSize).status == Success ==>
      CopiedFile(existing, r, st.paused, pauseAt) == existing + Concat(r.body) &&
      !AfterCopy(st, |existing|, r, pauseAt, totalSize).paused
  {
    var n := |r.body|;
    var k := StopIndex(n, r.failAt, st.paused, pauseAt);
    if AfterCopy(st, |existing|, r, pauseAt, totalSize).status == Success {
      assert r.body[..k] == r.body;
    }
  }

  /** Whenever at least one block was written, the downloaded count is the
      length of the file on disk, and the copy never leaves `Idle`. */
  lemma DownloadedIsFileLength(st: CopyState, existing: Bytes, r: Response, pauseAt: Option<nat>,
                               totalSize: int)
    ensures var after := AfterCopy(st, |existing|, r, pauseAt, totalSize);
      && (StopIndex(|r.body|, r.failAt, st.paused, pauseAt) > 0 ==>
            after.downloaded == |CopiedFile(existing, r, st.paused, pauseAt)| && after.total == totalSize)
      && after.status != Idle
  {
  }

  /** A pause seen at read `p` (no exception before) stops the copy before
      block `p` is written: the status is `Paused`, the flag stays set, and
      what is on disk is the old bytes followed by a prefix of the body. */
  lemma PauseKeepsPrefix(st: CopyState, existing: Bytes, r: Response, p: nat, totalSize: int)
    requires !st.paused && p < |r.body| && (r.failAt.None? || r.failAt.value > p)
    ensures AfterCopy(st, |existing|, r, Some(p), totalSize).status == Paused
    ensures AfterCopy(st, |existing|, r, Some(p), totalSize).paused
    ensures CopiedFile(existing, r, false, Some(p)) == existing + Concat(r.body[..p])
    ensures CopiedFile(existing, r, false, Some(p)) <= existing + Concat(r.body)
  {
    ConcatPrefix(r.body, p);
  }

  /** An exception at read `j` (no pause before) ends the copy `Failed` with
      blocks `0 .. j-1` written: nothing written is rolled back. */
  lemma FailureKeepsWrittenBlocks(st: CopyState, existing: Bytes, r: Response, j: nat,
                                  pauseAt: Option<nat>, totalSize: int)
    requires !st.paused && j <= |r.body| && r.failAt == Some(j)
    requires pauseAt.None? || pauseAt.value >= j
    ensures AfterCopy(st, |existing|, r, pauseAt, totalSize).status == Failed
    ensures CopiedFile(existing, r, false, pauseAt) == existing + Concat(r.body[..j])
  {
  }

  /** With the flag already set nothing is written: the first read throws,
      finds the end of the body, or sees the flag. */
  lemma AlreadyPausedWritesNothing(st: CopyState, existing: Bytes, r: Response, pauseAt: Option<nat>,
                                   totalSize: int)
    requires st.paused
    ensures CopiedFile(existing, r, true, pauseAt) == existing
    ensures AfterCopy(st, |existing|, r, pauseAt, totalSize) ==
      CopyState(true, if r.failAt == Some(0) then Failed else if |r.body| > 0 then Paused else Progress,
                st.downloaded, st.total)
  {
    assert r.body[..0] == [];
  }

  /** A server holding `resource` answers request properties `h` in full
      with no exception: without a `Range` it sends the whole resource with
      `200`; asked for the bytes from `n` on (within the resource) it sends
      exactly those with `206`. */
  predicate Answers(resource: Bytes, h: map<string, string>, r: Response) {
    && r.failAt.None? && r.setupFails.None?
    && ("Range" !in h ==> r.code == HTTP_OK && Concat(r.body) == resource)
    && (forall n: nat :: "Range" in h && h["Range"] == RangeHeader(n) && n <= |resource| ==>
          r.code == HTTP_PARTIAL && Concat(r.body) == resource[n..])
  }

  /** What a first, fresh download paused at read `p` leaves on disk is a
      prefix of the resource. */
  lemma {:induction false} PausedPrefix(resource: Bytes, first: Response, p: nat)
    requires first.failAt.None? && first.setupFails.None? && Accepted(first.code)
    requires Concat(first.body) == resource && p < |first.body|
    ensures FileAfter([], first, false, Some(p)) == Concat(first.body[..p])
    ensures FileAfter([], first, false, Some(p)) <= resource
  {
    assert StopIndex(|first.body|, None, false, Some(p)) == p;
    ConcatPrefix(first.body, p);
  }

  /** Pause and resume with chunking support lose and duplicate nothing: a
      fresh download of the resource paused at read `p`, then resumed; the
      resume asks for `Range: bytes=N-` with `N` the file's length, the
      server answers `206` with that tail, and the file afterwards is the
      resource. */
  lemma {:induction false} PauseThenResume(resource: Bytes, headers: map<string, string>,
                                           first: Response, p: nat, second: Response)
    requires "Range" !in headers
    requires Answers(resource, RequestHeaders(true, false, 0, headers), first) && p < |first.body|
    requires Answers(resource, RequestHeaders(true, true, |FileAfter([], first, false, Some(p))|, headers), second)
    ensures second.code == HTTP_PARTIAL
    ensures FileAfter(FileAfter([], first, false, Some(p)), second, false, None) == resource
  {
    var onDisk := FileAfter([], first, false, Some(p));
    var n := |onDisk|;
    PausedPrefix(resource, first, p);
    var h := RequestHeaders(true, true, n, headers);
    assert "Range" in h && h["Range"] == RangeHeader(n);
    assert Concat(second.body) == resource[n..];
    assert second.body[..|second.body|] == second.body;
    assert onDisk == resource[..n];
  }

  /** As written, a resume without chunking support sends no `Range`, gets
      the whole resource with `200`, and still writes it from the end of
      what is on disk: the paused prefix is kept and the resource follows
      it, so any byte written before the pause is there twice. */
  lemma {:induction false} NonChunkedResumeDuplicates(resource: Bytes, headers: map<string, string>,
                                                      first: Response, p: nat, second: Response)
    requires Answers(resource, RequestHeaders(false, false, 0, headers), first) && p < |first.body|
    requires Answers(resource, RequestHeaders(false, true, |FileAfter([], first, false, Some(p))|, headers), second)
    ensures var onDisk := FileAfter([], first, false, Some(p));
      && second.code == HTTP_OK
      && FileAfter(onDisk, second, false, None) == onDisk + resource
      && (|onDisk| > 0 ==> FileAfter(onDisk, second, false, None) != resource)
  {
    var onDisk := FileAfter([], first, false, Some(p));
    assert second.body[..|second.body|] == second.body;
  }

  /** Where the resumed body is written from, as evidently intended: after
      what is on disk when a `Range` was asked for, and over an emptied file
      otherwise. */
  function ResumeBase(supportChunking: bool, onDisk: Bytes): (base: Bytes)
    ensures supportChunking ==> base == onDisk
    ensures !supportChunking ==> base == []
  {
    if supportChunking then onDisk else []
  }

  /** With the intended write position, pause and resume give back exactly
      the resource with and without chunking support. */
  lemma {:induction false} CorrectedPauseThenResume(supportChunking: bool, resource: Bytes,
                                                    headers: map<string, string>,
                                                    first: Response, p: nat, second: Response)
    requires "Range" !in headers
    requires Answers(resource, RequestHeaders(supportChunking, false, 0, headers), first) && p < |first.body|
    requires Answers(resource, RequestHeaders(supportChunking, true, |FileAfter([], first, false, Some(p))|, headers),
                     second)
    ensures FileAfter(ResumeBase(supportChunking, FileAfter([], first, false, Some(p))), second, false, None) == resource
  {
    if supportChunking {
      PauseThenResume(resource, headers, first, p, second);
    } else {
      assert second.body[..|second.body|] == second.body;
    }
  }

  /** A block written at the end of the file extends the concatenation. */
  lemma AppendBlock(existing: Bytes, chunks: seq<Bytes>, i: nat)
    requires i < |chunks|
    ensures var file := existing + Concat(chunks[..i]);
      WriteAt(file, |file|, chunks[i]) == existing + Concat(chunks[..i + 1])
  {
    assert chunks[..i + 1] == chunks[..i] + [chunks[i]];
    ConcatAppend(chunks[..i], [chunks[i]]);
    assert Concat([chunks[i]]) == chunks[i] by {
      assert [chunks[i]][..0] == [];
    }
  }

  class CustomDownloaderImpl {
    var supportChunking: bool
    var isPaused: bool
    var model: DownloadRequest
    var downloadedBytesSize: int
    var downloadedId: string
    var totalBytesSize: int
    var downloadStatus: DownloadingState

    /** A fresh downloader; the random UUID it starts with is a parameter. */
    constructor (initialId: string)
      ensures !supportChunking && Fields() == CopyState(false, Idle, 0, 0)
      ensures downloadedId == initialId
    {
      supportChunking, isPaused := false, false;
      model := DownloadRequest("", "", "", "", map[], false);
      downloadedBytesSize, totalBytesSize := 0, 0;
      downloadedId := initialId;
      downloadStatus := Idle;
    }

    function Fields(): CopyState
      reads this`isPaused, this`downloadStatus, this`downloadedBytesSize, this`totalBytesSize
    {
      CopyState(isPaused, downloadStatus, downloadedBytesSize, totalBytesSize)
    }

    /** The destination of the current request under the Downloads root. */
    function DestPath(root: string): string
      reads this`model
    {
      ChildPath(DirInsideDownloads(root, model.directoryPath), model.fileName)
    }

    /** The copy loop of `downloadFile` with its exception handler and the
        final status check. Read `i` either throws, or signals the end of the
        body, or delivers a block; a delivered block is written at the end of
        the file unless the pause flag is seen first. After each write the
        downloaded size is the file's length and the total is `totalSize`. */
    method CopyBody(existing: Bytes, response: Response, pauseAt: Option<nat>, totalSize: int)
      returns (file: Bytes)
      modifies this`isPaused, this`downloadStatus, this`downloadedBytesSize, this`totalBytesSize
      ensures file == CopiedFile(existing, response, old(isPaused), pauseAt)
      ensures Fields() == AfterCopy(old(Fields()), |existing|, response, pauseAt, totalSize)
    {
      var chunks := response.body;
      ghost var st0 := Fields();
      ghost var k := StopIndex(|chunks|, response.failAt, st0.paused, pauseAt);
      downloadStatus := Progress;
      file := existing;
      var position := |existing|;
      var i := 0;
      var done := false;
      while !done
        invariant i <= k
        invariant position == |file| && file == existing + Concat(chunks[..i])
        invariant !done ==>
          Fields() == CopyState(st0.paused, Progress, if i == 0 then st0.downloaded else |file|,
                                if i == 0 then st0.total else totalSize)
        invariant done ==> i == k && Fields() == AfterCopy(st0, |existing|, response, pauseAt, totalSize)
        decreases |chunks| - i + (if done then 0 else 1)
      {
        StopAt(|chunks|, response.failAt, st0.paused, pauseAt, i);
        if response.failAt == Some(i) {
          // the read throws; the catch block records the failure
          downloadStatus := Failed;
          done := true;
        } else if i == |chunks| {
          // the read returns -1; a pause may still land before the flag test
          // after the loop, which records success only with the flag clear
          if pauseAt == Some(i) {
            isPaused := true;
          }
          if !isPaused {
            downloadStatus := Success;
          }
          done := true;
        } else {
          if pauseAt == Some(i) {
            isPaused := true;
          }
          if isPaused {
            downloadStatus := Paused;
            done := true;
          } else {
            AppendBlock(existing, chunks, i);
            file := WriteAt(file, position, chunks[i]);
            position := position + |chunks[i]|;
            downloadedBytesSize := |file|;
            totalBytesSize := totalSize;
            downloadStatus := Progress;
            i := i + 1;
          }
        }
      }
    }

    /** `downloadFile(forPauseResume)`: creates the destination if missing,
        sends the request, and for a 200 or 206 copies the body into the file
        from its current end; for any other code nothing is written. Returns
        the file system afterwards, the request properties sent (none when
        creating the file throws) and whether an exception left the call. */
    method DownloadFile(forPauseResume: bool, root: string, fs: FileSystem,
                        response: Response, pauseAt: Option<nat>)
      returns (files: FileSystem, sent: Option<map<string, string>>, thrown: bool)
      modifies this`isPaused, this`downloadStatus, this`downloadedBytesSize, this`totalBytesSize
      ensures thrown == Throws(response)
      ensures sent == (if Created(response)
        then Some(RequestHeaders(supportChunking, forPauseResume, |Existing(fs, DestPath(root))|, model.headers))
        else None)
      ensures files == (if Created(response)
        then fs[DestPath(root) := FileAfter(Existing(fs, DestPath(root)), response, old(isPaused), pauseAt)]
        else fs)
      ensures Fields() == FieldsAfter(old(Fields()), |Existing(fs, DestPath(root))|, response, pauseAt)
    {
      var path := DestPath(root);
      if response.setupFails == Some(CreateFile) {
        files, sent, thrown := fs, None, true;
      } else {
        // createNewFile
        var existing := Existing(fs, path);
        sent := Some(RequestHeaders(supportChunking, forPauseResume, |existing|, model.headers));
        thrown := Throws(response);
        var file := Transfer(existing, response, pauseAt);
        files := fs[path := file];
      }
    }

    /** The part of `downloadFile` after the file exists: connecting, and
        for an accepted code opening the streams and copying the body. */
    method Transfer(existing: Bytes, response: Response, pauseAt: Option<nat>) returns (file: Bytes)
      requires Created(response)
      modifies this`isPaused, this`downloadStatus, this`downloadedBytesSize, this`totalBytesSize
      ensures file == FileAfter(existing, response, old(isPaused), pauseAt)
      ensures Fields() == FieldsAfter(old(Fields()), |existing|, response, pauseAt)
    {
      file := existing;
      if response.setupFails != Some(Connect) && Accepted(response.code) {
        var totalSize := response.contentLength + |existing|;
        if response.setupFails == Some(OpenStreams) {
          downloadStatus := Progress;
        } else {
          // the copy loop sets `Progress` itself
          file := CopyBody(existing, response, pauseAt, totalSize);
        }
      }
    }

    /** `downloadMedia`: records the request, resets the status to `Idle`,
        downloads from scratch (no `Range`), and returns a new random id
        (a parameter here); when `downloadFile` throws, no id is drawn and
        the exception reaches the caller (`None`). */
    method DownloadMedia(url: string, fileName: string, directoryPath: string, mimeType: string,
                         headers: map<string, string>, showNotification: bool, supportChunks: bool,
                         root: string, fs: FileSystem, response: Response, pauseAt: Option<nat>,
                         newId: string)
      returns (id: Option<string>, files: FileSystem)
      modifies this
      ensures model == DownloadRequest(url, fileName, directoryPath, mimeType, headers, showNotification)
      ensures supportChunking == supportChunks
      ensures id == (if Throws(response) then None else Some(newId))
      ensures downloadedId == (if Throws(response) then old(downloadedId) else newId)
      ensures var path := DestPath(root);
        var existing := if path in fs then fs[path] else [];
        var st := CopyState(old(isPaused), Idle, old(downloadedBytesSize), old(totalBytesSize));
        && files == (if Created(response)
                     then fs[path := FileAfter(existing, response, old(isPaused), pauseAt)] else fs)
        && Fields() == FieldsAfter(st, |existing|, response, pauseAt)
    {
      supportChunking := supportChunks;
      model := DownloadRequest(url, fileName, directoryPath, mimeType, headers, showNotification);
      downloadStatus := Idle;
      var sent, thrown;
      files, sent, thrown := DownloadFile(false, root, fs, response, pauseAt);
      if thrown {
        id := None;
        return;
      }
      downloadedId := newId;
      id := Some(downloadedId);
    }

    /** `resumeDownloading`: only a paused download resumes; it clears the
        flag and, in a coroutine of its own, sets `Progress` and downloads
        again with `forPauseResume`, so with chunking support the request
        asks for the bytes from the current file length on. `thrown` is an
        exception escaping that coroutine. */
    method ResumeDownloading(root: string, fs: FileSystem, response: Response, pauseAt: Option<nat>)
      returns (files: FileSystem, sent: Option<map<string, string>>, thrown: bool)
      modifies this`isPaused, this`downloadStatus, this`downloadedBytesSize, this`totalBytesSize
      ensures !old(isPaused) ==> files == fs && sent == None && !thrown && Fields() == old(Fields())
      ensures old(isPaused) ==>
        var path := DestPath(root);
        var existing := if path in fs then fs[path] else [];
        var st := CopyState(false, Progress, old(downloadedBytesSize), old(totalBytesSize));
        && thrown == Throws(response)
        && sent == (if Created(response)
                    then Some(RequestHeaders(supportChunking, true, |existing|, model.headers)) else None)
        && files == (if Created(response)
                     then fs[path := FileAfter(existing, response, false, pauseAt)] else fs)
        && Fields() == FieldsAfter(st, |existing|, response, pauseAt)
    {
      if isPaused {
        isPaused := false;
        downloadStatus := Progress;
        files, sent, thrown := DownloadFile(true, root, fs, response, pauseAt);
      } else {
        files, sent, thrown := fs, None, false;
      }
    }

    method PauseDownloading()
      modifies this`isPaused
      ensures isPaused
    {
      isPaused := true;
    }

    /** `getBytesInfo`: (downloaded, total). */
    function GetBytesInfo(): (int, int)
      reads this
    {
      (downloadedBytesSize, totalBytesSize)
    }

    /** `getCurrentStatus`: `Success` is forced once the downloaded size has
        reached a positive total; otherwise the recorded status. */
    method GetCurrentStatus() returns (s: DownloadingState)
      modifies this`downloadStatus
      ensures downloadedBytesSize >= totalBytesSize && downloadedBytesSize > 0 && totalBytesSize > 0 ==>
        s == Success
      ensures !(downloadedBytesSize >= totalBytesSize && downloadedBytesSize > 0 && totalBytesSize > 0) ==>
        s == old(downloadStatus)
      ensures downloadStatus == s
    {
      if downloadedBytesSize >= totalBytesSize && downloadedBytesSize > 0 && totalBytesSize > 0 {
        downloadStatus := Success;
      }
      s := downloadStatus;
    }

    /** `cancelDownloading`: has no effect; the download goes on as before. */
    method CancelDownloading()
      ensures Fields() == old(Fields()) && GetBytesInfo() == old(GetBytesInfo())
    {
    }
  }
}
