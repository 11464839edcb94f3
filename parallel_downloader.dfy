/** The parallel playlist coordinator, run sequentially: the segments are
    fetched one after the other in playlist order, each ending in an outcome
    given as input, and the merge of the temporary directory into the target
    file is an input too (the merger it calls is not part of this model). */
module M3u8Parallel {
  import opened Wrappers
  import opened Text
  import opened Components
  import opened Files
  import opened Segments

  /** How the download of one segment ends. */
  datatype SegmentOutcome = Downloaded | SegmentError | Cancelled

  datatype FailureReason = InvalidUrl | SegmentFailed(index: nat) | MergeFailed

  /** What `downloadMedia` ends with: the merged file's path, a failure
      result, or the coroutine cancellation, which is rethrown. */
  datatype MediaResult = Ok(path: string) | Err(reason: FailureReason) | CancellationThrown

  /** The arguments one segment's `downloadMedia` is called with. */
  datatype SegmentRequest = SegmentRequest(
    url: string, fileName: string, directoryPath: string,
    headers: map<string, string>, supportChunks: bool)

  /** Segment `i` is fetched from its resolved URL into `<i>.<ext>` in the
      temporary directory, with the caller's headers and without chunking. */
  function SegmentRequestFor(url: string, fileName: string, tempDir: string,
                             headers: map<string, string>, i: nat, stream: SingleStream): SegmentRequest {
    SegmentRequest(ResolveUrl(url, stream.link), SegmentName(i, fileName), tempDir, headers, false)
  }

  /** The requests of every segment of the playlist, in order. */
  function AllRequests(url: string, fileName: string, tempDir: string, headers: map<string, string>,
                       streams: seq<SingleStream>): (rs: seq<SegmentRequest>)
    ensures |rs| == |streams|
    ensures forall i :: 0 <= i < |streams| ==>
      rs[i] == SegmentRequestFor(url, fileName, tempDir, headers, i, streams[i])
  {
    seq(|streams|, i requires 0 <= i < |streams| =>
      SegmentRequestFor(url, fileName, tempDir, headers, i, streams[i]))
  }

  /** The number of segments that were downloaded before the first that was
      not. */
  function CompletedPrefix(outcomes: seq<SegmentOutcome>): (m: nat)
    ensures m <= |outcomes|
    ensures forall j :: 0 <= j < m ==> outcomes[j] == Downloaded
    ensures m < |outcomes| ==> outcomes[m] != Downloaded
  {
    if |outcomes| == 0 || outcomes[0] != Downloaded then 0
    else 1 + CompletedPrefix(outcomes[1..])
  }

  /** The downloaded run ends at the first segment that was not downloaded. */
  lemma CompletedPrefixAt(outcomes: seq<SegmentOutcome>, i: nat)
    requires i <= |outcomes|
    requires forall j :: 0 <= j < i ==> outcomes[j] == Downloaded
    requires i < |outcomes| ==> outcomes[i] != Downloaded
    ensures CompletedPrefix(outcomes) == i
  {
  }

  /** The number of segment requests issued: every segment up to and
      including the first that was not downloaded. */
  function IssuedCount(outcomes: seq<SegmentOutcome>): (c: nat)
    ensures c <= |outcomes|
  {
    var m := CompletedPrefix(outcomes);
    if m < |outcomes| then m + 1 else m
  }

  /** The result the coordinator reaches for the given segment outcomes and
      merge result: an empty playlist is an invalid URL; otherwise the first
      segment that was not downloaded decides, and when every segment was,
      the merge does. */
  function ExpectedResult(outcomes: seq<SegmentOutcome>, mergeOk: bool, target: string): MediaResult {
    var m := CompletedPrefix(outcomes);
    if |outcomes| == 0 then Err(InvalidUrl)
    else if m < |outcomes| then
      (if outcomes[m] == SegmentError then Err(SegmentFailed(m)) else CancellationThrown)
    else if mergeOk then Ok(target)
    else Err(MergeFailed)
  }

  /** All or nothing: the download succeeds exactly when the playlist is not
      empty, every segment was downloaded and the merge succeeded; it then
      names the target file. A failed segment is reported by its index. */
  lemma AllOrNothing(outcomes: seq<SegmentOutcome>, mergeOk: bool, target: string)
    ensures ExpectedResult(outcomes, mergeOk, target).Ok? <==>
      (|outcomes| > 0 && mergeOk && forall j :: 0 <= j < |outcomes| ==> outcomes[j] == Downloaded)
    ensures ExpectedResult(outcomes, mergeOk, target).Ok? ==>
      ExpectedResult(outcomes, mergeOk, target).path == target
    ensures var r := ExpectedResult(outcomes, mergeOk, target);
      r.Err? && r.reason.SegmentFailed? ==>
        var j := r.reason.index;
        j < |outcomes| && outcomes[j] == SegmentError &&
        forall i :: 0 <= i < j ==> outcomes[i] == Downloaded
  {
  }

  /** `getCurrentStatus`: the pause flag wins over the failure flag, which
      wins over the completion flag; with none set the download is in
      progress. */
  function StatusOf(isPaused: bool, isFailed: bool, isCompleted: bool): (s: DownloadingState)
    ensures s == Paused <==> isPaused
    ensures s == Failed <==> !isPaused && isFailed
    ensures s == Success <==> !isPaused && !isFailed && isCompleted
    ensures s == Progress <==> !isPaused && !isFailed && !isCompleted
  {
    if isPaused then Paused
    else if isFailed then Failed
    else if isCompleted then Success
    else Progress
  }

  class M3u8DownloaderParallel {
    var download: int
    var totalChunks: int
    var isFailed: bool
    var isCompleted: bool
    var isPaused: bool
    /** The temporary directory the segments are written to. */
    const tempDirPath: string

    constructor (tempDir: string)
      ensures download == 0 && totalChunks == 0
      ensures !isFailed && !isCompleted && !isPaused
      ensures tempDirPath == tempDir
    {
      download, totalChunks := 0, 0;
      isFailed, isCompleted, isPaused := false, false, false;
      tempDirPath := tempDir;
    }

    function GetCurrentStatus(): DownloadingState
      reads this
    {
      StatusOf(isPaused, isFailed, isCompleted)
    }

    /** `getBytesInfo`: one "kilobyte" per segment. */
    function GetBytesInfo(): (int, int)
      reads this
    {
      (download * 1024, totalChunks * 1024)
    }

    /** The segment loop of `downloadMedia`: each segment's request is
        issued in order, and the first segment that is not downloaded ends
        the loop, marking the download failed when it failed. The counter
        grows by one per downloaded segment. */
    method FetchSegments(url: string, fileName: string, headers: map<string, string>,
                         streams: seq<SingleStream>, outcomes: seq<SegmentOutcome>)
      returns (requests: seq<SegmentRequest>)
      requires |outcomes| == |streams| && !isFailed
      modifies this`download, this`isFailed
      ensures var m := CompletedPrefix(outcomes);
        && download == old(download) + m
        && (isFailed <==> m < |outcomes| && outcomes[m] == SegmentError)
      ensures requests == AllRequests(url, fileName, tempDirPath, headers, streams)[..IssuedCount(outcomes)]
    {
      ghost var all := AllRequests(url, fileName, tempDirPath, headers, streams);
      requests := [];
      var i := 0;
      while i < |streams|
        invariant i <= |streams|
        invariant forall j :: 0 <= j < i ==> outcomes[j] == Downloaded
        invariant download == old(download) + i && !isFailed
        invariant requests == all[..i]
      {
        TakeOneMore(all, i);
        requests := requests + [SegmentRequestFor(url, fileName, tempDirPath, headers, i, streams[i])];
        match outcomes[i] {
          case SegmentError =>
            isFailed := true;  // the exception reaches the catch block
            CompletedPrefixAt(outcomes, i);
            return;
          case Cancelled =>
            CompletedPrefixAt(outcomes, i);  // rethrown
            return;
          case Downloaded =>
            download := download + 1;
            i := i + 1;
        }
      }
      CompletedPrefixAt(outcomes, i);
    }

    /** `downloadMedia`: resets the three flags, fails on an empty playlist,
        fetches the segments, and merges. A cancellation is rethrown with no
        flag set. The download is complete only after every segment was
        downloaded and the merge succeeded. Returns the result and the
        segment requests issued. */
    method DownloadMedia(url: string, fileName: string, directoryPath: string, mimeType: string,
                         headers: map<string, string>, showNotification: bool, supportChunks: bool,
                         streams: seq<SingleStream>, outcomes: seq<SegmentOutcome>, mergeOk: bool)
      returns (r: MediaResult, requests: seq<SegmentRequest>)
      requires |outcomes| == |streams|
      modifies this`download, this`totalChunks, this`isFailed, this`isCompleted, this`isPaused
      ensures r == ExpectedResult(outcomes, mergeOk, ChildPath(directoryPath, fileName))
      ensures !isPaused && (isFailed <==> r.Err?) && (isCompleted <==> r.Ok?)
      ensures download == old(download) + CompletedPrefix(outcomes)
      ensures totalChunks == if |streams| == 0 then old(totalChunks) else |streams|
      ensures requests == AllRequests(url, fileName, tempDirPath, headers, streams)[..IssuedCount(outcomes)]
    {
      isFailed, isPaused, isCompleted := false, false, false;
      if |streams| == 0 {
        // "Invalid Url"
        isFailed := true;
        r, requests := Err(InvalidUrl), [];
        return;
      }
      totalChunks := |streams|;
      requests := FetchSegments(url, fileName, headers, streams, outcomes);
      var m := CompletedPrefix(outcomes);
      if m < |outcomes| {
        r := if outcomes[m] == SegmentError then Err(SegmentFailed(m)) else CancellationThrown;
      } else if !mergeOk {
        isFailed := true;
        r := Err(MergeFailed);
      } else {
        isCompleted := true;
        r := Ok(ChildPath(directoryPath, fileName));
      }
    }

    /** `pauseDownloading`: the status is `Paused` from now on, whatever the
        other flags say. */
    method PauseDownloading()
      modifies this`isPaused
      ensures isPaused && GetCurrentStatus() == Paused
    {
      isPaused := true;
    }

    /** `cancelDownloading`: marks the download failed; a pause still shows
        first. */
    method CancelDownloading()
      modifies this`isFailed
      ensures isFailed
      ensures GetCurrentStatus() == if isPaused then Paused else Failed
    {
      isFailed := true;
    }

    /** `resumeDownloading`: clears the pause flag; the status falls back to
        what the other flags say. */
    method ResumeDownloading()
      modifies this`isPaused
      ensures !isPaused
      ensures GetCurrentStatus() == StatusOf(false, isFailed, isCompleted)
    {
      if isPaused {
        isPaused := false;
      }
    }
  }
}
