/** The background job: `doWork` reads the job description and, for a job
    with an id, polls the downloader until it ends, reporting each poll to
    the progress tracker.

    The downloader runs concurrently with the polling loop; what the loop
    sees at each poll (the downloader's state, its sizes and whether the
    device is online) is given as a trace of observations. `CheckTrace`
    says what the loop does with such a trace; the class `DownloadingWorker`
    runs the loop against a `ProgressManager` and is proved to agree. */
module Worker {
  import opened Wrappers
  import opened Text
  import opened Components
  import opened Progress

  /** What one iteration of the polling loop observes. */
  datatype Observation = Observation(state: DownloadingState, downloaded: Long, total: Long,
                                     connected: bool)

  /** How the polling ended. `checkProgress` returns `false` after
      `Completed` and `true` after `NetworkLost` or `DownloadFailed`;
      `StillPolling` is a trace that ran out while the loop would go on. */
  datatype Exit = Completed | NetworkLost | DownloadFailed | StillPolling

  /** The job description carried by the work request. */
  datatype WorkerDownloadingModel = WorkerDownloadingModel(
    id: string,
    url: string,
    fileName: string,
    destinationDirectory: string,
    mimeType: string,
    headers: Option<map<string, string>>,
    showNotification: bool,
    supportChunks: bool)

  /** The description with every field at its default. */
  const EMPTY_MODEL := WorkerDownloadingModel("", "", "", "", "", None, false, false)

  /** How `doWork` ends: a `Result`, or an exception leaving it (which the
      work manager records as a failure). */
  datatype WorkResult = WorkSuccess | WorkFailure | WorkThrows

  /** An observation that ends the loop: success, no connection, or a
      failure. */
  predicate Stops(o: Observation) {
    o.state == Success || !o.connected || o.state == Failed
  }

  /** The exit taken at an observation that ends the loop: success is
      checked before the connection, and a failure counts only while
      connected. */
  function ExitAt(o: Observation): (e: Exit)
    requires Stops(o)
    ensures e == Completed <==> o.state == Success
    ensures e == NetworkLost <==> o.state != Success && !o.connected
    ensures e == DownloadFailed <==> o.state == Failed && o.connected
  {
    if o.state == Success then Completed
    else if !o.connected then NetworkLost
    else DownloadFailed
  }

  /** The status the tracker is given at an exit. */
  function ExitStatus(e: Exit): DownloadingState
    requires e != StillPolling
  {
    match e
    case Completed => Success
    case NetworkLost => PausedNetwork
    case DownloadFailed => Failed
  }

  /** The value `checkProgress` returns: whether the job should be tried
      again; none while still polling. */
  function ShouldRetry(e: Exit): (r: Option<bool>)
    ensures r.None? <==> e == StillPolling
    ensures r == Some(false) <==> e == Completed
  {
    match e
    case Completed => Some(false)
    case NetworkLost => Some(true)
    case DownloadFailed => Some(true)
    case StillPolling => None
  }

  /** The loop from the current tracker over the remaining observations:
      each one is first reported as progress, then an ending observation
      sets the status of its exit and stops. */
  function CheckTrace(t: Tracker, id: string, obs: seq<Observation>): (r: (Tracker, Exit))
    requires Valid(t)
    ensures Valid(r.0)
    decreases |obs|
  {
    if |obs| == 0 then (t, StillPolling)
    else
      var o := obs[0];
      var t1 := UpdateProgressOp(t, id, o.downloaded, o.total);
      if Stops(o) then
        var e := ExitAt(o);
        (UpdateStatusOp(t1, id, ExitStatus(e)), e)
      else CheckTrace(t1, id, obs[1..])
  }

  /** `checkProgress`: the status becomes `Progress` before the first poll. */
  function CheckProgressOp(t: Tracker, id: string, obs: seq<Observation>): (Tracker, Exit)
    requires Valid(t)
  {
    CheckTrace(UpdateStatusOp(t, id, Progress), id, obs)
  }

  /** The index of the first observation that ends the loop; the length of
      the trace when none does. */
  function FirstStop(obs: seq<Observation>): (k: nat)
    ensures k <= |obs|
    ensures forall j :: 0 <= j < k ==> !Stops(obs[j])
    ensures k < |obs| ==> Stops(obs[k])
    decreases |obs|
  {
    if |obs| == 0 then 0
    else if Stops(obs[0]) then 0
    else 1 + FirstStop(obs[1..])
  }

  /** The loop stops at the first ending observation and takes its exit;
      with none in the trace it is still polling. */
  lemma {:induction false} CheckTraceExit(t: Tracker, id: string, obs: seq<Observation>)
    requires Valid(t)
    ensures var k := FirstStop(obs);
      CheckTrace(t, id, obs).1 == if k < |obs| then ExitAt(obs[k]) else StillPolling
    decreases |obs|
  {
    if |obs| > 0 && !Stops(obs[0]) {
      var t1 := UpdateProgressOp(t, id, obs[0].downloaded, obs[0].total);
      CheckTraceExit(t1, id, obs[1..]);
      assert FirstStop(obs) == 1 + FirstStop(obs[1..]);
    }
  }

  /** Only the job's own snapshot can change: the insertion order, the job
      store, the tracked ids and every other snapshot are kept, and a job
      the tracker does not know leaves it untouched. */
  lemma {:induction false} CheckTraceFrame(t: Tracker, id: string, obs: seq<Observation>)
    requires Valid(t)
    ensures var r := CheckTrace(t, id, obs).0;
      r.order == t.order && r.store == t.store && r.entries.Keys == t.entries.Keys &&
      (forall k :: k in t.entries && k != id ==> r.entries[k] == t.entries[k]) &&
      (id !in t.entries ==> r == t)
    decreases |obs|
  {
    if |obs| > 0 && !Stops(obs[0]) {
      var t1 := UpdateProgressOp(t, id, obs[0].downloaded, obs[0].total);
      CheckTraceFrame(t1, id, obs[1..]);
    }
  }

  /** The job's snapshot when the first observation ends the loop. */
  lemma SnapshotAtStop(t: Tracker, id: string, o: Observation)
    requires Valid(t) && id in t.entries && Stops(o)
    ensures var r := CheckTrace(t, id, [o]).0;
      id in r.entries &&
      r.entries[id] == t.entries[id].(downloadedSize := o.downloaded, totalSize := o.total,
                                      status := ExitStatus(ExitAt(o)))
  {
    var t1 := UpdateProgressOp(t, id, o.downloaded, o.total);
    assert t1.entries[id] == t.entries[id].(downloadedSize := o.downloaded, totalSize := o.total);
  }

  /** The job's snapshot at the end: the sizes of the last observation
      polled, and the status of the exit taken (kept as it was while still
      polling); the other fields are kept. */
  lemma {:induction false} CheckTraceSnapshot(t: Tracker, id: string, obs: seq<Observation>)
    requires Valid(t) && id in t.entries && |obs| > 0
    ensures var r := CheckTrace(t, id, obs);
      var k := FirstStop(obs);
      var last := if k < |obs| then obs[k] else obs[|obs| - 1];
      var status := if r.1 == StillPolling then t.entries[id].status else ExitStatus(r.1);
      id in r.0.entries &&
      r.0.entries[id] == t.entries[id].(downloadedSize := last.downloaded,
                                        totalSize := last.total, status := status)
    decreases |obs|
  {
    var o := obs[0];
    var t1 := UpdateProgressOp(t, id, o.downloaded, o.total);
    if Stops(o) {
      assert CheckTrace(t, id, obs) == CheckTrace(t, id, [o]);
      SnapshotAtStop(t, id, o);
    } else {
      assert FirstStop(obs) == 1 + FirstStop(obs[1..]);
      assert CheckTrace(t, id, obs) == CheckTrace(t1, id, obs[1..]);
      if |obs| == 1 {
        assert t1.entries[id] == t.entries[id].(downloadedSize := o.downloaded, totalSize := o.total);
      } else {
        CheckTraceSnapshot(t1, id, obs[1..]);
      }
    }
  }

  /** After `checkProgress` the job's status is `Success`, `PausedNetwork`
      or `Failed` according to the exit, and `Progress` when still
      polling. */
  lemma CheckProgressStatus(t: Tracker, id: string, obs: seq<Observation>)
    requires Valid(t) && id in t.entries
    ensures var r := CheckProgressOp(t, id, obs);
      id in r.0.entries &&
      r.0.entries[id].status == if r.1 == StillPolling then Progress else ExitStatus(r.1)
  {
    var t0 := UpdateStatusOp(t, id, Progress);
    if |obs| == 0 {
    } else {
      CheckTraceSnapshot(t0, id, obs);
    }
  }

  /** A success observation wins even without a connection. */
  lemma SuccessWins(t: Tracker, id: string, obs: seq<Observation>)
    requires Valid(t) && FirstStop(obs) < |obs| && obs[FirstStop(obs)].state == Success
    ensures CheckProgressOp(t, id, obs).1 == Completed
  {
    CheckTraceExit(UpdateStatusOp(t, id, Progress), id, obs);
  }

  /** A `Failed` state observed offline is taken as a lost connection, not
      as a failure. */
  lemma FailedOfflineIsNetworkLoss(t: Tracker, id: string, obs: seq<Observation>)
    requires Valid(t) && FirstStop(obs) < |obs|
    requires obs[FirstStop(obs)].state == Failed && !obs[FirstStop(obs)].connected
    ensures CheckProgressOp(t, id, obs).1 == NetworkLost
  {
    CheckTraceExit(UpdateStatusOp(t, id, Progress), id, obs);
  }

  /** The percentage shown in the notification: `downloaded * 100 / total`,
      rounded toward zero, and 0 when the total is not positive. */
  function NotificationPercent(downloaded: Long, total: Long): int {
    var d, t := downloaded as int, total as int;
    if t > 0 then
      if d >= 0 then d * 100 / t else -((-d) * 100 / t)
    else 0
  }

  /** `q * t` grows with `q`. */
  lemma MulMonotone(q: int, r: int, t: nat)
    requires q <= r
    ensures q * t <= r * t
  {
  }

  /** The percentage is 0 without a positive total, between 0 and 100 while
      the downloaded size is within the total, and 100 once it reaches it. */
  lemma NotificationPercentBounds(downloaded: Long, total: Long)
    ensures total <= 0 ==> NotificationPercent(downloaded, total) == 0
    ensures total > 0 && 0 <= downloaded <= total ==> 0 <= NotificationPercent(downloaded, total) <= 100
    ensures total > 0 && downloaded == total ==> NotificationPercent(downloaded, total) == 100
  {
    var d, t := downloaded as int, total as int;
    if t > 0 && 0 <= d <= t {
      var n := d * 100;
      var q := n / t;
      assert n == q * t + n % t && 0 <= n % t < t;
      MulMonotone(d, t, 100);
      if q > 100 {
        MulMonotone(101, q, t);
        assert false;
      }
      if q < 0 {
        MulMonotone(q, -1, t);
        assert false;
      }
      if d == t {
        assert n == 100 * t;
        if q < 100 {
          MulMonotone(q + 1, 100, t);
          assert false;
        }
      }
    }
  }

  /** Kotlin's `Char.isWhitespace`. */
  predicate IsWhitespace(c: char) {
    ('\t' <= c <= '\r') || ('\U{1C}' <= c <= ' ') || c == '\U{A0}' || c == '\U{1680}' ||
    ('\U{2000}' <= c <= '\U{200A}') || c == '\U{2028}' || c == '\U{2029}' ||
    c == '\U{202F}' || c == '\U{205F}' || c == '\U{3000}'
  }

  /** `isBlank`: empty or whitespace only. */
  predicate IsBlank(s: string) {
    forall i :: 0 <= i < |s| ==> IsWhitespace(s[i])
  }

  class DownloadingWorker {
    const progressManager: ProgressManager
    var workerDownloadingModel: WorkerDownloadingModel

    constructor (progressManager: ProgressManager)
      ensures this.progressManager == progressManager
      ensures workerDownloadingModel == EMPTY_MODEL
    {
      this.progressManager := progressManager;
      workerDownloadingModel := EMPTY_MODEL;
    }

    /** `checkProgress`: sets the job's status to `Progress`, then polls:
        each observation is reported as progress, and the first one that
        ends the loop sets the status of its exit. */
    method CheckProgress(obs: seq<Observation>) returns (exit: Exit)
      requires Valid(progressManager.State())
      modifies progressManager`entries, progressManager`videosProgress
      ensures (progressManager.State(), exit) ==
        CheckProgressOp(old(progressManager.State()), workerDownloadingModel.id, obs)
    {
      var id := workerDownloadingModel.id;
      progressManager.UpdateStatus(id, Progress);
      ghost var goal := CheckTrace(progressManager.State(), id, obs);
      var i := 0;
      while i < |obs|
        invariant i <= |obs|
        invariant Valid(progressManager.State())
        invariant CheckTrace(progressManager.State(), id, obs[i..]) == goal
      {
        var o := obs[i];
        assert obs[i..][0] == o && obs[i..][1..] == obs[i + 1..];
        progressManager.UpdateProgress(id, o.downloaded, o.total);
        if o.state == Success {
          progressManager.UpdateStatus(id, Success);
          return Completed;
        }
        if !o.connected {
          progressManager.UpdateStatus(id, PausedNetwork);
          return NetworkLost;
        } else if o.state == Failed {
          progressManager.UpdateStatus(id, Failed);
          return DownloadFailed;
        }
        i := i + 1;
      }
      return StillPolling;
    }

    /** `doWork`: fails without a job description; succeeds at once, with
        the tracker untouched, for a blank job id; throws, with the tracker
        untouched, when the id does not read as a `Long` (the notification
        id is taken from it before anything else); otherwise runs the
        polling loop and succeeds whatever it returns. */
    method DoWork(inputData: Option<WorkerDownloadingModel>, obs: seq<Observation>)
      returns (result: WorkResult)
      requires Valid(progressManager.State())
      modifies this`workerDownloadingModel
      modifies progressManager`entries, progressManager`videosProgress
      ensures inputData.None? ==>
        (result == WorkFailure && workerDownloadingModel == old(workerDownloadingModel) &&
         progressManager.State() == old(progressManager.State()))
      ensures inputData.Some? ==> workerDownloadingModel == inputData.value
      ensures inputData.Some? && IsBlank(inputData.value.id) ==>
        result == WorkSuccess && progressManager.State() == old(progressManager.State())
      ensures inputData.Some? && !IsBlank(inputData.value.id) && ToLongOrNull(inputData.value.id).None? ==>
        result == WorkThrows && progressManager.State() == old(progressManager.State())
      ensures inputData.Some? && !IsBlank(inputData.value.id) && ToLongOrNull(inputData.value.id).Some? ==>
        result == WorkSuccess &&
        progressManager.State() == CheckProgressOp(old(progressManager.State()), inputData.value.id, obs).0
    {
      if inputData.None? {
        return WorkFailure;
      }
      workerDownloadingModel := inputData.value;
      if IsBlank(workerDownloadingModel.id) {
        return WorkSuccess;
      }
      // `getInt()` is `toLong().toInt()`
      if ToLongOrNull(workerDownloadingModel.id).None? {
        return WorkThrows;
      }
      var _ := CheckProgress(obs);
      return WorkSuccess;
    }
  }
}
