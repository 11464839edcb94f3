/** The in-progress tracker: an insertion-ordered map from job id to the
    job's snapshot shown by the UI, the list last published to observers,
    and the job store behind the repository (keyed by `downloadId`).

    The pure functions over `Tracker` say what each operation does to the
    whole state; the class `ProgressManager` performs the same operations
    on its fields and is proved to agree with them. */
module Progress {
  import opened Wrappers
  import opened Text
  import opened Components
  import opened Files

  /** A Kotlin `Long`. */
  type Long = x: int | LONG_MIN <= x <= LONG_MAX

  /** `downloadId.toString()`: the text a job's id is known by in the map
      and on the screen. */
  function IdText(id: Long): string {
    LongToString(id)
  }

  /** Different ids have different texts. */
  lemma IdTextInjective(m: Long, n: Long)
    requires IdText(m) == IdText(n)
    ensures m == n
  {
    LongToStringInjective(m, n);
  }

  lemma IdTextInjectiveAll()
    ensures forall m: Long, n: Long :: IdText(m) == IdText(n) ==> m == n
  {
    forall m: Long, n: Long | IdText(m) == IdText(n)
      ensures m == n
    {
      IdTextInjective(m, n);
    }
  }

  /** A row of the job store. */
  datatype VideoDB = VideoDB(
    downloadId: Long,
    url: string,
    fileName: string,
    destinationDirectory: string,
    mimeType: string,
    headers: Option<string>,
    showNotification: bool,
    supportChunks: bool,
    status: string,
    downloadedSize: Long,
    totalSize: Long)

  /** The snapshot of a job the UI shows (without the `Float` progress). */
  datatype VideoUi = VideoUi(
    id: string,
    url: string,
    fileName: string,
    destinationDirectory: string,
    mimeType: string,
    status: DownloadingState,
    downloadedSize: Long,
    totalSize: Long)

  /** `toUiModel`: the id becomes its decimal text and the stored status
      name is read back into a state. */
  function ToUiModel(db: VideoDB): VideoUi {
    VideoUi(IdText(db.downloadId), db.url, db.fileName, db.destinationDirectory,
            db.mimeType, FromName(db.status), db.downloadedSize, db.totalSize)
  }

  /** `toInProgressDB`: the stored row with the snapshot's status name,
      downloaded size and total size. */
  function ToInProgressDB(ui: VideoUi, model: VideoDB): VideoDB {
    model.(status := Name(ui.status), downloadedSize := ui.downloadedSize, totalSize := ui.totalSize)
  }

  /** Converting a row to a snapshot and writing the snapshot back into the
      row gives the row back exactly when its status text names a state; a
      row with any other status text (the empty default among them) comes
      back with status "Idle". */
  lemma RowRoundTrip(db: VideoDB)
    ensures ToInProgressDB(ToUiModel(db), db) == db <==> Name(FromName(db.status)) == db.status
    ensures Name(FromName(db.status)) != db.status ==> ToInProgressDB(ToUiModel(db), db).status == "Idle"
  {
  }

  /** Writing a snapshot into a row changes only the status, the downloaded
      size and the total size, and the snapshot is read back from the
      result; writing it twice is writing it once. */
  lemma SnapshotRoundTrip(ui: VideoUi, model: VideoDB)
    ensures var r := ToInProgressDB(ui, model);
      r.downloadId == model.downloadId && r.url == model.url && r.fileName == model.fileName
      && r.destinationDirectory == model.destinationDirectory && r.mimeType == model.mimeType
      && r.headers == model.headers && r.showNotification == model.showNotification
      && r.supportChunks == model.supportChunks
    ensures var u := ToUiModel(ToInProgressDB(ui, model));
      u.status == ui.status && u.downloadedSize == ui.downloadedSize && u.totalSize == ui.totalSize
    ensures ToInProgressDB(ui, ToInProgressDB(ui, model)) == ToInProgressDB(ui, model)
  {
    FromNameOfName(ui.status);
  }

  // ---------------------------------------------------------------------
  // The tracker state

  /** The order the keys were first inserted in, the map itself, the list
      last published to observers, and the job store. */
  datatype Tracker = Tracker(
    order: seq<string>,
    entries: map<string, VideoUi>,
    published: seq<VideoUi>,
    store: map<Long, VideoDB>)

  predicate Distinct(s: seq<string>) {
    forall i, j :: 0 <= i < j < |s| ==> s[i] != s[j]
  }

  /** The order lists every key once, each snapshot is stored under its own
      id, and each row under its own `downloadId`. */
  predicate Valid(t: Tracker) {
    Distinct(t.order)
    && (forall i :: 0 <= i < |t.order| ==> t.order[i] in t.entries)
    && (forall k :: k in t.entries ==> k in t.order)
    && (forall k :: k in t.entries ==> t.entries[k].id == k)
    && (forall k :: k in t.store ==> t.store[k].downloadId == k)
  }

  /** `inprogressMap.values.toList()`: the snapshots in insertion order. */
  function Values(t: Tracker): (vs: seq<VideoUi>)
    requires Valid(t)
    ensures |vs| == |t.order|
    ensures forall i :: 0 <= i < |vs| ==> vs[i] == t.entries[t.order[i]]
  {
    seq(|t.order|, i requires 0 <= i < |t.order| && t.order[i] in t.entries => t.entries[t.order[i]])
  }

  /** The published snapshots have pairwise different ids. */
  lemma ValuesIdsDistinct(t: Tracker)
    requires Valid(t)
    ensures forall i, j :: 0 <= i < j < |Values(t)| ==> Values(t)[i].id != Values(t)[j].id
  {
  }

  /** `inprogressMap[k] = v`: a new key goes to the end of the order, an
      existing key keeps its place. */
  function Put(t: Tracker, k: string, v: VideoUi): (r: Tracker)
    requires Valid(t) && v.id == k
    ensures Valid(r)
    ensures r.entries == t.entries[k := v] && r.published == t.published && r.store == t.store
    ensures k in t.entries ==> r.order == t.order
    ensures k !in t.entries ==> r.order == t.order + [k]
  {
    t.(order := if k in t.entries then t.order else t.order + [k], entries := t.entries[k := v])
  }

  /** `emitProgressUpdates`: publishes the map's values. */
  function Emit(t: Tracker): Tracker
    requires Valid(t)
  {
    t.(published := Values(t))
  }

  /** `updateProgress`: for a tracked id, only that snapshot's downloaded
      and total sizes change and the map's values are published; for an
      unknown id nothing changes. */
  function UpdateProgressOp(t: Tracker, id: string, downloaded: Long, total: Long): (r: Tracker)
    requires Valid(t)
    ensures Valid(r)
    ensures id !in t.entries ==> r == t
    ensures id in t.entries ==>
      r.order == t.order && r.store == t.store && r.entries.Keys == t.entries.Keys
      && (forall k :: k in t.entries && k != id ==> r.entries[k] == t.entries[k])
      && r.entries[id] == t.entries[id].(downloadedSize := downloaded, totalSize := total)
      && r.published == Values(r)
  {
    if id in t.entries then
      Emit(Put(t, id, t.entries[id].(downloadedSize := downloaded, totalSize := total)))
    else t
  }

  /** `updateStatus`: for a tracked id, only that snapshot's status changes,
      to any state whatever the current one; the map's values are
      published. For an unknown id nothing changes. */
  function UpdateStatusOp(t: Tracker, id: string, downState: DownloadingState): (r: Tracker)
    requires Valid(t)
    ensures Valid(r)
    ensures id !in t.entries ==> r == t
    ensures id in t.entries ==>
      r.order == t.order && r.store == t.store && r.entries.Keys == t.entries.Keys
      && (forall k :: k in t.entries && k != id ==> r.entries[k] == t.entries[k])
      && r.entries[id] == t.entries[id].(status := downState)
      && r.published == Values(r)
  {
    if id in t.entries then Emit(Put(t, id, t.entries[id].(status := downState))) else t
  }

  /** The keys of `order` other than `k`, in order. */
  function RemoveKey(order: seq<string>, k: string): (r: seq<string>)
    ensures forall x :: x in r <==> x in order && x != k
    ensures forall i :: 0 <= i < |r| ==> r[i] in order && r[i] != k
  {
    if |order| == 0 then []
    else
      var rest := RemoveKey(order[1..], k);
      assert forall x :: x in order[1..] ==> x in order;
      if order[0] == k then rest else [order[0]] + rest
  }

  /** Removing a key keeps the others pairwise different. */
  lemma {:induction false} RemoveKeyDistinct(order: seq<string>, k: string)
    requires Distinct(order)
    ensures Distinct(RemoveKey(order, k))
    decreases |order|
  {
    if |order| > 0 {
      var tail := order[1..];
      assert Distinct(tail) by {
        forall i, j | 0 <= i < j < |tail|
          ensures tail[i] != tail[j]
        {
          assert tail[i] == order[i + 1] && tail[j] == order[j + 1];
        }
      }
      RemoveKeyDistinct(tail, k);
      assert forall j :: 0 <= j < |tail| ==> tail[j] != order[0];
    }
  }

  /** `deleteVideo`: the id leaves the map at once; the row goes only when
      the id reads as a `Long`, since otherwise `toLong` throws first. The
      published list is not refreshed. */
  function DeleteOp(t: Tracker, id: string): (r: Tracker)
    requires Valid(t)
    ensures Valid(r)
    ensures r.entries == t.entries - {id} && r.published == t.published
    ensures forall k :: k in r.order <==> k in t.order && k != id
    ensures ToLongOrNull(id).None? ==> r.store == t.store
    ensures ToLongOrNull(id).Some? ==> r.store == t.store - {ToLongOrNull(id).value}
  {
    RemoveKeyDistinct(t.order, id);
    var removed := t.(order := RemoveKey(t.order, id), entries := t.entries - {id});
    match ToLongOrNull(id)
    case Some(k) => removed.(store := removed.store - {k})
    case None => removed
  }

  /** `addLocalVideo`: when the store has no row with the job's id, the
      row is stored, its snapshot is put under the id's decimal text and
      the values are published; otherwise nothing changes. */
  function AddLocalVideoOp(t: Tracker, db: VideoDB): (r: Tracker)
    requires Valid(t)
    ensures Valid(r)
    ensures db.downloadId in t.store ==> r == t
    ensures db.downloadId !in t.store ==>
      r.store == t.store[db.downloadId := db]
      && r.entries == t.entries[IdText(db.downloadId) := ToUiModel(db)]
      && r.published == Values(r)
  {
    if db.downloadId in t.store then t
    else Emit(Put(t.(store := t.store[db.downloadId := db]), IdText(db.downloadId), ToUiModel(db)))
  }

  /** Adding the same job twice is adding it once. */
  lemma AddLocalVideoIdempotent(t: Tracker, db: VideoDB)
    requires Valid(t)
    ensures AddLocalVideoOp(AddLocalVideoOp(t, db), db) == AddLocalVideoOp(t, db)
  {
  }

  // ---------------------------------------------------------------------
  // Flushing to the store (`batchUpdateDatabase`)

  /** `associateBy { it.downloadId.toString() }`: the rows keyed by their
      id's decimal text. */
  function DbMap(store: map<Long, VideoDB>): map<string, VideoDB> {
    IdTextInjectiveAll();
    map k | k in store :: IdText(k) := store[k]
  }

  /** Every row is found under its id's decimal text. */
  lemma DbMapOfKey(store: map<Long, VideoDB>, k: Long)
    requires k in store
    ensures IdText(k) in DbMap(store) && DbMap(store)[IdText(k)] == store[k]
  {
    IdTextInjectiveAll();
  }

  /** A row is found only under its id's decimal text. */
  lemma DbMapKey(store: map<Long, VideoDB>, id: string) returns (k: Long)
    requires id in DbMap(store)
    ensures k in store && IdText(k) == id && DbMap(store)[id] == store[k]
  {
    IdTextInjectiveAll();
    k :| k in store && IdText(k) == id;
  }

  /** What the flush writes for one snapshot: when its id finds a row and
      the row with the snapshot's status and sizes differs from it, that
      new row; otherwise nothing. */
  function WriteFor(ui: VideoUi, dbMap: map<string, VideoDB>): seq<VideoDB> {
    if ui.id in dbMap then
      var updated := ToInProgressDB(ui, dbMap[ui.id]);
      if updated != dbMap[ui.id] then [updated] else []
    else []
  }

  /** The rows the flush writes, in order. */
  function FlushWrites(values: seq<VideoUi>, dbMap: map<string, VideoDB>): seq<VideoDB> {
    if |values| == 0 then []
    else FlushWrites(values[..|values| - 1], dbMap) + WriteFor(values[|values| - 1], dbMap)
  }

  lemma FlushStep(values: seq<VideoUi>, dbMap: map<string, VideoDB>, i: nat)
    requires i < |values|
    ensures FlushWrites(values[..i + 1], dbMap) == FlushWrites(values[..i], dbMap) + WriteFor(values[i], dbMap)
  {
    assert values[..i + 1][..i] == values[..i];
  }

  /** `r` replaces a stored row that differs from it in the status or the
      sizes and in nothing else. */
  predicate ChangesRow(db: map<Long, VideoDB>, r: VideoDB) {
    r.downloadId in db && r != db[r.downloadId]
    && r == db[r.downloadId].(status := r.status, downloadedSize := r.downloadedSize, totalSize := r.totalSize)
  }

  /** Each write of a flush changes a stored row, and keeps all its fields
      but the status and the sizes. */
  lemma {:induction false} FlushWritesChangeRows(values: seq<VideoUi>, db: map<Long, VideoDB>)
    requires forall k :: k in db ==> db[k].downloadId == k
    ensures forall r :: r in FlushWrites(values, DbMap(db)) ==> ChangesRow(db, r)
    decreases |values|
  {
    if |values| > 0 {
      var before := FlushWrites(values[..|values| - 1], DbMap(db));
      FlushWritesChangeRows(values[..|values| - 1], db);
      var ui := values[|values| - 1];
      var w := WriteFor(ui, DbMap(db));
      assert FlushWrites(values, DbMap(db)) == before + w;
      if ui.id in DbMap(db) {
        var k := DbMapKey(db, ui.id);
        assert ToInProgressDB(ui, db[k]).downloadId == k;
      }
    }
  }

  /** Upserting the rows one after the other. */
  function Upserts(store: map<Long, VideoDB>, ws: seq<VideoDB>): map<Long, VideoDB> {
    if |ws| == 0 then store
    else Upserts(store, ws[..|ws| - 1])[ws[|ws| - 1].downloadId := ws[|ws| - 1]]
  }

  lemma UpsertsOneMore(store: map<Long, VideoDB>, ws: seq<VideoDB>, extra: seq<VideoDB>)
    requires |extra| <= 1
    ensures Upserts(store, ws + extra) ==
      if |extra| == 0 then Upserts(store, ws) else Upserts(store, ws)[extra[0].downloadId := extra[0]]
  {
    if |extra| == 0 {
      assert ws + extra == ws;
    } else {
      assert (ws + extra)[..|ws|] == ws;
    }
  }

  /** The loop of `batchUpdateDatabase`: for each snapshot, the row its id
      finds is rebuilt with the snapshot's status and sizes and upserted
      when it differs. Returns the rows written, in order, and the store
      after the upserts. */
  method FlushRows(videosToUpdate: seq<VideoUi>, dbMap: map<string, VideoDB>, db: map<Long, VideoDB>)
    returns (written: seq<VideoDB>, store: map<Long, VideoDB>)
    ensures written == FlushWrites(videosToUpdate, dbMap)
    ensures store == Upserts(db, written)
  {
    written := [];
    store := db;
    var i := 0;
    while i < |videosToUpdate|
      invariant i <= |videosToUpdate|
      invariant written == FlushWrites(videosToUpdate[..i], dbMap)
      invariant store == Upserts(db, written)
    {
      var uiModel := videosToUpdate[i];
      FlushStep(videosToUpdate, dbMap, i);
      if uiModel.id in dbMap {
        var inProgressVideo := dbMap[uiModel.id];
        var inProgressVideoNew := ToInProgressDB(uiModel, inProgressVideo);
        if inProgressVideoNew != inProgressVideo {
          assert WriteFor(uiModel, dbMap) == [inProgressVideoNew];
          UpsertsOneMore(db, written, [inProgressVideoNew]);
          store := store[inProgressVideoNew.downloadId := inProgressVideoNew];
          written := written + [inProgressVideoNew];
        } else {
          assert WriteFor(uiModel, dbMap) == [] && written + [] == written;
        }
      } else {
        assert WriteFor(uiModel, dbMap) == [] && written + [] == written;
      }
      i := i + 1;
    }
    assert videosToUpdate[..i] == videosToUpdate;
  }

  /** The last snapshot with the given id. */
  function Latest(values: seq<VideoUi>, id: string): Option<VideoUi> {
    if |values| == 0 then None
    else if values[|values| - 1].id == id then Some(values[|values| - 1])
    else Latest(values[..|values| - 1], id)
  }

  /** The store as it should be after a flush: every row whose id has a
      snapshot carries that snapshot's status and sizes; the others are as
      they were. */
  function Synced(db: map<Long, VideoDB>, values: seq<VideoUi>): (s: map<Long, VideoDB>)
    ensures s.Keys == db.Keys
  {
    map k | k in db ::
      match Latest(values, IdText(k))
      case Some(ui) => ToInProgressDB(ui, db[k])
      case None => db[k]
  }

  predicate DistinctIds(values: seq<VideoUi>) {
    forall i, j :: 0 <= i < j < |values| ==> values[i].id != values[j].id
  }

  /** With pairwise different ids, the snapshot at position `i` is the one
      found for its id. */
  lemma {:induction false} LatestOfDistinct(values: seq<VideoUi>, i: nat)
    requires DistinctIds(values) && i < |values|
    ensures Latest(values, values[i].id) == Some(values[i])
    decreases |values|
  {
    if i < |values| - 1 {
      LatestOfDistinct(values[..|values| - 1], i);
    }
  }

  /** No snapshot carries the id: none is found for it. */
  lemma {:induction false} LatestAbsent(values: seq<VideoUi>, id: string)
    requires forall j :: 0 <= j < |values| ==> values[j].id != id
    ensures Latest(values, id) == None
    decreases |values|
  {
    if |values| > 0 {
      LatestAbsent(values[..|values| - 1], id);
    }
  }

  /** A last snapshot with another id leaves row `k` of `Synced` as it was. */
  lemma SyncedKeep(db: map<Long, VideoDB>, values: seq<VideoUi>, k: Long)
    requires |values| > 0 && k in db
    requires IdText(k) != values[|values| - 1].id
    ensures Synced(db, values)[k] == Synced(db, values[..|values| - 1])[k]
  {
    assert Latest(values, IdText(k)) == Latest(values[..|values| - 1], IdText(k));
  }

  /** A snapshot whose id finds no row leaves `Synced` as it was. */
  lemma SyncedUnchanged(db: map<Long, VideoDB>, values: seq<VideoUi>)
    requires |values| > 0
    requires forall k :: k in db ==> IdText(k) != values[|values| - 1].id
    ensures Synced(db, values) == Synced(db, values[..|values| - 1])
  {
    forall k | k in db
      ensures Synced(db, values)[k] == Synced(db, values[..|values| - 1])[k]
    {
      SyncedKeep(db, values, k);
    }
  }

  /** A snapshot whose id finds row `k`, and no earlier snapshot with that
      id, sets row `k` of `Synced` and no other. */
  lemma SyncedUpdate(db: map<Long, VideoDB>, values: seq<VideoUi>, k0: Long)
    requires |values| > 0 && k0 in db
    requires IdText(k0) == values[|values| - 1].id
    requires Latest(values[..|values| - 1], values[|values| - 1].id) == None
    ensures Synced(db, values[..|values| - 1])[k0] == db[k0]
    ensures Synced(db, values) ==
      Synced(db, values[..|values| - 1])[k0 := ToInProgressDB(values[|values| - 1], db[k0])]
  {
    var m := |values| - 1;
    var ui := values[m];
    var after := Synced(db, values);
    var before := Synced(db, values[..m]);
    var expected := before[k0 := ToInProgressDB(ui, db[k0])];
    assert Latest(values, ui.id) == Some(ui);
    forall k | k in after
      ensures after[k] == expected[k]
    {
      if k != k0 {
        if IdText(k) == IdText(k0) {
          IdTextInjective(k, k0);
        }
        SyncedKeep(db, values, k);
      }
    }
    MapsEqual(after, expected);
  }

  lemma MapsEqual<K, V>(a: map<K, V>, b: map<K, V>)
    requires a.Keys == b.Keys
    requires forall k :: k in a ==> a[k] == b[k]
    ensures a == b
  {
  }

  lemma UpdateSame<K, V>(m: map<K, V>, k: K)
    requires k in m
    ensures m[k := m[k]] == m
  {
  }

  /** A last snapshot whose id finds row `k0` upserts that row rebuilt
      with its status and sizes, unless the rebuilt row equals it. */
  lemma FlushLastFound(values: seq<VideoUi>, db: map<Long, VideoDB>, k0: Long)
    requires |values| > 0 && k0 in db && IdText(k0) == values[|values| - 1].id
    requires db[k0].downloadId == k0
    ensures var before := Upserts(db, FlushWrites(values[..|values| - 1], DbMap(db)));
      var updated := ToInProgressDB(values[|values| - 1], db[k0]);
      Upserts(db, FlushWrites(values, DbMap(db))) ==
        if updated != db[k0] then before[k0 := updated] else before
  {
    var ui := values[|values| - 1];
    DbMapOfKey(db, k0);
    var before := FlushWrites(values[..|values| - 1], DbMap(db));
    var w := WriteFor(ui, DbMap(db));
    assert FlushWrites(values, DbMap(db)) == before + w;
    UpsertsOneMore(db, before, w);
  }

  /** The step of `FlushSyncs` for a last snapshot whose id finds row `k0`. */
  lemma FlushSyncsFound(values: seq<VideoUi>, db: map<Long, VideoDB>, k0: Long)
    requires |values| > 0 && DistinctIds(values)
    requires k0 in db && IdText(k0) == values[|values| - 1].id
    requires Upserts(db, FlushWrites(values[..|values| - 1], DbMap(db))) == Synced(db, values[..|values| - 1])
    requires db[k0].downloadId == k0
    ensures Upserts(db, FlushWrites(values, DbMap(db))) == Synced(db, values)
  {
    var m := |values| - 1;
    var prefix := values[..m];
    var ui := values[m];
    assert forall j :: 0 <= j < m ==> prefix[j].id != ui.id;
    LatestAbsent(prefix, ui.id);
    SyncedUpdate(db, values, k0);
    FlushLastFound(values, db, k0);
    if ToInProgressDB(ui, db[k0]) == db[k0] {
      UpdateSame(Synced(db, prefix), k0);
    }
  }

  /** The step of `FlushSyncs` for a last snapshot whose id finds no row. */
  lemma FlushSyncsMissing(values: seq<VideoUi>, db: map<Long, VideoDB>)
    requires |values| > 0 && values[|values| - 1].id !in DbMap(db)
    requires Upserts(db, FlushWrites(values[..|values| - 1], DbMap(db))) == Synced(db, values[..|values| - 1])
    ensures Upserts(db, FlushWrites(values, DbMap(db))) == Synced(db, values)
  {
    var ui := values[|values| - 1];
    forall k | k in db
      ensures IdText(k) != ui.id
    {
      DbMapOfKey(db, k);
    }
    SyncedUnchanged(db, values);
    UpsertsOneMore(db, FlushWrites(values[..|values| - 1], DbMap(db)), WriteFor(ui, DbMap(db)));
  }

  /** The writes of a flush bring the store to `Synced`: nothing but the
      rows of tracked jobs changes, whichever rows were skipped as equal. */
  lemma {:induction false} FlushSyncs(values: seq<VideoUi>, db: map<Long, VideoDB>)
    requires forall k :: k in db ==> db[k].downloadId == k
    requires DistinctIds(values)
    ensures Upserts(db, FlushWrites(values, DbMap(db))) == Synced(db, values)
    decreases |values|
  {
    if |values| > 0 {
      var m := |values| - 1;
      assert DistinctIds(values[..m]);
      FlushSyncs(values[..m], db);
      var ui := values[m];
      if ui.id in DbMap(db) {
        var k0 := DbMapKey(db, ui.id);
        FlushSyncsFound(values, db, k0);
      } else {
        FlushSyncsMissing(values, db);
      }
    }
  }

  /** A flush writes nothing when every row its snapshots find already
      carries their status and sizes. */
  lemma {:induction false} NoWritesWhenSynced(values: seq<VideoUi>, dbMap: map<string, VideoDB>)
    requires forall i :: 0 <= i < |values| && values[i].id in dbMap ==>
      ToInProgressDB(values[i], dbMap[values[i].id]) == dbMap[values[i].id]
    ensures FlushWrites(values, dbMap) == []
    decreases |values|
  {
    if |values| > 0 {
      NoWritesWhenSynced(values[..|values| - 1], dbMap);
    }
  }

  /** After a flush, every snapshot finds its row already carrying its
      status and sizes. */
  lemma SyncedRowsAgree(values: seq<VideoUi>, db: map<Long, VideoDB>, i: nat)
    requires DistinctIds(values) && i < |values|
    requires values[i].id in DbMap(Synced(db, values))
    ensures var row := DbMap(Synced(db, values))[values[i].id];
      ToInProgressDB(values[i], row) == row
  {
    var s := Synced(db, values);
    var k := DbMapKey(s, values[i].id);
    LatestOfDistinct(values, i);
    assert s[k] == ToInProgressDB(values[i], db[k]);
    SnapshotRoundTrip(values[i], db[k]);
  }

  /** Synchronising a synchronised store with the same snapshots changes
      nothing. */
  lemma SyncedIdempotent(values: seq<VideoUi>, db: map<Long, VideoDB>)
    ensures Synced(Synced(db, values), values) == Synced(db, values)
  {
    var s := Synced(db, values);
    forall k | k in s
      ensures Synced(s, values)[k] == s[k]
    {
      match Latest(values, IdText(k))
      case Some(ui) => SnapshotRoundTrip(ui, db[k]);
      case None =>
    }
  }

  /** A second flush right after the first writes nothing and leaves the
      store as it is. */
  lemma FlushIdempotent(values: seq<VideoUi>, db: map<Long, VideoDB>)
    requires DistinctIds(values)
    ensures var s := Synced(db, values);
      FlushWrites(values, DbMap(s)) == [] && Synced(s, values) == s
  {
    var s := Synced(db, values);
    forall i | 0 <= i < |values| && values[i].id in DbMap(s)
      ensures ToInProgressDB(values[i], DbMap(s)[values[i].id]) == DbMap(s)[values[i].id]
    {
      SyncedRowsAgree(values, db, i);
    }
    NoWritesWhenSynced(values, DbMap(s));
    SyncedIdempotent(values, db);
  }

  /** `batchUpdateDatabase`: the tracked snapshots are flushed into the
      store; the map and the published list stay. */
  function BatchOp(t: Tracker): Tracker
    requires Valid(t)
  {
    t.(store := Upserts(t.store, FlushWrites(Values(t), DbMap(t.store))))
  }

  /** In the values of a valid tracker, the snapshot found for an id is
      the map's entry for it. */
  lemma LatestOfValues(t: Tracker, id: string)
    requires Valid(t)
    ensures Latest(Values(t), id) == if id in t.entries then Some(t.entries[id]) else None
  {
    var vs := Values(t);
    ValuesIdsDistinct(t);
    if id in t.entries {
      var i :| 0 <= i < |t.order| && t.order[i] == id;
      LatestOfDistinct(vs, i);
    } else {
      assert forall i :: 0 <= i < |vs| ==> vs[i].id != id;
      LatestAbsent(vs, id);
    }
  }

  /** The flush changes exactly the rows of tracked jobs: a row whose id's
      decimal text is a key of the map gets that snapshot's status and
      sizes, every other row is kept, and no row is added or removed. */
  lemma BatchOpEffect(t: Tracker)
    requires Valid(t)
    ensures BatchOp(t).store == Synced(t.store, Values(t))
    ensures BatchOp(t).store.Keys == t.store.Keys
    ensures forall k :: k in t.store ==>
      BatchOp(t).store[k] ==
        if IdText(k) in t.entries then ToInProgressDB(t.entries[IdText(k)], t.store[k])
        else t.store[k]
  {
    var vs := Values(t);
    ValuesIdsDistinct(t);
    FlushSyncs(vs, t.store);
    forall k | k in t.store
      ensures Latest(vs, IdText(k)) ==
        if IdText(k) in t.entries then Some(t.entries[IdText(k)]) else None
    {
      LatestOfValues(t, IdText(k));
    }
  }

  /** A second flush right after the first writes nothing and changes
      nothing. */
  lemma BatchOpIdempotent(t: Tracker)
    requires Valid(t)
    ensures Valid(BatchOp(t))
    ensures FlushWrites(Values(BatchOp(t)), DbMap(BatchOp(t).store)) == []
    ensures BatchOp(BatchOp(t)) == BatchOp(t)
  {
    var vs := Values(t);
    ValuesIdsDistinct(t);
    BatchOpEffect(t);
    assert Valid(BatchOp(t));
    assert Values(BatchOp(t)) == vs;
    FlushIdempotent(vs, t.store);
  }

  // ---------------------------------------------------------------------
  // Seeding from the store

  predicate DistinctRows(rows: seq<VideoDB>) {
    forall i, j :: 0 <= i < j < |rows| ==> rows[i].downloadId != rows[j].downloadId
  }

  /** The keys the listed rows put into the map, in insertion order: each
      row's id text, unless an earlier row put it already. */
  function SeedOrder(rows: seq<VideoDB>): seq<string> {
    if |rows| == 0 then []
    else
      var before := SeedOrder(rows[..|rows| - 1]);
      var id := IdText(rows[|rows| - 1].downloadId);
      if id in before then before else before + [id]
  }

  /** The map the listed rows fill: each row's snapshot under its id text,
      a later row replacing an earlier one. */
  function SeedEntries(rows: seq<VideoDB>): map<string, VideoUi> {
    if |rows| == 0 then map[]
    else
      var row := rows[|rows| - 1];
      SeedEntries(rows[..|rows| - 1])[IdText(row.downloadId) := ToUiModel(row)]
  }

  /** The store holding the listed rows. */
  function StoreOf(rows: seq<VideoDB>): map<Long, VideoDB> {
    if |rows| == 0 then map[]
    else StoreOf(rows[..|rows| - 1])[rows[|rows| - 1].downloadId := rows[|rows| - 1]]
  }

  /** The listed rows' snapshots, in listing order. */
  function Snapshots(rows: seq<VideoDB>): (us: seq<VideoUi>)
    ensures |us| == |rows|
  {
    if |rows| == 0 then [] else Snapshots(rows[..|rows| - 1]) + [ToUiModel(rows[|rows| - 1])]
  }

  lemma {:induction false} SnapshotsAt(rows: seq<VideoDB>, i: nat)
    requires i < |rows|
    ensures Snapshots(rows)[i] == ToUiModel(rows[i])
    decreases |rows|
  {
    if i < |rows| - 1 {
      SnapshotsAt(rows[..|rows| - 1], i);
    }
  }

  /** The tracker at start-up: each listed row's snapshot is put into the
      map, and the list of those snapshots is published. */
  function Seed(rows: seq<VideoDB>): Tracker {
    Tracker(SeedOrder(rows), SeedEntries(rows), Snapshots(rows), StoreOf(rows))
  }

  /** The seeded order lists each key of the seeded map once, and every
      snapshot sits under its own id. */
  lemma {:induction false} SeedKeys(rows: seq<VideoDB>)
    ensures forall k :: k in SeedEntries(rows) <==> k in SeedOrder(rows)
    ensures Distinct(SeedOrder(rows))
    ensures forall k :: k in SeedEntries(rows) ==> SeedEntries(rows)[k].id == k
    decreases |rows|
  {
    if |rows| > 0 {
      SeedKeys(rows[..|rows| - 1]);
    }
  }

  /** Every row of the seeded store is a listed row, under its own id. */
  lemma {:induction false} SeedStore(rows: seq<VideoDB>)
    ensures forall k :: k in StoreOf(rows) ==> StoreOf(rows)[k].downloadId == k && StoreOf(rows)[k] in rows
    decreases |rows|
  {
    if |rows| > 0 {
      var m := |rows| - 1;
      var prev := StoreOf(rows[..m]);
      SeedStore(rows[..m]);
      forall k | k in StoreOf(rows) && k != rows[m].downloadId
        ensures StoreOf(rows)[k].downloadId == k && StoreOf(rows)[k] in rows
      {
        assert StoreOf(rows)[k] == prev[k];
        var j :| 0 <= j < m && rows[..m][j] == prev[k];
        assert rows[j] == prev[k];
      }
    }
  }

  /** For rows with pairwise different ids the seeded store holds every
      listed row under its id. */
  lemma {:induction false} SeedStoreHolds(rows: seq<VideoDB>)
    requires DistinctRows(rows)
    ensures forall i :: 0 <= i < |rows| ==>
      rows[i].downloadId in StoreOf(rows) && StoreOf(rows)[rows[i].downloadId] == rows[i]
    decreases |rows|
  {
    if |rows| > 0 {
      var m := |rows| - 1;
      assert DistinctRows(rows[..m]);
      SeedStoreHolds(rows[..m]);
      forall i | 0 <= i < m
        ensures rows[i].downloadId in StoreOf(rows) && StoreOf(rows)[rows[i].downloadId] == rows[i]
      {
        assert rows[..m][i] == rows[i];
        assert rows[i].downloadId != rows[m].downloadId;
      }
    }
  }

  /** One more listed row: its id text joins the order unless present,
      its snapshot goes under that text and the row into the store. */
  lemma SeedStep(rows: seq<VideoDB>, i: nat)
    requires i < |rows|
    ensures var id := IdText(rows[i].downloadId);
      && (id in SeedEntries(rows[..i]) <==> id in SeedOrder(rows[..i]))
      && SeedOrder(rows[..i + 1]) == (if id in SeedOrder(rows[..i]) then SeedOrder(rows[..i]) else SeedOrder(rows[..i]) + [id])
      && SeedEntries(rows[..i + 1]) == SeedEntries(rows[..i])[id := ToUiModel(rows[i])]
      && StoreOf(rows[..i + 1]) == StoreOf(rows[..i])[rows[i].downloadId := rows[i]]
      && Snapshots(rows[..i + 1]) == Snapshots(rows[..i]) + [ToUiModel(rows[i])]
  {
    assert rows[..i + 1][..i] == rows[..i];
    SeedKeys(rows[..i]);
  }

  /** The seeded tracker is valid, whatever rows are listed. */
  lemma SeedValid(rows: seq<VideoDB>)
    ensures Valid(Seed(rows))
  {
    SeedKeys(rows);
    SeedStore(rows);
  }

  /** For rows with pairwise different ids, each row's id text is new when
      the row is put. */
  lemma IdTextFresh(rows: seq<VideoDB>)
    requires DistinctRows(rows) && |rows| > 0
    ensures forall i :: 0 <= i < |rows| - 1 ==>
      IdText(rows[i].downloadId) != IdText(rows[|rows| - 1].downloadId)
  {
    var m := |rows| - 1;
    forall i | 0 <= i < m
      ensures IdText(rows[i].downloadId) != IdText(rows[m].downloadId)
    {
      if IdText(rows[i].downloadId) == IdText(rows[m].downloadId) {
        IdTextInjective(rows[i].downloadId, rows[m].downloadId);
      }
    }
  }

  /** For rows with pairwise different ids, the order lists every row's id
      text, in listing order. */
  lemma {:induction false} SeedOrderOfDistinct(rows: seq<VideoDB>)
    requires DistinctRows(rows)
    ensures |SeedOrder(rows)| == |rows|
    ensures forall i :: 0 <= i < |rows| ==> SeedOrder(rows)[i] == IdText(rows[i].downloadId)
    decreases |rows|
  {
    if |rows| > 0 {
      var m := |rows| - 1;
      assert DistinctRows(rows[..m]);
      SeedOrderOfDistinct(rows[..m]);
      IdTextFresh(rows);
      var before := SeedOrder(rows[..m]);
      var id := IdText(rows[m].downloadId);
      forall i | 0 <= i < m
        ensures before[i] == IdText(rows[i].downloadId)
      {
        assert rows[..m][i] == rows[i];
      }
      assert id !in before;
      var after := before + [id];
      assert SeedOrder(rows) == after;
      assert forall i :: 0 <= i < m ==> after[i] == before[i];
    }
  }

  /** For rows with pairwise different ids, the map holds every row's
      snapshot under its id text. */
  lemma {:induction false} SeedEntriesOfDistinct(rows: seq<VideoDB>)
    requires DistinctRows(rows)
    ensures forall i :: 0 <= i < |rows| ==>
      IdText(rows[i].downloadId) in SeedEntries(rows)
      && SeedEntries(rows)[IdText(rows[i].downloadId)] == ToUiModel(rows[i])
    decreases |rows|
  {
    if |rows| > 0 {
      var m := |rows| - 1;
      assert DistinctRows(rows[..m]);
      SeedEntriesOfDistinct(rows[..m]);
      IdTextFresh(rows);
      forall i | 0 <= i < m
        ensures IdText(rows[i].downloadId) in SeedEntries(rows)
          && SeedEntries(rows)[IdText(rows[i].downloadId)] == ToUiModel(rows[i])
      {
        assert rows[..m][i] == rows[i];
      }
    }
  }

  /** For rows with pairwise different ids, the map holds each row's
      snapshot under its id's decimal text, in listing order. */
  lemma SeedContents(rows: seq<VideoDB>)
    requires DistinctRows(rows)
    ensures |SeedOrder(rows)| == |rows|
    ensures forall i :: 0 <= i < |rows| ==> SeedOrder(rows)[i] == IdText(rows[i].downloadId)
    ensures forall i :: 0 <= i < |rows| ==>
      SeedOrder(rows)[i] in SeedEntries(rows) && SeedEntries(rows)[SeedOrder(rows)[i]] == ToUiModel(rows[i])
  {
    SeedOrderOfDistinct(rows);
    SeedEntriesOfDistinct(rows);
  }

  /** At start-up the published list is the map's values. */
  lemma SeedPublishesValues(rows: seq<VideoDB>)
    requires DistinctRows(rows)
    ensures Valid(Seed(rows)) && Seed(rows).published == Values(Seed(rows))
  {
    SeedValid(rows);
    SeedContents(rows);
    forall i | 0 <= i < |rows|
      ensures Snapshots(rows)[i] == ToUiModel(rows[i])
    {
      SnapshotsAt(rows, i);
    }
  }

  // ---------------------------------------------------------------------
  // The tracker object

  class ProgressManager {
    /** The keys of `inprogressMap` in insertion order. */
    var order: seq<string>
    var entries: map<string, VideoUi>
    /** The value of the published `videosProgress` flow. */
    var videosProgress: seq<VideoUi>
    /** The job store behind the repository. */
    var store: map<Long, VideoDB>

    function State(): Tracker
      reads this
    {
      Tracker(order, entries, videosProgress, store)
    }

    /** Start-up: seeds the map and the published list from the rows the
        repository lists. */
    constructor(rows: seq<VideoDB>)
      ensures State() == Seed(rows)
    {
      order := [];
      entries := map[];
      videosProgress := [];
      store := map[];
      new;
      var published: seq<VideoUi> := [];
      var i := 0;
      while i < |rows|
        invariant i <= |rows|
        invariant order == SeedOrder(rows[..i]) && entries == SeedEntries(rows[..i]) && store == StoreOf(rows[..i])
        invariant published == Snapshots(rows[..i])
      {
        var model := ToUiModel(rows[i]);
        SeedStep(rows, i);
        if model.id !in entries {
          order := order + [model.id];
        }
        entries := entries[model.id := model];
        store := store[rows[i].downloadId := rows[i]];
        published := published + [model];
        i := i + 1;
      }
      assert rows[..i] == rows;
      videosProgress := published;
    }

    method EmitProgressUpdates()
      requires Valid(State())
      modifies this`videosProgress
      ensures State() == Emit(old(State()))
    {
      videosProgress := Values(State());
    }

    method UpdateProgress(id: string, downloaded: Long, total: Long)
      requires Valid(State())
      modifies this`entries, this`videosProgress
      ensures State() == UpdateProgressOp(old(State()), id, downloaded, total)
    {
      if id in entries {
        var video := entries[id];
        entries := entries[id := video.(downloadedSize := downloaded, totalSize := total)];
        EmitProgressUpdates();
      }
    }

    method UpdateStatus(id: string, downState: DownloadingState)
      requires Valid(State())
      modifies this`entries, this`videosProgress
      ensures State() == UpdateStatusOp(old(State()), id, downState)
    {
      if id in entries {
        var video := entries[id];
        entries := entries[id := video.(status := downState)];
        EmitProgressUpdates();
      }
    }

    /** Returns whether `toLong` threw after the map entry was removed. */
    method DeleteVideo(id: string) returns (thrown: bool)
      requires Valid(State())
      modifies this`order, this`entries, this`store
      ensures State() == DeleteOp(old(State()), id)
      ensures thrown <==> ToLongOrNull(id).None?
    {
      order := RemoveKey(order, id);
      entries := entries - {id};
      var key := ToLongOrNull(id);
      if key.None? {
        return true;
      }
      store := store - {key.value};
      thrown := false;
    }

    method AddLocalVideo(db: VideoDB)
      requires Valid(State())
      modifies this
      ensures State() == AddLocalVideoOp(old(State()), db)
    {
      if db.downloadId !in store {
        store := store[db.downloadId := db];
        var id := IdText(db.downloadId);
        if id !in entries {
          order := order + [id];
        }
        entries := entries[id := ToUiModel(db)];
        EmitProgressUpdates();
      }
    }

    /** Returns the rows written to the store, in order. */
    method BatchUpdateDatabase() returns (written: seq<VideoDB>)
      requires Valid(State())
      modifies this`store
      ensures written == FlushWrites(Values(old(State())), DbMap(old(store)))
      ensures State() == BatchOp(old(State()))
    {
      written, store := FlushRows(Values(State()), DbMap(store), store);
    }
  }
}
