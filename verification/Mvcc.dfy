/**
 The multi-version transaction layer as a step system: the transaction table, the read views, the
 record heap with its version headers, the append-only undo store and the per-table row counts.
 Every operation of the transaction manager and of the executors on one record is one step.
 */
module Mvcc {
  import opened Common
  import opened Bytes

  type TableId = nat

  /** The record header in front of a payload: trx_id(8) | roll_ptr(12) | flags(2). */
  const RECORD_HEADER_SIZE := 22

  /** A tuple's size is a 16-bit field. */
  type Payload = p: seq<byte> | RECORD_HEADER_SIZE + |p| < 0x1_0000

  datatype Status = Committed | Aborted | InProgress

  /** A pointer into the undo store: null, or the position of an appended before-image. */
  datatype RollPtr = Null | At(index: nat)

  /** The 22-byte record header: last writer, undo pointer and the two flag bits. */
  datatype Header = Header(trx: TxId, roll: RollPtr, del: bool, dead: bool)

  datatype Version = Version(h: Header, payload: Payload)

  datatype Rec = Rec(table: TableId, v: Version)

  datatype ReadView = ReadView(creator: TxId, upLimit: TxId, lowLimit: TxId, activeIds: set<TxId>)

  datatype WriteKind = Insert | Delete | UpdateDeleteOld | UpdateInsertNew

  /** One entry of a transaction's write set: where it wrote and the header found there. */
  datatype WriteRecord = WriteRecord(kind: WriteKind, rid: nat, prev: Header)

  /**
   A live transaction; `rolling` once its rollback has undone its first write. Behind the first `stuck`
   writes its write set has an entry that names no record, and no rollback gets past it.
   */
  datatype Txn = Txn(view: Option<ReadView>, writes: seq<WriteRecord>, rolling: bool, stuck: nat)

  datatype Db = Db(
    next: TxId,
    txns: map<TxId, Txn>,
    states: map<TxId, Status>,
    heap: seq<Rec>,
    undo: seq<Version>,
    rows: map<TableId, nat>)

  /** How the work on one record ends: done, or thrown with nothing changed. */
  datatype Outcome = Done(db: Db) | WriteConflict | TooLarge

  function After(db: Db, o: Outcome): Db { if o.Done? then o.db else db }

  // ----- Sizes --------------------------------------------------------------------------------

  /** The largest tuple an empty table page takes: 32 bytes of header and a slot are not its. */
  const TUPLE_LIMIT := PAGE_SIZE - 36

  /** The largest before-image an empty undo page takes: 20 bytes of header, 24 in front of the image. */
  const IMAGE_LIMIT := PAGE_SIZE - 44

  function SizeOf(p: Payload): nat { RECORD_HEADER_SIZE + |p| }

  predicate Fits(p: Payload) { SizeOf(p) <= TUPLE_LIMIT }

  predicate Saves(v: Version) { SizeOf(v.payload) <= IMAGE_LIMIT }

  // ----- Read views ---------------------------------------------------------------------------

  predicate IsCommitted(states: map<TxId, Status>, id: TxId) {
    id in states && states[id].Committed?
  }

  predicate IsAborted(states: map<TxId, Status>, id: TxId) {
    id in states && states[id].Aborted?
  }

  /** The smallest active id, or the high watermark when none is active. */
  function FirstActive(ids: set<TxId>, from: TxId, low: TxId): (r: TxId)
    requires from <= low
    ensures from <= r <= low
    ensures forall i :: from <= i < r ==> i !in ids
    ensures r < low ==> r in ids
    decreases low - from
  {
    if from == low || from in ids then from else FirstActive(ids, from + 1, low)
  }

  function MakeView(db: Db, id: TxId): ReadView {
    var ids := set a | a in db.txns && a != id;
    ReadView(id, FirstActive(ids, 0, db.next), db.next, ids)
  }

  /** The watermark test. */
  predicate IsVisible(view: ReadView, states: map<TxId, Status>, v: TxId) {
    if v == INVALID_TX_ID then true
    else if v == view.creator then true
    else if IsAborted(states, v) then false
    else if v >= view.lowLimit then false
    else if v in view.activeIds then false
    else if v < view.upLimit then !IsAborted(states, v)
    else IsCommitted(states, v)
  }

  // ----- Transaction table --------------------------------------------------------------------

  predicate HasView(db: Db, t: TxId) {
    t in db.txns && db.txns[t].view.Some?
  }

  /** `t` may run statements: it is live, has its read view and is not rolling back. */
  predicate Ready(db: Db, t: TxId) {
    HasView(db, t) && !db.txns[t].rolling
  }

  function Begin(db: Db): Db {
    db.(next := db.next + 1,
        txns := db.txns[db.next := Txn(None, [], false, 0)],
        states := db.states[db.next := InProgress])
  }

  function CreateReadView(db: Db, t: TxId): Db
    requires t in db.txns
  {
    db.(txns := db.txns[t := db.txns[t].(view := Some(MakeView(db, t)))])
  }

  function Finish(db: Db, t: TxId, s: Status): Db {
    db.(txns := db.txns - {t}, states := db.states[t := s])
  }

  // ----- Row counts ---------------------------------------------------------------------------

  function AddRows(rows: map<TableId, nat>, table: TableId, change: int): map<TableId, nat> {
    if table in rows then rows[table := ClampedSum(rows[table], change)] else rows
  }

  // ----- Records ------------------------------------------------------------------------------

  predicate Live(h: Header) { !h.del && !h.dead }

  function Append(db: Db, t: TxId, kind: WriteKind, table: TableId, roll: RollPtr, p: Payload): Db
    requires t in db.txns
  {
    var rec := Rec(table, Version(Header(t, roll, false, false), p));
    var w := WriteRecord(kind, |db.heap|, Header(INVALID_TX_ID, Null, false, false));
    db.(heap := db.heap + [rec],
        rows := AddRows(db.rows, table, 1),
        txns := db.txns[t := db.txns[t].(writes := db.txns[t].writes + [w])])
  }

  /** INSERT throws for a tuple no page takes. */
  function InsertRecord(db: Db, t: TxId, table: TableId, p: Payload): Outcome
    requires t in db.txns
  {
    if Fits(p) then Done(Append(db, t, Insert, table, Null, p)) else TooLarge
  }

  /** The executors' row test: not deleted and written by a visible transaction. */
  predicate Hit(db: Db, t: TxId, i: nat)
    requires HasView(db, t) && i < |db.heap|
  {
    var h := db.heap[i].v.h;
    !h.del && IsVisible(db.txns[t].view.value, db.states, h.trx)
  }

  /** First-updater-wins: the row was last written by another transaction still in progress. */
  predicate Conflicts(db: Db, t: TxId, i: nat)
    requires i < |db.heap|
  {
    var x := db.heap[i].v.h.trx;
    x != INVALID_TX_ID && x != t && x in db.states && db.states[x].InProgress?
  }

  /** Save the before-image, mark the record deleted, remember its header in the write set. */
  function MarkDelete(db: Db, t: TxId, kind: WriteKind, i: nat): Db
    requires t in db.txns && i < |db.heap|
  {
    var r := db.heap[i];
    var h' := r.v.h.(trx := t, roll := At(|db.undo|), del := true);
    db.(undo := db.undo + [r.v],
        heap := if r.v.h.del then db.heap else db.heap[i := r.(v := r.v.(h := h'))],
        rows := if r.v.h.del then db.rows else AddRows(db.rows, r.table, -1),
        txns := db.txns[t := db.txns[t].(writes := db.txns[t].writes + [WriteRecord(kind, i, r.v.h)])])
  }

  /** The row passes the test and its before-image can be saved. */
  predicate Writes(db: Db, t: TxId, i: nat)
    requires HasView(db, t) && i < |db.heap|
  {
    Hit(db, t, i) && !Conflicts(db, t, i) && Saves(db.heap[i].v)
  }

  function DeleteRecord(db: Db, t: TxId, i: nat): Outcome
    requires HasView(db, t) && i < |db.heap|
  {
    if !Hit(db, t, i) then Done(db)
    else if Conflicts(db, t, i) then WriteConflict
    else if !Saves(db.heap[i].v) then TooLarge
    else Done(MarkDelete(db, t, Delete, i))
  }

  /** The write set gets an entry that names no record. */
  function LoseNew(db: Db, t: TxId): Db
    requires t in db.txns
  {
    db.(txns := db.txns[t := db.txns[t].(stuck := |db.txns[t].writes|)])
  }

  /** UPDATE's second half. InsertTuple's refusal goes unnoticed: nothing is inserted. */
  function PutNew(db: Db, t: TxId, table: TableId, roll: RollPtr, p: Payload): Db
    requires t in db.txns
  {
    if Fits(p) then Append(db, t, UpdateInsertNew, table, roll, p) else LoseNew(db, t)
  }

  /** Delete the old version, append the new one; both carry the pointer to the before-image. */
  function UpdateRecord(db: Db, t: TxId, i: nat, p: Payload): Outcome
    requires HasView(db, t) && i < |db.heap|
  {
    if !Hit(db, t, i) then Done(db)
    else if Conflicts(db, t, i) then WriteConflict
    else if !Saves(db.heap[i].v) then TooLarge
    else Done(PutNew(MarkDelete(db, t, UpdateDeleteOld, i), t, db.heap[i].table, At(|db.undo|), p))
  }

  // ----- Rollback -----------------------------------------------------------------------------

  predicate IsInsertKind(k: WriteKind) { k.Insert? || k.UpdateInsertNew? }

  /** MarkDead for an inserted record, RestoreRecord for a deleted one. */
  function UndoWrite(db: Db, w: WriteRecord): Db
    requires w.rid < |db.heap|
  {
    var r := db.heap[w.rid];
    if IsInsertKind(w.kind) then
      db.(heap := db.heap[w.rid := r.(v := r.v.(h := r.v.h.(dead := true)))],
          rows := if Live(r.v.h) then AddRows(db.rows, r.table, -1) else db.rows)
    else
      db.(heap := db.heap[w.rid := r.(v := r.v.(h := w.prev))],
          rows := if r.v.h.del && !w.prev.del then AddRows(db.rows, r.table, 1) else db.rows)
  }

  /** One turn of the reverse walk over the write set. */
  function RollbackLast(db: Db, t: TxId): Db
    requires t in db.txns && db.txns[t].writes != []
  {
    var ws := db.txns[t].writes;
    var w := ws[|ws| - 1];
    var d := if w.rid < |db.heap| then UndoWrite(db, w) else db;
    d.(txns := d.txns[t := d.txns[t].(writes := ws[..|ws| - 1], rolling := true)])
  }

  // ----- Reading ------------------------------------------------------------------------------

  /** Undo pointers lead to strictly earlier appends. */
  ghost predicate Acyclic(undo: seq<Version>) {
    forall k :: 0 <= k < |undo| ==> Below(undo[k].h.roll, k)
  }

  ghost predicate Below(p: RollPtr, n: nat) {
    p.At? ==> p.index < n
  }

  /** The version-chain walk: the first visible version from `v` back, unless it is a deletion. */
  ghost function Walk(view: ReadView, states: map<TxId, Status>, undo: seq<Version>, v: Version): Option<Version>
    requires Acyclic(undo) && Below(v.h.roll, |undo|)
    decreases if v.h.roll.At? then v.h.roll.index + 1 else 0
  {
    if IsVisible(view, states, v.h.trx) then (if v.h.del then None else Some(v))
    else if v.h.roll.Null? then None
    else
      var k := v.h.roll.index;
      assert Below(undo[k].h.roll, k);
      Walk(view, states, undo, undo[k])
  }

  function ToSeq<T>(o: Option<T>): seq<T> {
    if o.Some? then [o.value] else []
  }

  /** What a scan by `u` returns for heap position `i`. */
  ghost function Emit(db: Db, u: TxId, i: nat): seq<Version>
    requires HasView(db, u) && i < |db.heap|
    requires Acyclic(db.undo) && Below(db.heap[i].v.h.roll, |db.undo|)
  {
    if db.heap[i].v.h.dead then []
    else ToSeq(Walk(db.txns[u].view.value, db.states, db.undo, db.heap[i].v))
  }

  ghost predicate Readable(db: Db) {
    Acyclic(db.undo) && forall i :: 0 <= i < |db.heap| ==> Below(db.heap[i].v.h.roll, |db.undo|)
  }

  /** The tuples of `table` among the first `n` records, as a scan by `u` returns them. */
  ghost function ScanTo(db: Db, u: TxId, table: TableId, n: nat): seq<Version>
    requires HasView(db, u) && Readable(db) && n <= |db.heap|
  {
    if n == 0 then []
    else ScanTo(db, u, table, n - 1)
         + (if db.heap[n - 1].table == table then Emit(db, u, n - 1) else [])
  }

  ghost function Scan(db: Db, u: TxId, table: TableId): seq<Version>
    requires HasView(db, u) && Readable(db)
  {
    ScanTo(db, u, table, |db.heap|)
  }

  // ----- Steps and runs -----------------------------------------------------------------------

  datatype Event =
    | EBegin
    | EView(t: TxId)
    | EInsert(t: TxId, table: TableId, payload: Payload)
    | EDelete(t: TxId, rid: nat)
    | EUpdate(t: TxId, rid: nat, payload: Payload)
    | ECommit(t: TxId)
    | ERollback(t: TxId)
    | EAbort(t: TxId)

  predicate Enabled(db: Db, e: Event) {
    match e
    case EBegin => true
    case EView(t) => t in db.txns && !db.txns[t].rolling
    case EInsert(t, table, _) => Ready(db, t) && table in db.rows
    case EDelete(t, i) => Ready(db, t) && i < |db.heap|
    case EUpdate(t, i, _) => Ready(db, t) && i < |db.heap|
    case ECommit(t) => t in db.txns && !db.txns[t].rolling
    case ERollback(t) => t in db.txns && |db.txns[t].writes| > db.txns[t].stuck
    case EAbort(t) => t in db.txns && db.txns[t].writes == [] && db.txns[t].stuck == 0
  }

  /** A thrown exception leaves everything as it was. */
  function Apply(db: Db, e: Event): Db
    requires Enabled(db, e)
  {
    match e
    case EBegin => Begin(db)
    case EView(t) => CreateReadView(db, t)
    case EInsert(t, table, p) => After(db, InsertRecord(db, t, table, p))
    case EDelete(t, i) => After(db, DeleteRecord(db, t, i))
    case EUpdate(t, i, p) => After(db, UpdateRecord(db, t, i, p))
    case ECommit(t) => Finish(db, t, Committed)
    case ERollback(t) => RollbackLast(db, t)
    case EAbort(t) => Finish(db, t, Aborted)
  }

  /** A fresh heap over a transaction table that recovery may have filled with final outcomes. */
  ghost predicate Init(db: Db) {
    && 1 <= db.next
    && db.txns == map[] && db.heap == [] && db.undo == []
    && (forall v :: v in db.states ==> 1 <= v < db.next && !db.states[v].InProgress?)
    && (forall table :: table in db.rows ==> db.rows[table] == 0)
  }
}
