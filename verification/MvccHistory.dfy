/**
 What happened, told without versions, headers or watermarks: for every record ever inserted its
 original bytes, the record it replaced and everyone who deleted it, and for every transaction the
 set of transactions already committed when its snapshot was taken. The engine never reads it; the
 invariant ties the engine's state to it.
 */
module MvccHistory {
  import opened Common
  import opened Mvcc

  /** `base` is the record an UPDATE replaced with this one. */
  datatype Row = Row(table: TableId, orig: Version, base: Option<nat>, deleters: set<TxId>)

  datatype History = History(rows: seq<Row>, snaps: map<TxId, set<TxId>>)

  function CommittedSet(db: Db): set<TxId> {
    set v | v in db.states && db.states[v].Committed?
  }

  function AddRow(h: History, t: TxId, table: TableId, roll: RollPtr, p: Payload, base: Option<nat>): History {
    h.(rows := h.rows + [Row(table, Version(Header(t, roll, false, false), p), base, {})])
  }

  function AddDeleter(h: History, t: TxId, i: nat): History
    requires i < |h.rows|
  {
    h.(rows := h.rows[i := h.rows[i].(deleters := h.rows[i].deleters + {t})])
  }

  /** The history after event `e` in state `db`. */
  function Record(h: History, db: Db, e: Event): History
    requires Enabled(db, e) && |h.rows| == |db.heap|
  {
    match e
    case EView(t) => h.(snaps := h.snaps[t := CommittedSet(db)])
    case EInsert(t, table, p) => if Fits(p) then AddRow(h, t, table, Null, p, None) else h
    case EDelete(t, i) => if Writes(db, t, i) then AddDeleter(h, t, i) else h
    case EUpdate(t, i, p) =>
      if !Writes(db, t, i) then h
      else if Fits(p) then AddRow(AddDeleter(h, t, i), t, db.heap[i].table, At(|db.undo|), p, Some(i))
      else AddDeleter(h, t, i)
    case _ => h
  }

  /** Who had committed when `u`'s current snapshot was taken. */
  function Snap(h: History, u: TxId): set<TxId> {
    if u in h.snaps then h.snaps[u] else {}
  }

  /** Everyone whose writes `u` must see. */
  function Seen(h: History, u: TxId): set<TxId> {
    Snap(h, u) + {u}
  }

  function Inserter(r: Row): TxId { r.orig.h.trx }

  // ----- Invariant ----------------------------------------------------------------------------

  ghost predicate TableOk(db: Db) {
    && 1 <= db.next
    && (forall t :: t in db.txns ==> t in db.states && db.states[t].InProgress?)
    && (forall v :: v in db.states ==> 1 <= v < db.next && (db.states[v].InProgress? ==> v in db.txns))
  }

  /** The view's watermarks and active list describe exactly the recorded snapshot. */
  ghost predicate ViewOk(db: Db, t: TxId, view: ReadView, snap: set<TxId>) {
    && view.creator == t
    && view.upLimit <= view.lowLimit <= db.next
    && (forall v :: v in snap ==> IsCommitted(db.states, v) && v < view.lowLimit && v !in view.activeIds)
    && (forall v :: v in view.activeIds ==> v in db.states && v != t && view.upLimit <= v)
    && (forall v :: v in db.states && v < view.lowLimit && v != t && v !in view.activeIds && v !in snap
          ==> IsAborted(db.states, v))
    && (forall v :: v in db.states && v >= view.lowLimit ==> v !in snap)
  }

  ghost predicate ViewsOk(db: Db, h: History) {
    forall t :: HasView(db, t) ==> t in h.snaps && ViewOk(db, t, db.txns[t].view.value, h.snaps[t])
  }

  /** `t` has ended without effect, or is undoing its writes. */
  ghost predicate Gone(db: Db, t: TxId) {
    IsAborted(db.states, t) || (t in db.txns && db.txns[t].rolling)
  }

  /** Whoever sees a write of `d` sees every write of `a`. */
  ghost predicate Follows(db: Db, h: History, d: TxId, a: TxId) {
    d == a || (IsCommitted(db.states, a) && forall u :: HasView(db, u) && d in Seen(h, u) ==> a in Seen(h, u))
  }

  /** A heap record is its original, its original marked dead, or its original under a deletion. */
  ghost predicate RecOk(db: Db, row: Row, r: Rec) {
    && r.table == row.table
    && r.v.payload == row.orig.payload
    && Live(row.orig.h)
    && Inserter(row) in db.states
    && (!r.v.h.del ==> r.v.h == row.orig.h.(dead := r.v.h.dead))
    && (r.v.h.del ==> && !r.v.h.dead
                      && r.v.h.trx in row.deleters
                      && r.v.h.trx in db.states && !db.states[r.v.h.trx].Aborted?
                      && r.v.h.roll.At? && r.v.h.roll.index < |db.undo|
                      && db.undo[r.v.h.roll.index] == row.orig)
    && (r.v.h.dead ==> Gone(db, Inserter(row)))
    && (!r.v.h.dead ==> !IsAborted(db.states, Inserter(row)))
  }

  ghost predicate RecsOk(db: Db, h: History) {
    && |h.rows| == |db.heap|
    && forall i :: 0 <= i < |db.heap| ==> RecOk(db, h.rows[i], db.heap[i])
  }

  /** Every deleter but the current one is gone, and saw the record's inserter. */
  ghost predicate DeleterOk(db: Db, h: History, row: Row, r: Rec, d: TxId) {
    && d in db.states
    && Follows(db, h, d, Inserter(row))
    && (Gone(db, d) || (r.v.h.del && r.v.h.trx == d))
  }

  ghost predicate DeletersOk(db: Db, h: History)
    requires |h.rows| == |db.heap|
  {
    forall i, d :: 0 <= i < |db.heap| && d in h.rows[i].deleters ==> DeleterOk(db, h, h.rows[i], db.heap[i], d)
  }

  /** A replacement points to its base's before-image; while it lives the base stays deleted. */
  ghost predicate BaseOk(db: Db, h: History, n: nat)
    requires |h.rows| == |db.heap| && n < |h.rows|
  {
    var row := h.rows[n];
    match row.base
    case None => row.orig.h.roll == Null
    case Some(j) =>
      && j < n && row.table == h.rows[j].table
      && Inserter(row) in h.rows[j].deleters
      && row.orig.h.roll.At? && row.orig.h.roll.index < |db.undo|
      && db.undo[row.orig.h.roll.index] == h.rows[j].orig
      && (!db.heap[n].v.h.dead ==> db.heap[j].v.h.del && db.heap[j].v.h.trx == Inserter(row))
  }

  ghost predicate BasesOk(db: Db, h: History)
    requires |h.rows| == |db.heap|
  {
    forall n :: 0 <= n < |h.rows| ==> BaseOk(db, h, n)
  }

  predicate IsIns(w: WriteRecord, i: nat) { IsInsertKind(w.kind) && w.rid == i }
  predicate IsDel(w: WriteRecord, i: nat) { !IsInsertKind(w.kind) && w.rid == i }

  ghost predicate HasIns(ws: seq<WriteRecord>, i: nat) {
    exists p :: 0 <= p < |ws| && IsIns(ws[p], i)
  }

  ghost predicate HasDel(ws: seq<WriteRecord>, i: nat) {
    exists p :: 0 <= p < |ws| && IsDel(ws[p], i)
  }

  /** An entry names a record `t` really wrote and holds the header it found there. */
  ghost predicate EntryOk(db: Db, h: History, t: TxId, w: WriteRecord)
    requires |h.rows| == |db.heap|
  {
    && w.rid < |db.heap|
    && (if IsInsertKind(w.kind)
        then Inserter(h.rows[w.rid]) == t && !db.heap[w.rid].v.h.dead
             && (w.kind.UpdateInsertNew? <==> h.rows[w.rid].base.Some?)
        else && db.heap[w.rid].v.h.del && db.heap[w.rid].v.h.trx == t
             && w.prev == h.rows[w.rid].orig.h)
  }

  /** A record is inserted once and deleted once, insertion first; a replacement after its base's deletion. */
  ghost predicate OrderOk(h: History, ws: seq<WriteRecord>) {
    && (forall p, q :: 0 <= p < q < |ws| && ws[p].rid == ws[q].rid ==>
          IsInsertKind(ws[p].kind) && !IsInsertKind(ws[q].kind))
    && (forall p, q :: 0 <= p < q < |ws| && IsInsertKind(ws[p].kind) && !IsInsertKind(ws[q].kind) ==>
          ws[p].rid < |h.rows| && h.rows[ws[p].rid].base != Some(ws[q].rid))
  }

  ghost predicate WritesOk(db: Db, h: History, t: TxId)
    requires |h.rows| == |db.heap| && t in db.txns
  {
    var ws := db.txns[t].writes;
    && (forall p :: 0 <= p < |ws| ==> EntryOk(db, h, t, ws[p]))
    && OrderOk(h, ws)
    && (forall i :: 0 <= i < |db.heap| && Inserter(h.rows[i]) == t && !db.heap[i].v.h.dead ==> HasIns(ws, i))
    && (forall i :: 0 <= i < |db.heap| && db.heap[i].v.h.del && db.heap[i].v.h.trx == t ==> HasDel(ws, i))
  }

  ghost predicate AllWritesOk(db: Db, h: History)
    requires |h.rows| == |db.heap|
  {
    forall t :: t in db.txns ==> WritesOk(db, h, t)
  }

  /** Every before-image is some record's original. */
  ghost predicate UndoOk(db: Db, h: History) {
    && Acyclic(db.undo)
    && forall k :: 0 <= k < |db.undo| ==> IsOriginal(h, db.undo[k])
  }

  ghost predicate IsOriginal(h: History, v: Version) {
    exists j :: 0 <= j < |h.rows| && h.rows[j].orig == v
  }

  function CountLive(heap: seq<Rec>, table: TableId): nat {
    if heap == [] then 0
    else CountLive(heap[..|heap| - 1], table)
         + (if heap[|heap| - 1].table == table && Live(heap[|heap| - 1].v.h) then 1 else 0)
  }

  ghost predicate CountsOk(db: Db) {
    forall table :: table in db.rows ==> db.rows[table] == CountLive(db.heap, table)
  }

  ghost predicate Inv(db: Db, h: History) {
    && TableOk(db) && ViewsOk(db, h)
    && RecsOk(db, h) && DeletersOk(db, h) && BasesOk(db, h)
    && AllWritesOk(db, h) && UndoOk(db, h) && CountsOk(db)
  }

  const EMPTY: History := History([], map[])

  // ----- Runs ---------------------------------------------------------------------------------

  /** The interleaving `es` leads from one state to the other. */
  ghost predicate Reaches(db: Db, h: History, es: seq<Event>, db': Db, h': History)
    decreases |es|
  {
    if es == [] then db' == db && h' == h
    else && |h.rows| == |db.heap| && Enabled(db, es[0])
         && Reaches(Apply(db, es[0]), Record(h, db, es[0]), es[1..], db', h')
  }

  /** Some interleaving of any number of transactions leads from a fresh heap to this state. */
  ghost predicate Reachable(db: Db, h: History) {
    exists db0, es :: Init(db0) && Reaches(db0, EMPTY, es, db, h)
  }
}
