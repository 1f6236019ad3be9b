/**
 The step system carried out in bytes: page bytes along each table's chain, undo appends, and the record
 headers that write sets remember. Every event has its step on the bytes, which decides by reading bytes,
 and every run of events leaves bytes that store the step system's state.
 */
module Simulation {
  import opened Common
  import opened Bytes
  import opened Mvcc
  import opened RecordBytes
  import H = MvccHistory
  import P = MvccPreservation
  import S = MvccSnapshots
  import TP = TablePage
  import UL = UndoLog
  import TC = TableChain
  import CB = ChainBytes

  datatype Table = Table(f: TC.File, d: CB.Disk)

  type Tables = map<TableId, Table>

  /** The appends to the undo store, the tables, and the headers each live transaction found where it wrote. */
  datatype Store = Store(log: seq<UL.Entry>, tables: Tables, saved: map<TxId, seq<TP.RecHeader>>)

  // ----- Tables -------------------------------------------------------------------------------

  ghost predicate TableSim(log: seq<UL.Entry>, tb: Table, heap: seq<Rec>, table: TableId) {
    TC.ChainOk(tb.f) && CB.OnDisk(tb.d, tb.f) && TableStores(log, TC.AllTuples(tb.f), heap, table)
  }

  ghost predicate TablesSim(log: seq<UL.Entry>, tables: Tables, heap: seq<Rec>) {
    && (forall table :: table in tables ==> TableSim(log, tables[table], heap, table))
    && (forall i :: 0 <= i < |heap| ==> heap[i].table in tables)
  }

  /** Which of its table's rows record `i` is. */
  ghost function Where(heap: seq<Rec>, i: nat): nat
    requires i < |heap|
  {
    |Positions(heap, heap[i].table, i)|
  }

  lemma {:induction false} WhereIs(heap: seq<Rec>, i: nat, n: nat)
    requires i < n <= |heap|
    ensures var ids := Positions(heap, heap[i].table, n); Where(heap, i) < |ids| && ids[Where(heap, i)] == i
  {
    if i < n - 1 { WhereIs(heap, i, n - 1); }
  }

  lemma RowIs(log: seq<UL.Entry>, tables: Tables, heap: seq<Rec>, i: nat)
    requires TablesSim(log, tables, heap) && i < |heap|
    ensures var f := tables[heap[i].table].f;
      && Where(heap, i) < |TC.AllRids(f)| && CB.HasRid(f, TC.AllRids(f)[Where(heap, i)])
      && CB.TupleOf(f, TC.AllRids(f)[Where(heap, i)]) == TC.AllTuples(f)[Where(heap, i)]
      && Stores(log, TC.AllTuples(f)[Where(heap, i)], heap[i].v)
  {
    var f := tables[heap[i].table].f;
    assert TableSim(log, tables[heap[i].table], heap, heap[i].table);
    WhereIs(heap, i, |heap|);
    CB.RowThere(f, Where(heap, i));
  }

  /** The slot of record `i`, */
  ghost function RidOf(tables: Tables, heap: seq<Rec>, i: nat): TC.Rid
    requires i < |heap|
  {
    var k, table := Where(heap, i), heap[i].table;
    if table in tables && k < |TC.AllRids(tables[table].f)| then TC.AllRids(tables[table].f)[k] else TC.Rid(0, 0)
  }

  /** and the bytes there. */
  ghost function RowOf(tables: Tables, heap: seq<Rec>, i: nat): seq<byte>
    requires i < |heap|
  {
    var table, rid := heap[i].table, RidOf(tables, heap, i);
    if table in tables && CB.HasRid(tables[table].f, rid) then CB.TupleOf(tables[table].f, rid) else []
  }

  /** The record header, in front of every stored tuple. */
  function HeadOf(t: seq<byte>): TP.RecHeader {
    if |t| >= TP.REC_HEADER_SIZE then TP.RecOf(t) else TP.RecHeader(0, 0, 0, 0)
  }

  /** One record header written on its page. */
  ghost function EditRow(tb: Table, rid: TC.Rid, r: TP.RecHeader): Table {
    if CB.HasRid(tb.f, rid) && |CB.TupleOf(tb.f, rid)| >= TP.REC_HEADER_SIZE
    then Table(CB.Edited(tb.f, rid, TP.WithRec(CB.TupleOf(tb.f, rid), r)), CB.EditBytes(tb.d, rid, r)) else tb
  }

  /** Record `i` is where it should be. */
  lemma RowFound(log: seq<UL.Entry>, tables: Tables, heap: seq<Rec>, i: nat)
    requires TablesSim(log, tables, heap) && i < |heap|
    ensures heap[i].table in tables
    ensures var f := tables[heap[i].table].f;
      && Where(heap, i) < |TC.AllRids(f)| && RidOf(tables, heap, i) == TC.AllRids(f)[Where(heap, i)]
      && CB.HasRid(f, RidOf(tables, heap, i))
      && RowOf(tables, heap, i) == CB.TupleOf(f, RidOf(tables, heap, i))
    ensures Stores(log, RowOf(tables, heap, i), heap[i].v) && |RowOf(tables, heap, i)| >= TP.REC_HEADER_SIZE
  {
    RowIs(log, tables, heap, i);
  }

  /** One turn of an insert. */
  ghost function AppendRow(tb: Table, t: seq<byte>): Table {
    Table(TC.Inserted(tb.f, t), CB.InsertBytes(tb.d, tb.f, t))
  }

  lemma TablesLog(log: seq<UL.Entry>, e: UL.Entry, tables: Tables, heap: seq<Rec>)
    requires TablesSim(log, tables, heap)
    ensures TablesSim(log + [e], tables, heap)
  {
    forall table | table in tables ensures TableSim(log + [e], tables[table], heap, table) {
      assert TableSim(log, tables[table], heap, table);
      TableLog(log, e, TC.AllTuples(tables[table].f), heap, table);
    }
  }

  lemma TableLog(log: seq<UL.Entry>, e: UL.Entry, tuples: seq<seq<byte>>, heap: seq<Rec>, table: TableId)
    requires TableStores(log, tuples, heap, table)
    ensures TableStores(log + [e], tuples, heap, table)
  {
    var ids := Positions(heap, table, |heap|);
    forall k | 0 <= k < |ids| ensures ids[k] < |heap| && Stores(log + [e], tuples[k], heap[ids[k]].v) {
      StoresStays(log, e, tuples[k], heap[ids[k]].v);
    }
  }

  // ----- An edit ------------------------------------------------------------------------------

  lemma EditedTable(log: seq<UL.Entry>, tables: Tables, heap: seq<Rec>, i: nat, r: TP.RecHeader, v: Version)
    requires TablesSim(log, tables, heap) && i < |heap|
    requires |RowOf(tables, heap, i)| >= TP.REC_HEADER_SIZE && Stores(log, TP.WithRec(RowOf(tables, heap, i), r), v)
    ensures var table := heap[i].table;
      TableSim(log, EditRow(tables[table], RidOf(tables, heap, i), r), heap[i := heap[i].(v := v)], table)
  {
    var table, k := heap[i].table, Where(heap, i);
    var tb, t := tables[table], TP.WithRec(RowOf(tables, heap, i), r);
    assert TableSim(log, tb, heap, table);
    RowIs(log, tables, heap, i);
    RowFound(log, tables, heap, i);
    WhereIs(heap, i, |heap|);
    CB.RowEdited(tb.f, k, t);
    CB.EditedOnDisk(tb.d, tb.f, RidOf(tables, heap, i), r);
    EditRefines(log, TC.AllTuples(tb.f), heap, table, k, t, v);
  }

  lemma OtherTableEdit(log: seq<UL.Entry>, tuples: seq<seq<byte>>, heap: seq<Rec>, table: TableId, i: nat, v: Version)
    requires TableStores(log, tuples, heap, table) && i < |heap| && heap[i].table != table
    ensures TableStores(log, tuples, heap[i := heap[i].(v := v)], table)
  {
    var heap', ids := heap[i := heap[i].(v := v)], Positions(heap, table, |heap|);
    PositionsSame(heap, heap', table, |heap|);
    forall k | 0 <= k < |ids| ensures ids[k] < |heap'| && Stores(log, tuples[k], heap'[ids[k]].v) {
      PositionAt(heap, table, |heap|, k);
    }
  }

  lemma OtherEdited(log: seq<UL.Entry>, tables: Tables, heap: seq<Rec>, i: nat, v: Version, other: TableId)
    requires TablesSim(log, tables, heap) && i < |heap| && other in tables && other != heap[i].table
    ensures TableSim(log, tables[other], heap[i := heap[i].(v := v)], other)
  {
    assert TableSim(log, tables[other], heap, other);
    OtherTableEdit(log, TC.AllTuples(tables[other].f), heap, other, i, v);
  }

  /** One table changed, in step with the heap, and the others in step with it as they are. */
  lemma TablesWith(log: seq<UL.Entry>, tables: Tables, heap: seq<Rec>, table: TableId, tb: Table)
    requires TableSim(log, tb, heap, table) && table in tables
    requires forall other :: other in tables && other != table ==> TableSim(log, tables[other], heap, other)
    requires forall i :: 0 <= i < |heap| ==> heap[i].table in tables
    ensures TablesSim(log, tables[table := tb], heap)
  {
  }

  lemma TablesKnown(log: seq<UL.Entry>, tables: Tables, heap: seq<Rec>, rec: Rec, i: nat, heap': seq<Rec>)
    requires TablesSim(log, tables, heap) && rec.table in tables
    requires heap' == heap + [rec] || (i < |heap| && heap' == heap[i := rec])
    ensures forall j :: 0 <= j < |heap'| ==> heap'[j].table in tables
  {
  }

  lemma TablesEdit(log: seq<UL.Entry>, tables: Tables, heap: seq<Rec>, i: nat, r: TP.RecHeader, v: Version)
    requires TablesSim(log, tables, heap) && i < |heap|
    requires |RowOf(tables, heap, i)| >= TP.REC_HEADER_SIZE && Stores(log, TP.WithRec(RowOf(tables, heap, i), r), v)
    ensures var table := heap[i].table;
      TablesSim(log, tables[table := EditRow(tables[table], RidOf(tables, heap, i), r)],
                heap[i := heap[i].(v := v)])
  {
    var table, heap' := heap[i].table, heap[i := heap[i].(v := v)];
    var tb := EditRow(tables[table], RidOf(tables, heap, i), r);
    EditedTable(log, tables, heap, i, r, v);
    forall other | other in tables && other != table ensures TableSim(log, tables[other], heap', other) {
      OtherEdited(log, tables, heap, i, v, other);
    }
    TablesKnown(log, tables, heap, heap[i].(v := v), i, heap');
    TablesWith(log, tables, heap', table, tb);
  }

  // ----- An append ----------------------------------------------------------------------------

  predicate TupleFits(t: seq<byte>) { TP.HEADER_SIZE + |t| + TP.SLOT_SIZE <= PAGE_SIZE }

  predicate ImageFits(t: seq<byte>) { UL.HEAD + UL.FIXED + |t| <= PAGE_SIZE }

  lemma AppendedTable(log: seq<UL.Entry>, tb: Table, heap: seq<Rec>, rec: Rec, t: seq<byte>)
    requires TableSim(log, tb, heap, rec.table) && Stores(log, t, rec.v) && tb.f.next + 1 < Range(8)
    ensures TupleFits(t) ==> TableSim(log, AppendRow(tb, t), heap + [rec], rec.table)
    ensures !TupleFits(t) ==> TableSim(log, AppendRow(tb, t), heap, rec.table)
  {
    CB.InsertedOnDisk(tb.d, tb.f, t);
    TC.InsertedRows(tb.f, t);
    InsertRefines(log, TC.AllTuples(tb.f), heap, rec, t);
  }

  lemma OtherTableAppend(log: seq<UL.Entry>, tuples: seq<seq<byte>>, heap: seq<Rec>, table: TableId, rec: Rec)
    requires TableStores(log, tuples, heap, table) && rec.table != table
    ensures TableStores(log, tuples, heap + [rec], table)
  {
    PositionsAppend(heap, rec, table, |heap|);
  }

  lemma OtherAppended(log: seq<UL.Entry>, tables: Tables, heap: seq<Rec>, rec: Rec, other: TableId)
    requires TablesSim(log, tables, heap) && other in tables && other != rec.table
    ensures TableSim(log, tables[other], heap + [rec], other)
  {
    assert TableSim(log, tables[other], heap, other);
    OtherTableAppend(log, TC.AllTuples(tables[other].f), heap, other, rec);
  }

  lemma TablesAppend(log: seq<UL.Entry>, tables: Tables, heap: seq<Rec>, rec: Rec, t: seq<byte>, tb: Table)
    requires TablesSim(log, tables, heap) && rec.table in tables && Stores(log, t, rec.v) && TupleFits(t)
    requires tables[rec.table].f.next + 1 < Range(8) && tb == AppendRow(tables[rec.table], t)
    ensures TablesSim(log, tables[rec.table := tb], heap + [rec])
  {
    assert TableSim(log, tables[rec.table], heap, rec.table);
    AppendedTable(log, tables[rec.table], heap, rec, t);
    forall other | other in tables && other != rec.table ensures TableSim(log, tables[other], heap + [rec], other) {
      OtherAppended(log, tables, heap, rec, other);
    }
    TablesKnown(log, tables, heap, rec, 0, heap + [rec]);
    TablesWith(log, tables, heap + [rec], rec.table, tb);
  }

  /** A tuple no page takes leaves at most an empty page. */
  lemma TablesRefuse(log: seq<UL.Entry>, tables: Tables, heap: seq<Rec>, rec: Rec, t: seq<byte>, tb: Table)
    requires TablesSim(log, tables, heap) && rec.table in tables && Stores(log, t, rec.v) && !TupleFits(t)
    requires tables[rec.table].f.next + 1 < Range(8) && tb == AppendRow(tables[rec.table], t)
    ensures TablesSim(log, tables[rec.table := tb], heap)
  {
    assert TableSim(log, tables[rec.table], heap, rec.table);
    AppendedTable(log, tables[rec.table], heap, rec, t);
    forall other | other in tables && other != rec.table ensures TableSim(log, tables[other], heap, other) { }
    TablesWith(log, tables, heap, rec.table, tb);
  }

  // ----- The whole store ----------------------------------------------------------------------

  ghost predicate SavedSim(log: seq<UL.Entry>, rs: seq<TP.RecHeader>, ws: seq<WriteRecord>) {
    |rs| == |ws| && forall k :: 0 <= k < |rs| ==> TP.RecFits(rs[k]) && HeaderIs(log, rs[k], ws[k].prev)
  }

  ghost predicate AllSaved(log: seq<UL.Entry>, saved: map<TxId, seq<TP.RecHeader>>, txns: map<TxId, Txn>) {
    saved.Keys == txns.Keys && forall t :: t in txns ==> SavedSim(log, saved[t], txns[t].writes)
  }

  /** The bytes store the step system's state. */
  ghost predicate Sim(s: Store, db: Db) {
    && UndoStores(s.log, db.undo) && TablesSim(s.log, s.tables, db.heap) && s.tables.Keys == db.rows.Keys
    && AllSaved(s.log, s.saved, db.txns)
  }

  lemma SavedLog(log: seq<UL.Entry>, e: UL.Entry, saved: map<TxId, seq<TP.RecHeader>>, txns: map<TxId, Txn>)
    requires AllSaved(log, saved, txns)
    ensures AllSaved(log + [e], saved, txns)
  {
    forall t | t in txns ensures SavedSim(log + [e], saved[t], txns[t].writes) {
      assert SavedSim(log, saved[t], txns[t].writes);
    }
  }

  lemma SavedPush(log: seq<UL.Entry>, saved: map<TxId, seq<TP.RecHeader>>, txns: map<TxId, Txn>, t: TxId,
      r: TP.RecHeader, x: Txn)
    requires AllSaved(log, saved, txns) && t in txns && x.writes != [] && x.writes[..|x.writes| - 1] == txns[t].writes
    requires TP.RecFits(r) && HeaderIs(log, r, x.writes[|x.writes| - 1].prev)
    ensures AllSaved(log, saved[t := saved[t] + [r]], txns[t := x])
  {
    var ws := txns[t].writes;
    assert SavedSim(log, saved[t], ws);
    forall k | 0 <= k < |x.writes|
      ensures TP.RecFits((saved[t] + [r])[k]) && HeaderIs(log, (saved[t] + [r])[k], x.writes[k].prev)
    {
      if k < |ws| { assert x.writes[..|ws|][k] == ws[k]; }
    }
  }

  // ----- Deciding by the bytes ----------------------------------------------------------------

  /** The row test, the conflict test and the room for the before-image, on a record's bytes. */
  predicate BytesWrites(view: ReadView, states: map<TxId, Status>, me: TxId, t: seq<byte>) {
    var r := HeadOf(t);
    && !TP.HasDel(r.flags) && IsVisible(view, states, r.trx)
    && !(r.trx != INVALID_TX_ID && r.trx != me && r.trx in states && states[r.trx].InProgress?)
    && ImageFits(t)
  }

  lemma SizeIs(log: seq<UL.Entry>, t: seq<byte>, v: Version)
    requires Stores(log, t, v)
    ensures |t| == SizeOf(v.payload) && (TupleFits(t) <==> Fits(v.payload)) && (ImageFits(t) <==> Saves(v))
  {
  }

  /** The bytes decide as the step system does. */
  lemma BytesDecide(log: seq<UL.Entry>, db: Db, me: TxId, i: nat, t: seq<byte>)
    requires HasView(db, me) && i < |db.heap| && Stores(log, t, db.heap[i].v)
    ensures BytesWrites(db.txns[me].view.value, db.states, me, t) <==> Writes(db, me, i)
  {
    SizeIs(log, t, db.heap[i].v);
  }

  // ----- Steps on the bytes -------------------------------------------------------------------

  predicate PtrFits(p: UL.Ptr) { !p.IsNull() && p.page < Range(8) && p.slot < Range(4) }

  function SavedOf(saved: map<TxId, seq<TP.RecHeader>>, t: TxId): seq<TP.RecHeader> {
    if t in saved then saved[t] else []
  }

  function ImageOf(b: seq<byte>, ptr: UL.Ptr): UL.Entry { UL.Entry(ptr, UL.UndoRec(UL.RollOf(b), HeadOf(b).trx, b)) }

  ghost function EditTables(tables: Tables, heap: seq<Rec>, i: nat, r: TP.RecHeader): Tables
    requires i < |heap|
  {
    var table := heap[i].table;
    if table in tables then tables[table := EditRow(tables[table], RidOf(tables, heap, i), r)] else tables
  }

  /** The before-image appended at `ptr`, the header overwritten, the header found there remembered. */
  ghost function MarkStep(s: Store, heap: seq<Rec>, t: TxId, i: nat, ptr: UL.Ptr): Store
    requires i < |heap|
  {
    var b := RowOf(s.tables, heap, i);
    Store(s.log + [ImageOf(b, ptr)],
          EditTables(s.tables, heap, i, TP.RecHeader(t, ptr.page, ptr.slot, TP.SetDel(HeadOf(b).flags))),
          s.saved[t := SavedOf(s.saved, t) + [HeadOf(b)]])
  }

  /** A tuple as Serialize makes it. */
  function NewBytes(t: TxId, ptr: UL.Ptr, p: Payload): (b: seq<byte>)
    ensures |b| == SizeOf(p)
  {
    TP.RecBytes(TP.RecHeader(t, ptr.page, ptr.slot, 0)) + p
  }

  ghost function PutStep(s: Store, t: TxId, table: TableId, ptr: UL.Ptr, p: Payload): Store {
    var b := NewBytes(t, ptr, p);
    Store(s.log, if table in s.tables then s.tables[table := AppendRow(s.tables[table], b)] else s.tables,
          if TupleFits(b) then s.saved[t := SavedOf(s.saved, t) + [TP.RecHeader(0, 0, 0, 0)]] else s.saved)
  }

  /** MarkDead, or the remembered header written back. */
  function UndoneHead(w: WriteRecord, b: seq<byte>, saved: TP.RecHeader): TP.RecHeader {
    if IsInsertKind(w.kind) then HeadOf(b).(flags := TP.SetDead(HeadOf(b).flags)) else saved
  }

  ghost function UndoStep(s: Store, heap: seq<Rec>, t: TxId, w: WriteRecord): Store {
    var rs := SavedOf(s.saved, t);
    if w.rid >= |heap| || rs == [] then s
    else
      s.(tables := EditTables(s.tables, heap, w.rid, UndoneHead(w, RowOf(s.tables, heap, w.rid), rs[|rs| - 1])),
         saved := s.saved[t := rs[..|rs| - 1]])
  }

  lemma MarkTables(s: Store, heap: seq<Rec>, t: TxId, i: nat, ptr: UL.Ptr, v: Version)
    requires TablesSim(s.log, s.tables, heap) && i < |heap| && !heap[i].v.h.del && t < Range(8) && PtrFits(ptr)
    requires v == heap[i].v.(h := heap[i].v.h.(trx := t, roll := At(|s.log|), del := true))
    ensures var s' := MarkStep(s, heap, t, i, ptr); TablesSim(s'.log, s'.tables, heap[i := heap[i].(v := v)])
  {
    var b := RowOf(s.tables, heap, i);
    var e := ImageOf(b, ptr);
    RowFound(s.log, s.tables, heap, i);
    DeleteRefines(s.log, e, b, heap[i].v, t);
    TablesLog(s.log, e, s.tables, heap);
    TablesEdit(s.log + [e], s.tables, heap, i, TP.RecHeader(t, ptr.page, ptr.slot, TP.SetDel(TP.RecOf(b).flags)), v);
  }

  lemma MarkSaved(s: Store, heap: seq<Rec>, txns: map<TxId, Txn>, t: TxId, i: nat, ptr: UL.Ptr, x: Txn)
    requires TablesSim(s.log, s.tables, heap) && AllSaved(s.log, s.saved, txns) && t in txns && i < |heap|
    requires x.writes != [] && x.writes[..|x.writes| - 1] == txns[t].writes
    requires x.writes[|x.writes| - 1].prev == heap[i].v.h
    ensures var s' := MarkStep(s, heap, t, i, ptr); AllSaved(s'.log, s'.saved, txns[t := x])
  {
    var b := RowOf(s.tables, heap, i);
    RowFound(s.log, s.tables, heap, i);
    TP.RecBytesOf(b);
    SavedPush(s.log, s.saved, txns, t, TP.RecOf(b), x);
    SavedLog(s.log, ImageOf(b, ptr), s.saved[t := s.saved[t] + [TP.RecOf(b)]], txns[t := x]);
  }

  lemma SimIs(s: Store, db: Db)
    requires UndoStores(s.log, db.undo) && TablesSim(s.log, s.tables, db.heap) && s.tables.Keys == db.rows.Keys
    requires AllSaved(s.log, s.saved, db.txns)
    ensures Sim(s, db)
  {
  }

  lemma MarkShape(db: Db, t: TxId, kind: WriteKind, i: nat, d: Db)
    requires t in db.txns && i < |db.heap| && !db.heap[i].v.h.del && d == MarkDelete(db, t, kind, i)
    ensures |d.heap| == |db.heap| && d.heap == db.heap[i := db.heap[i].(v := d.heap[i].v)]
    ensures d.undo == db.undo + [db.heap[i].v] && d.rows.Keys == db.rows.Keys
    ensures d.heap[i].v == db.heap[i].v.(h := db.heap[i].v.h.(trx := t, roll := At(|db.undo|), del := true))
    ensures t in d.txns && d.txns == db.txns[t := d.txns[t]]
    ensures var ws := d.txns[t].writes;
      ws != [] && ws[..|ws| - 1] == db.txns[t].writes && ws[|ws| - 1].prev == db.heap[i].v.h
  {
  }

  lemma KeysStay(tables: Tables, heap: seq<Rec>, i: nat, r: TP.RecHeader)
    requires i < |heap|
    ensures EditTables(tables, heap, i, r).Keys == tables.Keys
  {
  }

  lemma MarkSim(s: Store, db: Db, t: TxId, kind: WriteKind, i: nat, ptr: UL.Ptr)
    requires Sim(s, db) && t in db.txns && i < |db.heap| && !db.heap[i].v.h.del && t < Range(8) && PtrFits(ptr)
    ensures Sim(MarkStep(s, db.heap, t, i, ptr), MarkDelete(db, t, kind, i))
  {
    var b, s', d := RowOf(s.tables, db.heap, i), MarkStep(s, db.heap, t, i, ptr), MarkDelete(db, t, kind, i);
    RowFound(s.log, s.tables, db.heap, i);
    SaveRefines(s.log, db.undo, ImageOf(b, ptr), db.heap[i].v);
    MarkShape(db, t, kind, i, d);
    MarkTables(s, db.heap, t, i, ptr, d.heap[i].v);
    MarkSaved(s, db.heap, db.txns, t, i, ptr, d.txns[t]);
    KeysStay(s.tables, db.heap, i, TP.RecHeader(t, ptr.page, ptr.slot, TP.SetDel(HeadOf(b).flags)));
    SimIs(s', d);
  }

  lemma NewStores(log: seq<UL.Entry>, t: TxId, ptr: UL.Ptr, p: Payload, roll: RollPtr)
    requires t < Range(8) && ptr.page < Range(8) && ptr.slot < Range(4) && PtrIs(log, ptr, roll)
    ensures Stores(log, NewBytes(t, ptr, p), Version(Header(t, roll, false, false), p))
  {
    var r, b := TP.RecHeader(t, ptr.page, ptr.slot, 0), NewBytes(t, ptr, p);
    Widths();
    assert TP.WithRec(b, r) == b;
    TP.RecReads(b, r);
  }

  lemma NullSaved(log: seq<UL.Entry>)
    ensures TP.RecFits(TP.RecHeader(0, 0, 0, 0))
    ensures HeaderIs(log, TP.RecHeader(0, 0, 0, 0), Header(INVALID_TX_ID, Null, false, false))
  {
    Widths();
  }

  lemma PutSaved(s: Store, db: Db, t: TxId, kind: WriteKind, table: TableId, roll: RollPtr, p: Payload)
    requires AllSaved(s.log, s.saved, db.txns) && t in db.txns
    ensures AllSaved(s.log, s.saved[t := s.saved[t] + [TP.RecHeader(0, 0, 0, 0)]],
                     Append(db, t, kind, table, roll, p).txns)
  {
    NullSaved(s.log);
    SavedPush(s.log, s.saved, db.txns, t, TP.RecHeader(0, 0, 0, 0), Append(db, t, kind, table, roll, p).txns[t]);
  }

  lemma AppendShape(db: Db, t: TxId, kind: WriteKind, table: TableId, roll: RollPtr, p: Payload, d: Db)
    requires t in db.txns && d == Append(db, t, kind, table, roll, p)
    ensures d.heap == db.heap + [Rec(table, Version(Header(t, roll, false, false), p))] && d.undo == db.undo
    ensures d.rows.Keys == db.rows.Keys
  {
  }

  lemma PutTables(s: Store, heap: seq<Rec>, t: TxId, ptr: UL.Ptr, rec: Rec, s': Store)
    requires TablesSim(s.log, s.tables, heap) && rec.table in s.tables && s.tables[rec.table].f.next + 1 < Range(8)
    requires t < Range(8) && ptr.page < Range(8) && ptr.slot < Range(4) && PtrIs(s.log, ptr, rec.v.h.roll)
    requires rec.v.h == Header(t, rec.v.h.roll, false, false) && s' == PutStep(s, t, rec.table, ptr, rec.v.payload)
    ensures TablesSim(s'.log, s'.tables, if Fits(rec.v.payload) then heap + [rec] else heap)
    ensures s'.log == s.log && s'.tables.Keys == s.tables.Keys
    ensures s'.saved == if Fits(rec.v.payload) then s.saved[t := SavedOf(s.saved, t) + [TP.RecHeader(0, 0, 0, 0)]]
                        else s.saved
  {
    var b := NewBytes(t, ptr, rec.v.payload);
    NewStores(s.log, t, ptr, rec.v.payload, rec.v.h.roll);
    SizeIs(s.log, b, rec.v);
    if Fits(rec.v.payload) {
      TablesAppend(s.log, s.tables, heap, rec, b, AppendRow(s.tables[rec.table], b));
    } else {
      TablesRefuse(s.log, s.tables, heap, rec, b, AppendRow(s.tables[rec.table], b));
    }
  }

  lemma PutSim(s: Store, db: Db, t: TxId, kind: WriteKind, table: TableId, ptr: UL.Ptr, roll: RollPtr, p: Payload)
    requires Sim(s, db) && t in db.txns && table in s.tables && s.tables[table].f.next + 1 < Range(8)
    requires t < Range(8) && ptr.page < Range(8) && ptr.slot < Range(4) && PtrIs(s.log, ptr, roll)
    ensures Sim(PutStep(s, t, table, ptr, p), if Fits(p) then Append(db, t, kind, table, roll, p) else db)
  {
    var s' := PutStep(s, t, table, ptr, p);
    PutTables(s, db.heap, t, ptr, Rec(table, Version(Header(t, roll, false, false), p)), s');
    if Fits(p) {
      var d := Append(db, t, kind, table, roll, p);
      AppendShape(db, t, kind, table, roll, p, d);
      PutSaved(s, db, t, kind, table, roll, p);
      SimIs(s', d);
    }
  }

  /** The header an undone write leaves. */
  function UndoneTo(h: Header, w: WriteRecord): Header { if IsInsertKind(w.kind) then h.(dead := true) else w.prev }

  lemma UndoneStores(log: seq<UL.Entry>, b: seq<byte>, v: Version, w: WriteRecord, saved: TP.RecHeader)
    requires Stores(log, b, v) && TP.RecFits(saved) && HeaderIs(log, saved, w.prev)
    ensures |b| >= TP.REC_HEADER_SIZE
    ensures Stores(log, TP.WithRec(b, UndoneHead(w, b, saved)), v.(h := UndoneTo(v.h, w)))
  {
    if IsInsertKind(w.kind) { KillRefines(log, b, v); } else { RestoreRefines(log, b, v, saved, w.prev); }
  }

  lemma UndoTables(log: seq<UL.Entry>, tables: Tables, heap: seq<Rec>, w: WriteRecord, saved: TP.RecHeader, v: Version)
    requires TablesSim(log, tables, heap) && w.rid < |heap| && TP.RecFits(saved) && HeaderIs(log, saved, w.prev)
    requires v == heap[w.rid].v.(h := UndoneTo(heap[w.rid].v.h, w))
    ensures TablesSim(log, EditTables(tables, heap, w.rid, UndoneHead(w, RowOf(tables, heap, w.rid), saved)),
                      heap[w.rid := heap[w.rid].(v := v)])
  {
    var b := RowOf(tables, heap, w.rid);
    RowFound(log, tables, heap, w.rid);
    UndoneStores(log, b, heap[w.rid].v, w, saved);
    TablesEdit(log, tables, heap, w.rid, UndoneHead(w, b, saved), v);
  }

  lemma SavedPop(log: seq<UL.Entry>, saved: map<TxId, seq<TP.RecHeader>>, txns: map<TxId, Txn>, t: TxId, x: Txn)
    requires AllSaved(log, saved, txns) && t in txns && txns[t].writes != []
    requires x.writes == txns[t].writes[..|txns[t].writes| - 1]
    ensures saved[t] != [] && AllSaved(log, saved[t := saved[t][..|saved[t]| - 1]], txns[t := x])
  {
    assert SavedSim(log, saved[t], txns[t].writes);
  }

  lemma UndoShape(db: Db, t: TxId, w: WriteRecord, d: Db)
    requires t in db.txns && db.txns[t].writes != [] && w == db.txns[t].writes[|db.txns[t].writes| - 1]
    requires w.rid < |db.heap| && d == RollbackLast(db, t)
    ensures var r := db.heap[w.rid]; d.heap == db.heap[w.rid := r.(v := r.v.(h := UndoneTo(r.v.h, w)))]
    ensures d.undo == db.undo && d.rows.Keys == db.rows.Keys && t in d.txns && d.txns == db.txns[t := d.txns[t]]
    ensures d.txns[t].writes == db.txns[t].writes[..|db.txns[t].writes| - 1]
  {
  }

  lemma LastSaved(s: Store, txns: map<TxId, Txn>, t: TxId, w: WriteRecord)
    requires AllSaved(s.log, s.saved, txns) && t in txns && txns[t].writes != []
    requires w == txns[t].writes[|txns[t].writes| - 1]
    ensures t in s.saved && s.saved[t] != []
    ensures var r := s.saved[t][|s.saved[t]| - 1]; TP.RecFits(r) && HeaderIs(s.log, r, w.prev)
  {
    assert SavedSim(s.log, s.saved[t], txns[t].writes);
  }

  lemma UndoStepIs(s: Store, heap: seq<Rec>, t: TxId, w: WriteRecord, saved: TP.RecHeader)
    requires t in s.saved && s.saved[t] != [] && w.rid < |heap| && saved == s.saved[t][|s.saved[t]| - 1]
    ensures UndoStep(s, heap, t, w) ==
            Store(s.log, EditTables(s.tables, heap, w.rid, UndoneHead(w, RowOf(s.tables, heap, w.rid), saved)),
                  s.saved[t := s.saved[t][..|s.saved[t]| - 1]])
  {
  }

  lemma UndoneTables(s: Store, heap: seq<Rec>, t: TxId, w: WriteRecord, saved: TP.RecHeader, v: Version, s': Store)
    requires TablesSim(s.log, s.tables, heap) && t in s.saved && s.saved[t] != [] && w.rid < |heap|
    requires saved == s.saved[t][|s.saved[t]| - 1] && TP.RecFits(saved) && HeaderIs(s.log, saved, w.prev)
    requires v == heap[w.rid].v.(h := UndoneTo(heap[w.rid].v.h, w)) && s' == UndoStep(s, heap, t, w)
    ensures TablesSim(s.log, s'.tables, heap[w.rid := heap[w.rid].(v := v)]) && s'.tables.Keys == s.tables.Keys
  {
    UndoStepIs(s, heap, t, w, saved);
    UndoTables(s.log, s.tables, heap, w, saved, v);
    KeysStay(s.tables, heap, w.rid, UndoneHead(w, RowOf(s.tables, heap, w.rid), saved));
  }

  lemma UndoneSaved(s: Store, heap: seq<Rec>, txns: map<TxId, Txn>, t: TxId, w: WriteRecord, x: Txn, s': Store)
    requires AllSaved(s.log, s.saved, txns) && t in txns && txns[t].writes != [] && w.rid < |heap|
    requires w == txns[t].writes[|txns[t].writes| - 1] && x.writes == txns[t].writes[..|txns[t].writes| - 1]
    requires s' == UndoStep(s, heap, t, w)
    ensures s'.log == s.log && AllSaved(s.log, s'.saved, txns[t := x])
  {
    LastSaved(s, txns, t, w);
    SavedPop(s.log, s.saved, txns, t, x);
    UndoStepIs(s, heap, t, w, s.saved[t][|s.saved[t]| - 1]);
  }

  lemma UndoSim(s: Store, db: Db, t: TxId, w: WriteRecord)
    requires Sim(s, db) && t in db.txns && db.txns[t].writes != [] && w == db.txns[t].writes[|db.txns[t].writes| - 1]
    requires w.rid < |db.heap|
    ensures Sim(UndoStep(s, db.heap, t, w), RollbackLast(db, t))
  {
    var d, s' := RollbackLast(db, t), UndoStep(s, db.heap, t, w);
    UndoShape(db, t, w, d);
    LastSaved(s, db.txns, t, w);
    UndoneTables(s, db.heap, t, w, s.saved[t][|s.saved[t]| - 1], d.heap[w.rid].v, s');
    UndoneSaved(s, db.heap, db.txns, t, w, d.txns[t], s');
    SimIs(s', d);
  }

  // ----- Events -------------------------------------------------------------------------------

  /** Ids still fit their fields, and `ptr` is where the undo store would put an append. */
  ghost predicate Fitting(s: Store, e: Event, ptr: UL.Ptr) {
    && PtrFits(ptr) && (!e.EBegin? ==> e.t < Range(8))
    && forall table :: table in s.tables ==> s.tables[table].f.next + 1 < Range(8)
  }

  ghost predicate Undoable(db: Db, e: Event)
    requires Enabled(db, e)
  {
    e.ERollback? ==> db.txns[e.t].writes[|db.txns[e.t].writes| - 1].rid < |db.heap|
  }

  /** An event on the bytes. */
  ghost function Step(s: Store, db: Db, e: Event, ptr: UL.Ptr): Store
    requires Enabled(db, e)
  {
    match e
    case EBegin => s.(saved := s.saved[db.next := []])
    case EView(_) => s
    case EInsert(t, table, p) => PutStep(s, t, table, UL.Ptr(0, 0), p)
    case EDelete(t, i) =>
      if BytesWrites(db.txns[t].view.value, db.states, t, RowOf(s.tables, db.heap, i))
      then MarkStep(s, db.heap, t, i, ptr) else s
    case EUpdate(t, i, p) =>
      if BytesWrites(db.txns[t].view.value, db.states, t, RowOf(s.tables, db.heap, i))
      then PutStep(MarkStep(s, db.heap, t, i, ptr), t, db.heap[i].table, ptr, p) else s
    case ECommit(t) => s.(saved := s.saved - {t})
    case ERollback(t) => UndoStep(s, db.heap, t, db.txns[t].writes[|db.txns[t].writes| - 1])
    case EAbort(t) => s.(saved := s.saved - {t})
  }

  /** What the bytes decide, in a state they store. */
  lemma Decided(s: Store, db: Db, me: TxId, i: nat)
    requires Sim(s, db) && HasView(db, me) && i < |db.heap|
    ensures BytesWrites(db.txns[me].view.value, db.states, me, RowOf(s.tables, db.heap, i)) <==> Writes(db, me, i)
  {
    RowFound(s.log, s.tables, db.heap, i);
    BytesDecide(s.log, db, me, i, RowOf(s.tables, db.heap, i));
  }

  /** The statements' steps, once the bytes have decided. */
  lemma StepIs(s: Store, db: Db, e: Event, ptr: UL.Ptr)
    requires Enabled(db, e) && (e.EDelete? || e.EUpdate?)
    requires BytesWrites(db.txns[e.t].view.value, db.states, e.t, RowOf(s.tables, db.heap, e.rid))
             <==> Writes(db, e.t, e.rid)
    ensures !Writes(db, e.t, e.rid) ==> Step(s, db, e, ptr) == s && Apply(db, e) == db
    ensures Writes(db, e.t, e.rid) && e.EDelete? ==>
              && Step(s, db, e, ptr) == MarkStep(s, db.heap, e.t, e.rid, ptr)
              && Apply(db, e) == MarkDelete(db, e.t, Delete, e.rid)
    ensures Writes(db, e.t, e.rid) && e.EUpdate? ==>
              && Step(s, db, e, ptr) ==
                 PutStep(MarkStep(s, db.heap, e.t, e.rid, ptr), e.t, db.heap[e.rid].table, ptr, e.payload)
              && Apply(db, e) == PutNew(MarkDelete(db, e.t, UpdateDeleteOld, e.rid), e.t, db.heap[e.rid].table,
                                        At(|db.undo|), e.payload)
  {
  }

  lemma DeleteSim(s: Store, db: Db, e: Event, ptr: UL.Ptr)
    requires Sim(s, db) && Enabled(db, e) && e.EDelete? && Fitting(s, e, ptr)
    ensures Sim(Step(s, db, e, ptr), Apply(db, e))
  {
    Decided(s, db, e.t, e.rid);
    StepIs(s, db, e, ptr);
    if Writes(db, e.t, e.rid) { MarkSim(s, db, e.t, Delete, e.rid, ptr); }
  }

  lemma StuckSim(s: Store, db: Db, t: TxId)
    requires Sim(s, db) && t in db.txns
    ensures Sim(s, LoseNew(db, t))
  {
  }

  lemma PutNewSim(s: Store, db: Db, t: TxId, table: TableId, ptr: UL.Ptr, roll: RollPtr, p: Payload)
    requires Sim(s, db) && t in db.txns && table in s.tables && s.tables[table].f.next + 1 < Range(8)
    requires t < Range(8) && ptr.page < Range(8) && ptr.slot < Range(4) && PtrIs(s.log, ptr, roll)
    ensures Sim(PutStep(s, t, table, ptr, p), PutNew(db, t, table, roll, p))
  {
    PutSim(s, db, t, UpdateInsertNew, table, ptr, roll, p);
    if !Fits(p) { StuckSim(PutStep(s, t, table, ptr, p), db, t); }
  }

  /** After the old row is marked: its table has not grown, and the new pointer leads to the before-image. */
  lemma MarkedShape(s: Store, heap: seq<Rec>, t: TxId, i: nat, ptr: UL.Ptr)
    requires i < |heap| && heap[i].table in s.tables && PtrFits(ptr)
    ensures var s', table := MarkStep(s, heap, t, i, ptr), heap[i].table;
      table in s'.tables && s'.tables[table].f.next == s.tables[table].f.next && PtrIs(s'.log, ptr, At(|s.log|))
  {
  }

  lemma ReplaceSim(s: Store, db: Db, t: TxId, i: nat, p: Payload, ptr: UL.Ptr)
    requires Sim(s, db) && t in db.txns && i < |db.heap| && !db.heap[i].v.h.del && t < Range(8) && PtrFits(ptr)
    requires db.heap[i].table in s.tables && s.tables[db.heap[i].table].f.next + 1 < Range(8)
    ensures Sim(PutStep(MarkStep(s, db.heap, t, i, ptr), t, db.heap[i].table, ptr, p),
                PutNew(MarkDelete(db, t, UpdateDeleteOld, i), t, db.heap[i].table, At(|db.undo|), p))
  {
    MarkSim(s, db, t, UpdateDeleteOld, i, ptr);
    MarkedShape(s, db.heap, t, i, ptr);
    PutNewSim(MarkStep(s, db.heap, t, i, ptr), MarkDelete(db, t, UpdateDeleteOld, i), t, db.heap[i].table, ptr,
              At(|db.undo|), p);
  }

  lemma UpdateSim(s: Store, db: Db, e: Event, ptr: UL.Ptr)
    requires Sim(s, db) && Enabled(db, e) && e.EUpdate? && Fitting(s, e, ptr)
    ensures Sim(Step(s, db, e, ptr), Apply(db, e))
  {
    Decided(s, db, e.t, e.rid);
    StepIs(s, db, e, ptr);
    if Writes(db, e.t, e.rid) { ReplaceSim(s, db, e.t, e.rid, e.payload, ptr); }
  }

  lemma StepIsPut(s: Store, db: Db, e: Event, ptr: UL.Ptr)
    requires Enabled(db, e) && e.EInsert?
    ensures Step(s, db, e, ptr) == PutStep(s, e.t, e.table, UL.Ptr(0, 0), e.payload)
    ensures Apply(db, e) == if Fits(e.payload) then Append(db, e.t, Insert, e.table, Null, e.payload) else db
  {
  }

  lemma InsertSim(s: Store, db: Db, e: Event, ptr: UL.Ptr)
    requires Sim(s, db) && Enabled(db, e) && e.EInsert? && Fitting(s, e, ptr)
    ensures Sim(Step(s, db, e, ptr), Apply(db, e))
  {
    Widths();
    StepIsPut(s, db, e, ptr);
    PutSim(s, db, e.t, Insert, e.table, UL.Ptr(0, 0), Null, e.payload);
  }

  lemma StepIsUndo(s: Store, db: Db, e: Event, ptr: UL.Ptr)
    requires Enabled(db, e) && e.ERollback?
    ensures Step(s, db, e, ptr) == UndoStep(s, db.heap, e.t, db.txns[e.t].writes[|db.txns[e.t].writes| - 1])
    ensures Apply(db, e) == RollbackLast(db, e.t)
  {
  }

  lemma RollbackSim(s: Store, db: Db, e: Event, ptr: UL.Ptr)
    requires Sim(s, db) && Enabled(db, e) && e.ERollback? && Undoable(db, e)
    ensures Sim(Step(s, db, e, ptr), Apply(db, e))
  {
    StepIsUndo(s, db, e, ptr);
    UndoSim(s, db, e.t, db.txns[e.t].writes[|db.txns[e.t].writes| - 1]);
  }

  lemma TxnSim(s: Store, db: Db, e: Event, ptr: UL.Ptr)
    requires Sim(s, db) && Enabled(db, e) && (e.EBegin? || e.EView? || e.ECommit? || e.EAbort?)
    ensures Sim(Step(s, db, e, ptr), Apply(db, e))
  {
  }

  /** Every event keeps the bytes in step with the state. */
  lemma StepSim(s: Store, db: Db, e: Event, ptr: UL.Ptr)
    requires Sim(s, db) && Enabled(db, e) && Undoable(db, e) && Fitting(s, e, ptr)
    ensures Sim(Step(s, db, e, ptr), Apply(db, e))
  {
    if e.EInsert? { InsertSim(s, db, e, ptr); }
    else if e.EDelete? { DeleteSim(s, db, e, ptr); }
    else if e.EUpdate? { UpdateSim(s, db, e, ptr); }
    else if e.ERollback? { RollbackSim(s, db, e, ptr); }
    else { TxnSim(s, db, e, ptr); }
  }

  // ----- Runs ---------------------------------------------------------------------------------

  /** The run `es` on the bytes, with the undo store's pointers in `ptrs`, leads to `s'`. */
  ghost predicate Carries(s: Store, db: Db, es: seq<Event>, ptrs: seq<UL.Ptr>, s': Store)
    requires |ptrs| == |es|
    decreases |es|
  {
    if es == [] then s' == s
    else
      && Enabled(db, es[0]) && Fitting(s, es[0], ptrs[0])
      && Carries(Step(s, db, es[0], ptrs[0]), Apply(db, es[0]), es[1..], ptrs[1..], s')
  }

  lemma CanUndo(db: Db, h: H.History, e: Event)
    requires H.Inv(db, h) && Enabled(db, e)
    ensures Undoable(db, e)
  {
    if e.ERollback? {
      assert H.WritesOk(db, h, e.t) && H.EntryOk(db, h, e.t, db.txns[e.t].writes[|db.txns[e.t].writes| - 1]);
    }
  }

  /** Whatever is run, the bytes store the state it leads to. */
  lemma {:induction false} RunSim(s: Store, db: Db, h: H.History, es: seq<Event>, ptrs: seq<UL.Ptr>, s': Store,
      db': Db, h': H.History)
    requires |ptrs| == |es| && H.Inv(db, h) && Sim(s, db)
    requires H.Reaches(db, h, es, db', h') && Carries(s, db, es, ptrs, s')
    ensures Sim(s', db')
    decreases |es|
  {
    if es != [] {
      CanUndo(db, h, es[0]);
      StepSim(s, db, es[0], ptrs[0]);
      P.StepKeeps(db, h, es[0]);
      RunSim(Step(s, db, es[0], ptrs[0]), Apply(db, es[0]), H.Record(h, db, es[0]), es[1..], ptrs[1..], s', db', h');
    }
  }

  /** No table has a page yet. */
  function Nothing(tables: set<TableId>): Store {
    Store([], map table | table in tables :: Table(TC.File(map[], [], 0, 0, 1), map[]), map[])
  }

  lemma NothingSim(db: Db)
    requires Init(db)
    ensures Sim(Nothing(db.rows.Keys), db)
  {
  }

  /** From the first event on, every run leaves bytes that store its state. */
  lemma BytesFollow(db: Db, es: seq<Event>, ptrs: seq<UL.Ptr>, s': Store, db': Db, h': H.History)
    requires |ptrs| == |es| && Init(db) && H.Reaches(db, H.EMPTY, es, db', h')
    requires Carries(Nothing(db.rows.Keys), db, es, ptrs, s')
    ensures Sim(s', db')
  {
    P.InitInv(db);
    NothingSim(db);
    RunSim(Nothing(db.rows.Keys), db, H.EMPTY, es, ptrs, s', db', h');
  }

  /** So a scan over the bytes such a run leaves is the scan of the state it leads to. */
  method ScanTable(d: CB.Disk, first: nat, undo: UL.Store, table: TableId, u: TxId, view: ReadView,
                   states: map<TxId, Status>, ghost s: Store, ghost db: Db, ghost h: H.History)
    returns (out: seq<seq<byte>>)
    requires Sim(s, db) && H.Reachable(db, h) && table in s.tables && d == s.tables[table].d
    requires first == s.tables[table].f.first && undo.Valid() && undo.log == s.log
    requires HasView(db, u) && view == db.txns[u].view.value && states == db.states
    ensures Readable(db) && AllStore(undo.log, out, Scan(db, u, table))
  {
    P.ReachableInv(db, h);
    S.InvReadable(db, h);
    assert TableSim(s.log, s.tables[table], db.heap, table);
    out := ScanBytes(d, first, undo, table, u, view, states, s.tables[table].f, db);
  }
}
