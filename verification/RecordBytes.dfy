/**
 The step system's records, versions and undo store as bytes: the page edits and the undo appends
 below carry out the steps above, and the chain walk over stored bytes is the walk over versions.
 */
module RecordBytes {
  import opened Bytes
  import opened Common
  import opened Mvcc
  import TP = TablePage
  import UL = UndoLog
  import TC = TableChain
  import CB = ChainBytes

  /** A page id and offset lead to append `roll.index`; page 0 is the null pointer. */
  ghost predicate PtrIs(log: seq<UL.Entry>, p: UL.Ptr, roll: RollPtr) {
    match roll
    case Null => p.IsNull()
    case At(i) => i < |log| && log[i].ptr == p && !p.IsNull()
  }

  ghost predicate HeaderIs(log: seq<UL.Entry>, r: TP.RecHeader, h: Header) {
    && r.trx == h.trx && PtrIs(log, UL.Ptr(r.rollPage, r.rollSlot), h.roll)
    && (TP.HasDel(r.flags) <==> h.del) && (TP.HasDead(r.flags) <==> h.dead)
  }

  /** Tuple bytes `t` are version `v`. */
  ghost predicate Stores(log: seq<UL.Entry>, t: seq<byte>, v: Version) {
    |t| >= TP.REC_HEADER_SIZE && HeaderIs(log, TP.RecOf(t), v.h) && t[TP.REC_HEADER_SIZE..] == v.payload
  }

  /** The appends are the step system's undo store. */
  ghost predicate UndoStores(log: seq<UL.Entry>, undo: seq<Version>) {
    |log| == |undo| && forall k :: 0 <= k < |log| ==> RecStores(log, log[k].rec, undo[k])
  }

  /** An undo record: the before-image, with its writer and its pointer once more in front. */
  ghost predicate RecStores(log: seq<UL.Entry>, u: UL.UndoRec, v: Version) {
    Stores(log, u.payload, v) && u.trx == v.h.trx && PtrIs(log, u.roll, v.h.roll)
  }

  lemma {:induction false} StoresStays(log: seq<UL.Entry>, e: UL.Entry, t: seq<byte>, v: Version)
    requires Stores(log, t, v)
    ensures Stores(log + [e], t, v)
  {
  }

  /** Saving the before-image extends the undo store by that version. */
  lemma {:induction false} SaveRefines(log: seq<UL.Entry>, undo: seq<Version>, e: UL.Entry, v: Version)
    requires UndoStores(log, undo) && RecStores(log, e.rec, v)
    ensures UndoStores(log + [e], undo + [v])
  {
    forall k | 0 <= k < |log| + 1 ensures RecStores(log + [e], (log + [e])[k].rec, (undo + [v])[k]) {
      if k < |log| { StoresStays(log, e, log[k].rec.payload, undo[k]); } else { StoresStays(log, e, e.rec.payload, v); }
    }
  }

  /** MarkDelete on the bytes, with the pointer of the append just made, is the step's new header. */
  lemma {:induction false} DeleteRefines(log: seq<UL.Entry>, e: UL.Entry, t: seq<byte>, v: Version, trx: TxId)
    requires Stores(log, t, v) && !v.h.del && !e.ptr.IsNull()
    requires trx < Range(8) && e.ptr.page < Range(8) && e.ptr.slot < Range(4)
    ensures var h' := v.h.(trx := trx, roll := At(|log|), del := true);
      Stores(log + [e], TP.Deleted(t, trx, e.ptr.page, e.ptr.slot), v.(h := h'))
  {
    TP.DeletedReads(t, trx, e.ptr.page, e.ptr.slot);
  }

  /** MarkDead on the bytes. */
  lemma {:induction false} KillRefines(log: seq<UL.Entry>, t: seq<byte>, v: Version)
    requires Stores(log, t, v)
    ensures Stores(log, TP.Killed(t), v.(h := v.h.(dead := true)))
  {
    TP.KilledReads(t);
    TP.RecBytesOf(t);
    TP.SetDeadFits(TP.RecOf(t).flags);
  }

  /** RestoreRecord on the bytes. */
  lemma {:induction false} RestoreRefines(log: seq<UL.Entry>, t: seq<byte>, v: Version, r: TP.RecHeader, prev: Header)
    requires Stores(log, t, v) && TP.RecFits(r) && HeaderIs(log, r, prev)
    ensures Stores(log, TP.WithRec(t, r), v.(h := prev))
  {
    TP.RecReads(t, r);
  }

  /** Bytes and versions agree on where the chain goes on. */
  lemma {:induction false} NextVersion(log: seq<UL.Entry>, undo: seq<Version>, t: seq<byte>, v: Version)
    requires UndoStores(log, undo) && Stores(log, t, v)
    ensures UL.RollOf(t).IsNull() <==> v.h.roll.Null?
    ensures v.h.roll.At? ==> v.h.roll.index < |undo| && log[v.h.roll.index].ptr == UL.RollOf(t)
                             && Stores(log, log[v.h.roll.index].rec.payload, undo[v.h.roll.index])
  {
  }

  /** The undo store is acyclic on the bytes as well. */
  lemma {:induction false} AcyclicBytes(log: seq<UL.Entry>, undo: seq<Version>)
    requires UndoStores(log, undo) && Acyclic(undo)
    ensures UL.Linked(log)
  {
    forall k | 0 <= k < |log| ensures UL.LinkedAt(log, k) {
      NextVersion(log, undo, log[k].rec.payload, undo[k]);
      assert Below(undo[k].h.roll, k);
    }
  }

  /** The loop of ExecutorSeqScan::Next on one physical record, over page and undo bytes. */
  method WalkBytes(view: ReadView, states: map<TxId, Status>, store: UL.Store, t: seq<byte>, ghost undo: seq<Version>,
      ghost v: Version)
    returns (found: bool, tuple: seq<byte>)
    requires store.Valid() && UndoStores(store.log, undo) && Stores(store.log, t, v) && Acyclic(undo)
    requires Below(v.h.roll, |undo|)
    ensures found <==> Walk(view, states, undo, v).Some?
    ensures found ==> Stores(store.log, tuple, Walk(view, states, undo, v).value)
  {
    tuple := t;
    ghost var cur := v;
    while true
      invariant Stores(store.log, tuple, cur) && Below(cur.h.roll, |undo|)
      invariant Walk(view, states, undo, cur) == Walk(view, states, undo, v)
      decreases if cur.h.roll.At? then cur.h.roll.index + 1 else 0
    {
      var h := TP.RecOf(tuple);
      if IsVisible(view, states, h.trx) {
        found := !TP.HasDel(h.flags);
        return;
      }
      var p := UL.RollOf(tuple);
      NextVersion(store.log, undo, tuple, cur);
      if p.IsNull() {
        found := false;
        return;
      }
      ghost var k := cur.h.roll.index;
      assert Below(undo[k].h.roll, k);
      var u := store.Get(p, k);
      tuple := u.payload;
      cur := undo[k];
    }
  }

  // ----- The whole scan -----------------------------------------------------------------------

  /** The heap positions of a table's records, in heap order. */
  ghost function Positions(heap: seq<Rec>, table: TableId, n: nat): seq<nat>
    requires n <= |heap|
  {
    if n == 0 then []
    else if heap[n - 1].table == table then Positions(heap, table, n - 1) + [n - 1]
    else Positions(heap, table, n - 1)
  }

  lemma {:induction false} PositionAt(heap: seq<Rec>, table: TableId, n: nat, k: nat)
    requires n <= |heap| && k < |Positions(heap, table, n)|
    ensures Positions(heap, table, n)[k] < n && heap[Positions(heap, table, n)[k]].table == table
  {
    if k < |Positions(heap, table, n - 1)| { PositionAt(heap, table, n - 1, k); }
  }

  /** The table's page chain holds its part of the heap, tuple for record. */
  ghost predicate TableStores(log: seq<UL.Entry>, tuples: seq<seq<byte>>, heap: seq<Rec>, table: TableId) {
    var ids := Positions(heap, table, |heap|);
    |tuples| == |ids| && forall k :: 0 <= k < |ids| ==> ids[k] < |heap| && Stores(log, tuples[k], heap[ids[k]].v)
  }

  /** What every record shows to `u`. */
  ghost predicate Showing(db: Db, u: TxId, es: seq<seq<Version>>)
    requires HasView(db, u) && Readable(db)
  {
    |es| == |db.heap| && forall i :: 0 <= i < |es| ==> es[i] == Emit(db, u, i)
  }

  /** The parts at these positions, one after the other. */
  function Join(es: seq<seq<Version>>, ids: seq<nat>): seq<Version> {
    if ids == [] then []
    else
      var i := ids[|ids| - 1];
      Join(es, ids[..|ids| - 1]) + if i < |es| then es[i] else []
  }

  lemma {:induction false} JoinSnoc(es: seq<seq<Version>>, ids: seq<nat>, i: nat)
    requires i < |es|
    ensures Join(es, ids + [i]) == Join(es, ids) + es[i]
  {
    assert (ids + [i])[..|ids|] == ids;
  }

  /** The parts of a table's records among the first `n`. */
  function Pick(heap: seq<Rec>, table: TableId, es: seq<seq<Version>>, n: nat): seq<Version>
    requires n <= |heap| == |es|
  {
    if n == 0 then [] else Pick(heap, table, es, n - 1) + if heap[n - 1].table == table then es[n - 1] else []
  }

  lemma {:induction false} PickIsJoin(heap: seq<Rec>, table: TableId, es: seq<seq<Version>>, n: nat)
    requires n <= |heap| == |es|
    ensures Pick(heap, table, es, n) == Join(es, Positions(heap, table, n))
  {
    if n > 0 {
      PickIsJoin(heap, table, es, n - 1);
      if heap[n - 1].table == table { JoinSnoc(es, Positions(heap, table, n - 1), n - 1); }
    }
  }

  lemma {:induction false} ScanIsPick(db: Db, u: TxId, table: TableId, es: seq<seq<Version>>, n: nat)
    requires HasView(db, u) && Readable(db) && Showing(db, u, es) && n <= |db.heap|
    ensures ScanTo(db, u, table, n) == Pick(db.heap, table, es, n)
  {
    if n > 0 {
      ScanIsPick(db, u, table, es, n - 1);
      assert es[n - 1] == Emit(db, u, n - 1);
    }
  }

  /** Tuple bytes `out` are the versions `vs`, in order. */
  ghost predicate AllStore(log: seq<UL.Entry>, out: seq<seq<byte>>, vs: seq<Version>) {
    |out| == |vs| && forall k :: 0 <= k < |vs| ==> Stores(log, out[k], vs[k])
  }

  lemma {:induction false} AllStoreSnoc(log: seq<UL.Entry>, out: seq<seq<byte>>, vs: seq<Version>, t: seq<byte>,
      v: Version)
    requires AllStore(log, out, vs) && Stores(log, t, v)
    ensures AllStore(log, out + [t], vs + [v])
  {
  }

  /** One record of the scan: skip it if dead, else walk. */
  method EmitBytes(store: UL.Store, t: seq<byte>, out: seq<seq<byte>>, ghost db: Db, ghost i: nat, u: TxId,
                   view: ReadView, states: map<TxId, Status>, ghost vs: seq<Version>)
    returns (out': seq<seq<byte>>)
    requires store.Valid() && UndoStores(store.log, db.undo) && Readable(db) && i < |db.heap|
    requires Stores(store.log, t, db.heap[i].v) && AllStore(store.log, out, vs)
    requires HasView(db, u) && view == db.txns[u].view.value && states == db.states
    ensures AllStore(store.log, out', vs + Emit(db, u, i))
  {
    out' := out;
    if !TP.HasDead(TP.RecOf(t).flags) {
      var found, tuple := WalkBytes(view, states, store, t, db.undo, db.heap[i].v);
      if found {
        out' := out + [tuple];
        AllStoreSnoc(store.log, out, vs, tuple, Walk(view, states, db.undo, db.heap[i].v).value);
      }
    }
    assert Emit(db, u, i) == [] ==> vs + Emit(db, u, i) == vs;
  }

  method EmitTuples(store: UL.Store, tuples: seq<seq<byte>>, ghost ids: seq<nat>, u: TxId, view: ReadView,
                    states: map<TxId, Status>, ghost db: Db, ghost es: seq<seq<Version>>)
    returns (out: seq<seq<byte>>)
    requires store.Valid() && UndoStores(store.log, db.undo) && Readable(db) && |tuples| == |ids|
    requires forall k :: 0 <= k < |ids| ==> ids[k] < |db.heap| && Stores(store.log, tuples[k], db.heap[ids[k]].v)
    requires HasView(db, u) && view == db.txns[u].view.value && states == db.states && Showing(db, u, es)
    ensures AllStore(store.log, out, Join(es, ids))
  {
    out := [];
    for k := 0 to |tuples|
      invariant AllStore(store.log, out, Join(es, ids[..k]))
    {
      assert ids[..k + 1] == ids[..k] + [ids[k]];
      JoinSnoc(es, ids[..k], ids[k]);
      out := EmitBytes(store, tuples[k], out, db, ids[k], u, view, states, Join(es, ids[..k]));
    }
    assert ids[..|ids|] == ids;
  }

  /**
   ExecutorSeqScan over the bytes of pages and undo pages: from the first page along the links, row by
   row through the slots, the dead flag, the walk. It returns, as bytes, exactly the scan of the step
   system.
   */
  method ScanBytes(d: CB.Disk, first: nat, store: UL.Store, table: TableId, u: TxId, view: ReadView,
                   states: map<TxId, Status>, ghost f: TC.File, ghost db: Db)
    returns (out: seq<seq<byte>>)
    requires TC.ChainOk(f) && CB.OnDisk(d, f) && first == f.first
    requires store.Valid() && UndoStores(store.log, db.undo) && Readable(db)
    requires TableStores(store.log, TC.AllTuples(f), db.heap, table)
    requires HasView(db, u) && view == db.txns[u].view.value && states == db.states
    ensures AllStore(store.log, out, Scan(db, u, table))
  {
    var tuples := CB.ScanPages(d, first, f);
    ghost var es := seq(|db.heap|, i requires 0 <= i < |db.heap| => Emit(db, u, i));
    ScanIsPick(db, u, table, es, |db.heap|);
    PickIsJoin(db.heap, table, es, |db.heap|);
    out := EmitTuples(store, tuples, Positions(db.heap, table, |db.heap|), u, view, states, db, es);
  }

  /** A record appended to the heap and to the chain keeps the two in step. */
  lemma {:induction false} InsertRefines(log: seq<UL.Entry>, tuples: seq<seq<byte>>, heap: seq<Rec>, r: Rec,
      t: seq<byte>)
    requires TableStores(log, tuples, heap, r.table) && Stores(log, t, r.v)
    ensures TableStores(log, tuples + [t], heap + [r], r.table)
  {
    PositionsAppend(heap, r, r.table, |heap|);
  }

  lemma {:induction false} PositionsAppend(heap: seq<Rec>, r: Rec, table: TableId, n: nat)
    requires n <= |heap|
    ensures Positions(heap + [r], table, n) == Positions(heap, table, n)
  {
    if n > 0 { PositionsAppend(heap, r, table, n - 1); }
  }

  /** A record's header edited on its page and in the heap keeps the two in step. */
  lemma {:induction false} EditRefines(log: seq<UL.Entry>, tuples: seq<seq<byte>>, heap: seq<Rec>, table: TableId,
      k: nat, t: seq<byte>, v: Version)
    requires TableStores(log, tuples, heap, table) && k < |tuples| && Stores(log, t, v)
    ensures var i := Positions(heap, table, |heap|)[k];
      i < |heap| && TableStores(log, tuples[k := t], heap[i := heap[i].(v := v)], table)
  {
    var ids := Positions(heap, table, |heap|);
    var heap' := heap[ids[k] := heap[ids[k]].(v := v)];
    PositionsSame(heap, heap', table, |heap|);
    forall j | 0 <= j < |ids| ensures Stores(log, tuples[k := t][j], heap'[ids[j]].v) {
      if j < k { Ascending(heap, table, |heap|, j, k); } else if k < j { Ascending(heap, table, |heap|, k, j); }
    }
  }

  lemma {:induction false} PositionsSame(heap: seq<Rec>, heap': seq<Rec>, table: TableId, n: nat)
    requires n <= |heap| == |heap'| && forall i :: 0 <= i < |heap| ==> heap'[i].table == heap[i].table
    ensures Positions(heap', table, n) == Positions(heap, table, n)
  {
    if n > 0 { PositionsSame(heap, heap', table, n - 1); }
  }

  lemma {:induction false} Ascending(heap: seq<Rec>, table: TableId, n: nat, j: nat, k: nat)
    requires n <= |heap| && j < k < |Positions(heap, table, n)|
    ensures Positions(heap, table, n)[j] < Positions(heap, table, n)[k]
  {
    if k < |Positions(heap, table, n - 1)| {
      Ascending(heap, table, n - 1, j, k);
    } else {
      PositionAt(heap, table, n - 1, j);
    }
  }
}
