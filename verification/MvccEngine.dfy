/**
 The transaction manager and the executors in their own form: an object whose methods update its
 tables in place and loop over active transactions, write sets, records and version chains. Each
 method is proved against a function of the step system; the theorems below are about those functions.
 */
module MvccEngine {
  import opened Common
  import opened Mvcc
  import opened MvccTheorems

  type Filter = Version -> bool
  type Rewrite = Version -> Payload

  // ----- Statements as functions --------------------------------------------------------------

  /** A statement ends, or throws for a write conflict or for a row whose before-image no undo page takes. */
  datatype Ending = Finished | Conflict | NoRoom

  /** A statement's state, its row count, and how it ended. */
  datatype Result = Result(db: Db, count: nat, end: Ending)

  predicate Selected(db: Db, t: TxId, table: TableId, f: Filter, i: nat)
    requires HasView(db, t) && i < |db.heap|
  {
    db.heap[i].table == table && Hit(db, t, i) && f(db.heap[i].v)
  }

  /** DELETE's turn at record `i`; after an exception nothing more happens. */
  function DeleteTurn(r: Result, t: TxId, table: TableId, f: Filter, i: nat): (r': Result)
    requires HasView(r.db, t) && i < |r.db.heap|
    ensures HasView(r'.db, t) && |r'.db.heap| == |r.db.heap|
  {
    if !r.end.Finished? || !Selected(r.db, t, table, f, i) then r
    else if Conflicts(r.db, t, i) then r.(end := Conflict)
    else if !Saves(r.db.heap[i].v) then r.(end := NoRoom)
    else Result(MarkDelete(r.db, t, Delete, i), r.count + 1, Finished)
  }

  /** DELETE over the first `n` records. */
  function DeleteTo(db: Db, t: TxId, table: TableId, f: Filter, n: nat): (r: Result)
    requires HasView(db, t) && n <= |db.heap|
    ensures HasView(r.db, t) && |r.db.heap| == |db.heap|
  {
    if n == 0 then Result(db, 0, Finished) else DeleteTurn(DeleteTo(db, t, table, f, n - 1), t, table, f, n - 1)
  }

  /** A row to update: where it is and the bytes it had when the statement read it. */
  datatype Found = Found(rid: nat, was: Version)

  datatype Hits = Hits(found: seq<Found>, conflict: bool)

  /** The collecting phase of UPDATE over the first `n` records. */
  function CollectTo(db: Db, t: TxId, table: TableId, f: Filter, n: nat): (r: Hits)
    requires HasView(db, t) && n <= |db.heap|
    ensures forall k :: 0 <= k < |r.found| ==> r.found[k].rid < n && r.found[k].was == db.heap[r.found[k].rid].v
  {
    if n == 0 then Hits([], false)
    else
      var r := CollectTo(db, t, table, f, n - 1);
      if r.conflict || !Selected(db, t, table, f, n - 1) then r
      else if Conflicts(db, t, n - 1) then r.(conflict := true)
      else Hits(r.found + [Found(n - 1, db.heap[n - 1].v)], false)
  }

  /** Delete-old and insert-new from the collected bytes; marking is skipped on a deleted record. */
  function Replace(db: Db, t: TxId, table: TableId, x: Found, bytes: Payload): (d: Db)
    requires t in db.txns && x.rid < |db.heap|
    ensures t in d.txns && |d.heap| == |db.heap| + if Fits(bytes) then 1 else 0
  {
    var r := db.heap[x.rid];
    var p := At(|db.undo|);
    var d1 := db.(
      undo := db.undo + [x.was],
      heap := if r.v.h.del then db.heap
              else db.heap[x.rid := r.(v := r.v.(h := r.v.h.(trx := t, roll := p, del := true)))],
      rows := if r.v.h.del then db.rows else AddRows(db.rows, r.table, -1),
      txns := db.txns[t := db.txns[t].(writes := db.txns[t].writes + [WriteRecord(UpdateDeleteOld, x.rid, x.was.h)])]);
    PutNew(d1, t, table, p, bytes)
  }

  /** The writing phase of UPDATE: a before-image that cannot be saved ends it. */
  function ReplaceAll(db: Db, t: TxId, table: TableId, found: seq<Found>, rw: Rewrite): (r: Result)
    requires t in db.txns && forall k :: 0 <= k < |found| ==> found[k].rid < |db.heap|
    ensures t in r.db.txns && |db.heap| <= |r.db.heap| && r.count <= |found|
  {
    if found == [] then Result(db, 0, Finished)
    else
      var n := |found| - 1;
      var r := ReplaceAll(db, t, table, found[..n], rw);
      if !r.end.Finished? then r
      else if !Saves(found[n].was) then r.(end := NoRoom)
      else Result(Replace(r.db, t, table, found[n], rw(found[n].was)), r.count + 1, Finished)
  }

  function UpdateAll(db: Db, t: TxId, table: TableId, f: Filter, rw: Rewrite): Result
    requires HasView(db, t)
  {
    var c := CollectTo(db, t, table, f, |db.heap|);
    if c.conflict then Result(db, 0, Conflict) else ReplaceAll(db, t, table, c.found, rw)
  }

  predicate InRange(ws: seq<WriteRecord>, n: nat) {
    forall k :: 0 <= k < |ws| ==> ws[k].rid < n
  }

  /** Undo the first `k` writes, last one first. */
  function UndoAll(db: Db, ws: seq<WriteRecord>, k: nat): (d: Db)
    requires k <= |ws| && InRange(ws, |db.heap|)
    ensures d == db.(heap := d.heap, rows := d.rows) && |d.heap| == |db.heap|
    decreases k
  {
    if k == 0 then db else UndoAll(UndoWrite(db, ws[k - 1]), ws, k - 1)
  }

  /** The step system pops the write set as it goes; the loop only reads it. */
  lemma {:induction false} AbortIsUndoAll(db: Db, t: TxId)
    requires t in db.txns && InRange(db.txns[t].writes, |db.heap|)
    ensures AbortAll(db, t) == Finish(UndoAll(db, db.txns[t].writes, |db.txns[t].writes|), t, Aborted)
  {
    PoppingAgrees(db, db, t, db.txns[t].writes, |db.txns[t].writes|);
  }

  lemma {:induction false} PoppingAgrees(g: Db, db: Db, t: TxId, ws: seq<WriteRecord>, k: nat)
    requires t in g.txns && g.txns - {t} == db.txns - {t} && g == db.(txns := g.txns)
    requires k <= |ws| && g.txns[t].writes == ws[..k] && InRange(ws, |db.heap|)
    ensures AbortAll(g, t) == Finish(UndoAll(db, ws, k), t, Aborted)
    decreases k
  {
    if k > 0 {
      assert ws[..k][..k - 1] == ws[..k - 1];
      PoppingAgrees(RollbackLast(g, t), UndoWrite(db, ws[k - 1]), t, ws, k - 1);
    }
  }

  // ----- The engine ---------------------------------------------------------------------------

  class Engine {
    var next: TxId
    var txns: map<TxId, Txn>
    var states: map<TxId, Status>
    var heap: seq<Rec>
    var undo: seq<Version>
    var rows: map<TableId, nat>

    function Abs(): Db
      reads this
    {
      Db(next, txns, states, heap, undo, rows)
    }

    constructor (tables: set<TableId>)
      ensures Init(Abs()) && Abs().rows.Keys == tables
    {
      next, txns, states, heap, undo := 1, map[], map[], [], [];
      rows := map table | table in tables :: 0;
    }

    method Begin() returns (t: TxId)
      modifies this
      ensures t == old(next) && next == t + 1 && Abs() == CreateReadView(Mvcc.Begin(old(Abs())), t)
    {
      t := next;
      next := next + 1;
      txns := txns[t := Txn(None, [], false, 0)];
      states := states[t := InProgress];
      var view := CreateView(t);
      txns := txns[t := txns[t].(view := Some(view))];
    }

    /** The loop over active transactions: the low watermark is the smallest of them. */
    method CreateView(id: TxId) returns (view: ReadView)
      ensures view == MakeView(Abs(), id)
      ensures view.activeIds == txns.Keys - {id} && view.lowLimit == next
      ensures (forall a :: a in view.activeIds ==> view.upLimit <= a || next <= a)
      ensures view.upLimit <= next && (view.upLimit < next ==> view.upLimit in view.activeIds)
    {
      var low := next;
      var up := low;
      var active: set<TxId> := {};
      var todo := txns.Keys;
      while todo != {}
        invariant todo <= txns.Keys
        invariant active == set a | a in txns.Keys - todo && a != id
        invariant up <= low && (up < low ==> up in active) && forall a :: a in active ==> up <= a || low <= a
        decreases |todo|
      {
        var a :| a in todo;
        todo := todo - {a};
        if a != id {
          active := active + {a};
          up := if a < up then a else up;
        }
      }
      assert active == MakeView(Abs(), id).activeIds;
      assert FirstActive(active, 0, low) == up;
      view := ReadView(id, up, low, active);
    }

    method Commit(id: TxId) returns (found: bool)
      modifies this
      ensures found <==> id in old(txns)
      ensures Abs() == if found then Finish(old(Abs()), id, Committed) else old(Abs())
    {
      found := id in txns;
      if found {
        states := states[id := Committed];
        txns := txns - {id};
      }
    }

    /** MarkDead or RestoreRecord. */
    method UndoOne(w: WriteRecord)
      requires w.rid < |heap|
      modifies this`heap, this`rows
      ensures Abs() == UndoWrite(old(Abs()), w)
    {
      var r := heap[w.rid];
      if IsInsertKind(w.kind) {
        heap := heap[w.rid := r.(v := r.v.(h := r.v.h.(dead := true)))];
        if Live(r.v.h) { rows := AddRows(rows, r.table, -1); }
      } else {
        heap := heap[w.rid := r.(v := r.v.(h := w.prev))];
        if r.v.h.del && !w.prev.del { rows := AddRows(rows, r.table, 1); }
      }
    }

    /** The reverse walk over the write set, then the change of state. */
    method Abort(id: TxId) returns (found: bool)
      requires id in txns ==> InRange(txns[id].writes, |heap|) && txns[id].stuck == 0
      modifies this
      ensures found <==> id in old(txns)
      ensures Abs() == if found then AbortAll(old(Abs()), id) else old(Abs())
    {
      found := id in txns;
      if found {
        var ws := txns[id].writes;
        var k := |ws|;
        while k > 0
          invariant 0 <= k <= |ws| && |heap| == old(|heap|) && txns == old(txns)
          invariant UndoAll(Abs(), ws, k) == UndoAll(old(Abs()), ws, |ws|)
        {
          k := k - 1;
          UndoOne(ws[k]);
        }
        states := states[id := Aborted];
        txns := txns - {id};
        AbortIsUndoAll(old(Abs()), id);
      }
    }

    /** False stands for the tuple-too-large exception. */
    method Insert(t: TxId, table: TableId, p: Payload) returns (ok: bool, rid: nat)
      requires t in txns
      modifies this
      ensures ok == Fits(p) && (ok ==> rid == old(|heap|))
      ensures Abs() == After(old(Abs()), InsertRecord(old(Abs()), t, table, p))
    {
      ok, rid := Fits(p), |heap|;
      if !ok { return; }
      heap := heap + [Rec(table, Version(Header(t, Null, false, false), p))];
      rows := AddRows(rows, table, 1);
      var w := WriteRecord(WriteKind.Insert, rid, Header(INVALID_TX_ID, Null, false, false));
      txns := txns[t := txns[t].(writes := txns[t].writes + [w])];
    }

    method MarkOne(t: TxId, i: nat)
      requires t in txns && i < |heap| && !heap[i].v.h.del
      modifies this
      ensures Abs() == MarkDelete(old(Abs()), t, WriteKind.Delete, i)
    {
      var r := heap[i];
      var p := At(|undo|);
      undo := undo + [r.v];
      heap := heap[i := r.(v := r.v.(h := r.v.h.(trx := t, roll := p, del := true)))];
      rows := AddRows(rows, r.table, -1);
      txns := txns[t := txns[t].(writes := txns[t].writes + [WriteRecord(WriteKind.Delete, i, r.v.h)])];
    }

    method DeleteWhere(t: TxId, table: TableId, f: Filter) returns (count: nat, end: Ending)
      requires HasView(Abs(), t)
      modifies this
      ensures Result(Abs(), count, end) == DeleteTo(old(Abs()), t, table, f, old(|heap|))
    {
      count, end := 0, Finished;
      var i := 0;
      while i < |heap| && end.Finished?
        invariant |heap| == old(|heap|) && i <= |heap|
        invariant Result(Abs(), count, end) == DeleteTo(old(Abs()), t, table, f, i)
        decreases |heap| - i, end.Finished?
      {
        if Selected(Abs(), t, table, f, i) {
          if Conflicts(Abs(), t, i) {
            end := Conflict;
          } else if !Saves(heap[i].v) {
            end := NoRoom;
          } else {
            MarkOne(t, i);
            count := count + 1;
          }
        }
        i := i + 1;
      }
      ThrowStops(old(Abs()), t, table, f, i, |heap|);
    }

    /** Phase one of UPDATE: nothing is written while the records are read. */
    method Collect(t: TxId, table: TableId, f: Filter) returns (hits: Hits)
      requires HasView(Abs(), t)
      ensures hits == CollectTo(Abs(), t, table, f, |heap|)
    {
      var found: seq<Found>, conflict := [], false;
      var i := 0;
      while i < |heap| && !conflict
        invariant i <= |heap|
        invariant Hits(found, conflict) == CollectTo(Abs(), t, table, f, i)
        decreases |heap| - i, !conflict
      {
        if Selected(Abs(), t, table, f, i) {
          if Conflicts(Abs(), t, i) { conflict := true; } else { found := found + [Found(i, heap[i].v)]; }
        }
        i := i + 1;
      }
      CollectStops(Abs(), t, table, f, i, |heap|);
      hits := Hits(found, conflict);
    }

    /** One turn of phase two: delete-old, then insert-new at the end of the heap. */
    method ReplaceOne(t: TxId, table: TableId, x: Found, bytes: Payload)
      requires t in txns && x.rid < |heap|
      modifies this
      ensures Abs() == Replace(old(Abs()), t, table, x, bytes)
    {
      var r := heap[x.rid];
      var p := At(|undo|);
      undo := undo + [x.was];
      if !r.v.h.del {
        heap := heap[x.rid := r.(v := r.v.(h := r.v.h.(trx := t, roll := p, del := true)))];
        rows := AddRows(rows, r.table, -1);
      }
      txns := txns[t := txns[t].(writes := txns[t].writes + [WriteRecord(UpdateDeleteOld, x.rid, x.was.h)])];
      if Fits(bytes) {
        var w := WriteRecord(UpdateInsertNew, |heap|, Header(INVALID_TX_ID, Null, false, false));
        heap := heap + [Rec(table, Version(Header(t, p, false, false), bytes))];
        rows := AddRows(rows, table, 1);
        txns := txns[t := txns[t].(writes := txns[t].writes + [w])];
      } else {
        txns := txns[t := txns[t].(stuck := |txns[t].writes|)];
      }
    }

    method UpdateWhere(t: TxId, table: TableId, f: Filter, rw: Rewrite) returns (count: nat, end: Ending)
      requires HasView(Abs(), t)
      modifies this
      ensures Result(Abs(), count, end) == UpdateAll(old(Abs()), t, table, f, rw)
    {
      var hits := Collect(t, table, f);
      count, end := 0, if hits.conflict then Conflict else Finished;
      if !hits.conflict { count, end := WriteAll(t, table, hits.found, rw); }
    }

    /** Phase two of UPDATE. */
    method WriteAll(t: TxId, table: TableId, found: seq<Found>, rw: Rewrite) returns (count: nat, end: Ending)
      requires t in txns && forall k :: 0 <= k < |found| ==> found[k].rid < |heap|
      modifies this
      ensures Result(Abs(), count, end) == ReplaceAll(old(Abs()), t, table, found, rw)
    {
      count, end := 0, Finished;
      while count < |found| && end.Finished?
        invariant count <= |found| && old(|heap|) <= |heap| && t in txns && !end.Conflict?
        invariant Result(Abs(), count, Finished) == ReplaceAll(old(Abs()), t, table, found[..count], rw)
        invariant end.NoRoom? ==> count < |found| && !Saves(found[count].was)
        decreases |found| - count, end.Finished?
      {
        if Saves(found[count].was) {
          ReplaceSnoc(old(Abs()), t, table, found, rw, count);
          ReplaceOne(t, table, found[count], rw(found[count].was));
          count := count + 1;
        } else {
          end := NoRoom;
        }
      }
      if end.NoRoom? {
        ReplaceSnoc(old(Abs()), t, table, found, rw, count);
        NoRoomStops(old(Abs()), t, table, found, rw, count + 1, |found|);
      }
      assert found[..|found|] == found;
    }

    /** The sequential scan: for every record the walk along its version chain. */
    method SeqScan(u: TxId, table: TableId) returns (out: seq<Version>)
      requires HasView(Abs(), u) && Readable(Abs())
      ensures out == Scan(Abs(), u, table)
    {
      out := [];
      var view := txns[u].view.value;
      for i := 0 to |heap|
        invariant out == ScanTo(Abs(), u, table, i)
      {
        var physical := heap[i];
        if physical.table == table && !physical.v.h.dead {
          var current := physical.v;
          var searching := true;
          while searching
            invariant Below(current.h.roll, |undo|)
            invariant searching ==> Walk(view, states, undo, current) == Walk(view, states, undo, physical.v)
            invariant !searching ==> out == ScanTo(Abs(), u, table, i + 1)
            invariant searching ==> out == ScanTo(Abs(), u, table, i)
            decreases searching, if current.h.roll.At? then current.h.roll.index + 1 else 0
          {
            if IsVisible(view, states, current.h.trx) {
              if !current.h.del { out := out + [current]; }
              searching := false;
            } else if current.h.roll.Null? {
              searching := false;
            } else {
              assert Below(undo[current.h.roll.index].h.roll, current.h.roll.index);
              current := undo[current.h.roll.index];
            }
          }
        }
      }
    }
  }

  lemma {:induction false} ThrowStops(db: Db, t: TxId, table: TableId, f: Filter, i: nat, n: nat)
    requires HasView(db, t) && i <= n <= |db.heap| && (i < n ==> !DeleteTo(db, t, table, f, i).end.Finished?)
    ensures DeleteTo(db, t, table, f, n) == DeleteTo(db, t, table, f, i)
  {
    if i < n { ThrowStops(db, t, table, f, i, n - 1); }
  }

  lemma {:induction false} ReplaceSnoc(db: Db, t: TxId, table: TableId, found: seq<Found>, rw: Rewrite, k: nat)
    requires t in db.txns && (forall j :: 0 <= j < |found| ==> found[j].rid < |db.heap|) && k < |found|
    ensures var r, x := ReplaceAll(db, t, table, found[..k], rw), found[k];
      ReplaceAll(db, t, table, found[..k + 1], rw) ==
      if !r.end.Finished? then r
      else if !Saves(x.was) then r.(end := NoRoom)
      else Result(Replace(r.db, t, table, x, rw(x.was)), r.count + 1, Finished)
  {
    assert found[..k + 1][..k] == found[..k];
  }

  lemma {:induction false} NoRoomStops(db: Db, t: TxId, table: TableId, found: seq<Found>, rw: Rewrite, i: nat, n: nat)
    requires t in db.txns && (forall k :: 0 <= k < |found| ==> found[k].rid < |db.heap|) && i <= n <= |found|
    requires !ReplaceAll(db, t, table, found[..i], rw).end.Finished?
    ensures ReplaceAll(db, t, table, found[..n], rw) == ReplaceAll(db, t, table, found[..i], rw)
  {
    if i < n {
      assert found[..n][..n - 1] == found[..n - 1];
      NoRoomStops(db, t, table, found, rw, i, n - 1);
    }
  }

  lemma {:induction false} CollectStops(db: Db, t: TxId, table: TableId, f: Filter, i: nat, n: nat)
    requires HasView(db, t) && i <= n <= |db.heap| && (i < n ==> CollectTo(db, t, table, f, i).conflict)
    ensures CollectTo(db, t, table, f, n) == CollectTo(db, t, table, f, i)
  {
    if i < n { CollectStops(db, t, table, f, i, n - 1); }
  }
}
