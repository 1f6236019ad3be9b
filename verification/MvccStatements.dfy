/**
 DELETE and UPDATE statements: each rewrites exactly the records that were visible, undeleted and
 matching when it started, once each, although it changes the heap it scans.
 */
module MvccStatements {
  import opened Common
  import opened Mvcc
  import opened MvccHistory
  import opened MvccPreservation
  import opened MvccEngine
  import MvccSnapshots

  /** The rows a statement selects among the first `n`, in heap order. */
  function SelectedTo(db: Db, t: TxId, table: TableId, f: Filter, n: nat): seq<nat>
    requires HasView(db, t) && n <= |db.heap|
  {
    if n == 0 then []
    else if Selected(db, t, table, f, n - 1) then SelectedTo(db, t, table, f, n - 1) + [n - 1]
    else SelectedTo(db, t, table, f, n - 1)
  }

  /** It lists selected rows only, */
  lemma {:induction false} SelectedSound(db: Db, t: TxId, table: TableId, f: Filter, n: nat, k: nat)
    requires HasView(db, t) && n <= |db.heap| && k < |SelectedTo(db, t, table, f, n)|
    ensures SelectedTo(db, t, table, f, n)[k] < n && Selected(db, t, table, f, SelectedTo(db, t, table, f, n)[k])
  {
    if k < |SelectedTo(db, t, table, f, n - 1)| { SelectedSound(db, t, table, f, n - 1, k); }
  }

  /** all of them, */
  lemma {:induction false} SelectedComplete(db: Db, t: TxId, table: TableId, f: Filter, n: nat, i: nat) returns (k: nat)
    requires HasView(db, t) && i < n <= |db.heap| && Selected(db, t, table, f, i)
    ensures k < |SelectedTo(db, t, table, f, n)| && SelectedTo(db, t, table, f, n)[k] == i
  {
    k := |SelectedTo(db, t, table, f, n - 1)|;
    if i < n - 1 { k := SelectedComplete(db, t, table, f, n - 1, i); }
  }

  /** each once, in heap order. */
  lemma {:induction false} SelectedOnce(db: Db, t: TxId, table: TableId, f: Filter, n: nat, j: nat, k: nat)
    requires HasView(db, t) && n <= |db.heap| && j < k < |SelectedTo(db, t, table, f, n)|
    ensures SelectedTo(db, t, table, f, n)[j] < SelectedTo(db, t, table, f, n)[k]
  {
    if k < |SelectedTo(db, t, table, f, n - 1)| {
      SelectedOnce(db, t, table, f, n - 1, j, k);
    } else {
      SelectedSound(db, t, table, f, n - 1, j);
    }
  }

  /** Same outcomes, same view of `t`. */
  ghost predicate SameSight(db: Db, d: Db, t: TxId) {
    HasView(db, t) && HasView(d, t) && d.states == db.states && d.txns[t].view == db.txns[t].view
  }

  /** `r` is `was` marked deleted by `t`, with its before-image saved. */
  ghost predicate DeletedBy(d: Db, t: TxId, r: Rec, was: Rec) {
    && r.v.h.roll.At? && r.v.h.roll.index < |d.undo| && d.undo[r.v.h.roll.index] == was.v
    && r == was.(v := was.v.(h := was.v.h.(trx := t, roll := r.v.h.roll, del := true)))
  }

  lemma SelectedFrame(db: Db, d: Db, t: TxId, table: TableId, f: Filter, i: nat)
    requires SameSight(db, d, t) && i < |db.heap| && i < |d.heap| && d.heap[i] == db.heap[i]
    ensures Selected(d, t, table, f, i) <==> Selected(db, t, table, f, i)
  {
  }

  // ----- DELETE -------------------------------------------------------------------------------

  /** One selected row deleted: a step of the system, touching that row alone. */
  lemma DeleteOne(db: Db, h: History, t: TxId, i: nat) returns (h': History)
    requires Reachable(db, h) && Ready(db, t) && i < |db.heap| && Hit(db, t, i) && Saves(db.heap[i].v)
    ensures !Conflicts(db, t, i) && !db.heap[i].v.h.del && |h.rows| == |db.heap|
    ensures Enabled(db, EDelete(t, i)) && MarkDelete(db, t, Delete, i) == Apply(db, EDelete(t, i))
    ensures Ready(MarkDelete(db, t, Delete, i), t) && SameSight(db, MarkDelete(db, t, Delete, i), t)
    ensures h' == Record(h, db, EDelete(t, i)) && Reachable(Apply(db, EDelete(t, i)), h')
  {
    ReachableInv(db, h);
    HitFacts(db, h, t, i);
    ReachableStep(db, h, EDelete(t, i));
    h' := Record(h, db, EDelete(t, i));
  }

  function DeleteEvents(t: TxId, ids: seq<nat>): seq<Event> {
    seq(|ids|, k requires 0 <= k < |ids| => EDelete(t, ids[k]))
  }

  /** Exactly the records in `ids` are marked deleted by `t`; all others are as they were. */
  ghost predicate DeletedExactly(db: Db, d: Db, t: TxId, ids: seq<nat>) {
    && |d.heap| == |db.heap| && db.undo <= d.undo
    && forall i :: 0 <= i < |db.heap| ==>
         if i in ids then DeletedBy(d, t, d.heap[i], db.heap[i]) else d.heap[i] == db.heap[i]
  }

  /** The state after deleting the records in `ids` one by one. */
  ghost predicate DeleteDone(db: Db, h: History, t: TxId, ids: seq<nat>, d: Db, h': History) {
    && Reachable(d, h') && Ready(d, t) && SameSight(db, d, t)
    && Reaches(db, h, DeleteEvents(t, ids), d, h') && DeletedExactly(db, d, t, ids)
  }

  lemma DeleteStarts(db: Db, h: History, t: TxId)
    requires Reachable(db, h) && Ready(db, t)
    ensures HasView(db, t) && DeletedFine(db, h, t, Result(db, 0, Finished), [])
  {
    assert DeleteEvents(t, []) == [];
    assert DeleteDone(db, h, t, [], db, h);
  }

  lemma DeletedOneMore(db: Db, d: Db, t: TxId, ids: seq<nat>, i: nat)
    requires t in d.txns && i < |db.heap| && i !in ids && DeletedExactly(db, d, t, ids) && !d.heap[i].v.h.del
    ensures DeletedExactly(db, MarkDelete(d, t, Delete, i), t, ids + [i])
  {
  }

  lemma DeleteAdvance(db: Db, h: History, t: TxId, table: TableId, f: Filter, ids: seq<nat>, d: Db, h1: History, i: nat)
    returns (h': History)
    requires DeleteDone(db, h, t, ids, d, h1) && i < |d.heap| && i !in ids && Selected(d, t, table, f, i)
    requires Saves(d.heap[i].v)
    ensures !Conflicts(d, t, i) && DeleteDone(db, h, t, ids + [i], MarkDelete(d, t, Delete, i), h')
  {
    h' := DeleteOne(d, h1, t, i);
    ReachesSnoc(db, h, DeleteEvents(t, ids), d, h1, EDelete(t, i));
    assert DeleteEvents(t, ids + [i]) == DeleteEvents(t, ids) + [EDelete(t, i)];
    DeletedOneMore(db, d, t, ids, i);
  }

  /** Deleting the records in `ids` one by one, as steps of the system, can lead to `d`. */
  ghost predicate DeletedTo(db: Db, h: History, t: TxId, ids: seq<nat>, d: Db) {
    exists h' :: DeleteDone(db, h, t, ids, d, h')
  }

  ghost predicate Positions(db: Db, ids: seq<nat>) { forall k :: 0 <= k < |ids| ==> ids[k] < |db.heap| }

  /**
   Which of the rows `ids` a statement got to: to all of them, or to those before the first one whose
   before-image no undo page takes.
   */
  ghost predicate GotTo(db: Db, ids: seq<nat>, count: nat, end: Ending) {
    && Positions(db, ids) && count <= |ids| && !end.Conflict?
    && (forall k :: 0 <= k < count ==> Saves(db.heap[ids[k]].v))
    && (end.Finished? ==> count == |ids|)
    && (end.NoRoom? ==> count < |ids| && !Saves(db.heap[ids[count]].v))
  }

  lemma GotToNext(db: Db, ids: seq<nat>, count: nat, end: Ending, i: nat)
    requires GotTo(db, ids, count, end) && i < |db.heap|
    ensures end.Finished? && Saves(db.heap[i].v) ==> GotTo(db, ids + [i], count + 1, Finished)
    ensures end.Finished? && !Saves(db.heap[i].v) ==> GotTo(db, ids + [i], count, NoRoom)
    ensures end.NoRoom? ==> GotTo(db, ids + [i], count, NoRoom)
  {
  }

  /** The loop's result so far: the rows in `ids` up to where it stopped are deleted and counted. */
  ghost predicate DeletedFine(db: Db, h: History, t: TxId, r: Result, ids: seq<nat>) {
    && HasView(r.db, t) && |r.db.heap| == |db.heap|
    && GotTo(db, ids, r.count, r.end) && DeletedTo(db, h, t, ids[..r.count], r.db)
  }

  /** The loop after `n` records. */
  ghost predicate DeletedUpTo(db: Db, h: History, t: TxId, table: TableId, f: Filter, n: nat) {
    && HasView(db, t) && n <= |db.heap|
    && DeletedFine(db, h, t, DeleteTo(db, t, table, f, n), SelectedTo(db, t, table, f, n))
  }

  /** A record the loop has not reached is as it was, so that it is selected now if it was. */
  lemma NotReached(db: Db, h: History, t: TxId, table: TableId, f: Filter, ids: seq<nat>, d: Db, i: nat)
    requires HasView(db, t) && i < |db.heap| && DeletedTo(db, h, t, ids, d) && i !in ids
    ensures HasView(d, t) && i < |d.heap| && d.heap[i] == db.heap[i]
    ensures Selected(d, t, table, f, i) <==> Selected(db, t, table, f, i)
  {
    var h1 :| DeleteDone(db, h, t, ids, d, h1);
    SelectedFrame(db, d, t, table, f, i);
  }

  lemma SelectedIsFree(db: Db, h: History, t: TxId, table: TableId, f: Filter, ids: seq<nat>, d: Db, i: nat)
    requires DeletedTo(db, h, t, ids, d) && HasView(d, t) && i < |d.heap| && Selected(d, t, table, f, i)
    ensures !Conflicts(d, t, i)
  {
    var h1 :| DeleteDone(db, h, t, ids, d, h1);
    ReachableInv(d, h1);
    HitFacts(d, h1, t, i);
  }

  /** The next record of a DELETE's loop: deleted, */
  lemma DeleteTake(db: Db, h: History, t: TxId, table: TableId, f: Filter, ids: seq<nat>, d: Db, i: nat)
    requires HasView(db, t) && i < |db.heap| && DeletedTo(db, h, t, ids, d) && i !in ids
    requires Selected(db, t, table, f, i) && Saves(db.heap[i].v)
    ensures t in d.txns && i < |d.heap| && DeletedTo(db, h, t, ids + [i], MarkDelete(d, t, Delete, i))
  {
    var h1 :| DeleteDone(db, h, t, ids, d, h1);
    NotReached(db, h, t, table, f, ids, d, i);
    var h' := DeleteAdvance(db, h, t, table, f, ids, d, h1, i);
  }

  lemma PrefixNext(ids: seq<nat>, i: nat, k: nat)
    requires k <= |ids|
    ensures (ids + [i])[..k] == ids[..k] && (k == |ids| ==> ids[..k] == ids && (ids + [i])[..k + 1] == ids + [i])
  {
  }

  /** whatever it is, the loop goes on as it should. */
  lemma DeleteNext(db: Db, h: History, t: TxId, table: TableId, f: Filter, ids: seq<nat>, r: Result, i: nat)
    requires HasView(db, t) && i < |db.heap| && DeletedFine(db, h, t, r, ids) && i !in ids
    requires Selected(db, t, table, f, i)
    ensures DeletedFine(db, h, t, DeleteTurn(r, t, table, f, i), ids + [i])
  {
    GotToNext(db, ids, r.count, r.end, i);
    NotReached(db, h, t, table, f, ids[..r.count], r.db, i);
    SelectedIsFree(db, h, t, table, f, ids[..r.count], r.db, i);
    PrefixNext(ids, i, r.count);
    if r.end.Finished? && Saves(db.heap[i].v) { DeleteTake(db, h, t, table, f, ids, r.db, i); }
  }

  lemma DeleteSkip(db: Db, h: History, t: TxId, table: TableId, f: Filter, ids: seq<nat>, r: Result, i: nat)
    requires HasView(db, t) && i < |db.heap| && DeletedFine(db, h, t, r, ids) && i !in ids
    requires !Selected(db, t, table, f, i)
    ensures DeleteTurn(r, t, table, f, i) == r
  {
    NotReached(db, h, t, table, f, ids[..r.count], r.db, i);
  }

  lemma {:induction false} SelectedBefore(db: Db, t: TxId, table: TableId, f: Filter, n: nat)
    requires HasView(db, t) && n < |db.heap|
    ensures n !in SelectedTo(db, t, table, f, n)
  {
    var ids := SelectedTo(db, t, table, f, n);
    forall k | 0 <= k < |ids| ensures ids[k] != n { SelectedSound(db, t, table, f, n, k); }
  }

  lemma {:induction false} DeleteOneMore(db: Db, h: History, t: TxId, table: TableId, f: Filter, n: nat, m: nat)
    requires m == n + 1 <= |db.heap| && DeletedUpTo(db, h, t, table, f, n)
    ensures DeletedUpTo(db, h, t, table, f, m)
  {
    var r, ids := DeleteTo(db, t, table, f, n), SelectedTo(db, t, table, f, n);
    SelectedBefore(db, t, table, f, n);
    if Selected(db, t, table, f, n) {
      DeleteNext(db, h, t, table, f, ids, r, n);
    } else {
      DeleteSkip(db, h, t, table, f, ids, r, n);
    }
  }

  lemma {:induction false} DeleteRun(db: Db, h: History, t: TxId, table: TableId, f: Filter, n: nat)
    requires DeletedUpTo(db, h, t, table, f, 0) && n <= |db.heap|
    ensures DeletedUpTo(db, h, t, table, f, n)
  {
    if n > 0 {
      DeleteRun(db, h, t, table, f, n - 1);
      DeleteOneMore(db, h, t, table, f, n - 1, n);
    }
  }

  /**
   A DELETE is a run of single deletions. It deletes exactly the rows selected at its start if and
   only if the before-image of each can be saved; otherwise it throws at the first that cannot, with
   exactly the rows before that one deleted.
   */
  lemma {:induction false} DeleteStatementExact(db: Db, h: History, t: TxId, table: TableId, f: Filter, n: nat)
    returns (h': History)
    requires Reachable(db, h) && Ready(db, t) && n <= |db.heap|
    ensures var r, ids := DeleteTo(db, t, table, f, n), SelectedTo(db, t, table, f, n);
      && GotTo(db, ids, r.count, r.end) && DeleteDone(db, h, t, ids[..r.count], r.db, h')
      && (r.end.Finished? <==> forall k :: 0 <= k < |ids| ==> Saves(db.heap[ids[k]].v))
  {
    DeleteStarts(db, h, t);
    DeleteRun(db, h, t, table, f, n);
    var r, ids := DeleteTo(db, t, table, f, n), SelectedTo(db, t, table, f, n);
    h' :| DeleteDone(db, h, t, ids[..r.count], r.db, h');
  }

  // ----- UPDATE -------------------------------------------------------------------------------

  /** The collected rows are those in `ids`, with their bytes. */
  ghost predicate Collected(db: Db, c: Hits, ids: seq<nat>) {
    && !c.conflict && |c.found| == |ids|
    && forall k :: 0 <= k < |ids| ==> ids[k] < |db.heap| && c.found[k] == Found(ids[k], db.heap[ids[k]].v)
  }

  lemma HitNoConflict(db: Db, h: History, t: TxId, i: nat)
    requires Reachable(db, h) && Ready(db, t) && i < |db.heap| && Hit(db, t, i)
    ensures !Conflicts(db, t, i)
  {
    ReachableInv(db, h);
    HitFacts(db, h, t, i);
  }

  lemma CollectOne(db: Db, c: Hits, ids: seq<nat>, i: nat)
    requires Collected(db, c, ids) && i < |db.heap|
    ensures Collected(db, Hits(c.found + [Found(i, db.heap[i].v)], false), ids + [i])
  {
  }

  lemma {:induction false} CollectRun(db: Db, h: History, t: TxId, table: TableId, f: Filter, n: nat)
    returns (c: Hits, ids: seq<nat>)
    requires Reachable(db, h) && Ready(db, t) && n <= |db.heap|
    ensures c == CollectTo(db, t, table, f, n) && ids == SelectedTo(db, t, table, f, n) && Collected(db, c, ids)
  {
    c, ids := Hits([], false), [];
    if n > 0 {
      c, ids := CollectRun(db, h, t, table, f, n - 1);
      if Selected(db, t, table, f, n - 1) {
        HitNoConflict(db, h, t, n - 1);
        CollectOne(db, c, ids, n - 1);
        c, ids := Hits(c.found + [Found(n - 1, db.heap[n - 1].v)], false), ids + [n - 1];
      }
    }
  }

  /** The collecting phase never throws and finds the selected rows with their bytes. */
  lemma {:induction false} CollectFindsSelected(db: Db, h: History, t: TxId, table: TableId, f: Filter, n: nat)
    requires Reachable(db, h) && Ready(db, t) && n <= |db.heap|
    ensures Collected(db, CollectTo(db, t, table, f, n), SelectedTo(db, t, table, f, n))
  {
    var c, ids := CollectRun(db, h, t, table, f, n);
  }

  function NewRecord(db: Db, t: TxId, table: TableId, n: nat, p: Payload): Rec {
    Rec(table, Version(Header(t, At(|db.undo| + n), false, false), p))
  }

  /** What updating the rows `ids` appends: a record for each new version that a page takes. */
  function NewRecords(db: Db, t: TxId, table: TableId, ids: seq<nat>, rw: Rewrite): seq<Rec>
    requires Positions(db, ids)
  {
    if ids == [] then []
    else
      var n := |ids| - 1;
      var p := rw(db.heap[ids[n]].v);
      NewRecords(db, t, table, ids[..n], rw) + if Fits(p) then [NewRecord(db, t, table, n, p)] else []
  }

  /** Row `ids[k]` has its new version among them, behind those of the rows before it, if and only if that fits. */
  lemma {:induction false} NewRecordAt(db: Db, t: TxId, table: TableId, ids: seq<nat>, rw: Rewrite, k: nat)
    requires Positions(db, ids) && k < |ids|
    ensures var all, n := NewRecords(db, t, table, ids, rw), |NewRecords(db, t, table, ids[..k], rw)|;
      var p := rw(db.heap[ids[k]].v);
      && n <= |all| && |NewRecords(db, t, table, ids[..k + 1], rw)| == n + (if Fits(p) then 1 else 0)
      && (Fits(p) ==> n < |all| && all[n] == NewRecord(db, t, table, k, p))
  {
    var l := ids[..|ids| - 1];
    assert ids[..k + 1][..k] == ids[..k] && ids[..|ids|] == ids;
    if k < |l| {
      assert l[..k] == ids[..k] && l[..k + 1] == ids[..k + 1];
      NewRecordAt(db, t, table, l, rw, k);
    }
  }

  /** Old records in `ids` are deleted by `t`; the new versions that fit are appended, in order. */
  ghost predicate ReplacedExactly(db: Db, d: Db, t: TxId, table: TableId, ids: seq<nat>, rw: Rewrite)
    requires Positions(db, ids)
  {
    && |db.heap| <= |d.heap| && |d.undo| == |db.undo| + |ids| && db.undo <= d.undo
    && (forall i :: 0 <= i < |db.heap| ==>
          if i in ids then DeletedBy(d, t, d.heap[i], db.heap[i]) else d.heap[i] == db.heap[i])
    && d.heap[|db.heap|..] == NewRecords(db, t, table, ids, rw)
  }

  function UpdateEvents(db: Db, t: TxId, ids: seq<nat>, rw: Rewrite): seq<Event>
    requires Positions(db, ids)
  {
    seq(|ids|, k requires 0 <= k < |ids| => EUpdate(t, ids[k], rw(db.heap[ids[k]].v)))
  }

  lemma UpdateEventsSnoc(db: Db, t: TxId, ids: seq<nat>, rw: Rewrite, i: nat)
    requires Positions(db, ids) && i < |db.heap|
    ensures Positions(db, ids + [i])
    ensures UpdateEvents(db, t, ids + [i], rw) == UpdateEvents(db, t, ids, rw) + [EUpdate(t, i, rw(db.heap[i].v))]
  {
    var a, b := UpdateEvents(db, t, ids + [i], rw), UpdateEvents(db, t, ids, rw);
    forall k | 0 <= k < |a| ensures a[k] == (b + [EUpdate(t, i, rw(db.heap[i].v))])[k] {
      assert k < |ids| ==> (ids + [i])[k] == ids[k];
    }
  }

  ghost predicate UpdateDone(db: Db, h: History, t: TxId, table: TableId, ids: seq<nat>, rw: Rewrite, d: Db,
      h': History)
    requires Positions(db, ids)
  {
    && Reachable(d, h') && Ready(d, t) && SameSight(db, d, t)
    && Reaches(db, h, UpdateEvents(db, t, ids, rw), d, h') && ReplacedExactly(db, d, t, table, ids, rw)
  }

  /** While the collected bytes are still the record's, replacing is the update step. */
  lemma ReplaceIsUpdate(d: Db, h: History, t: TxId, table: TableId, x: Found, p: Payload) returns (h': History)
    requires Reachable(d, h) && Ready(d, t) && x.rid < |d.heap| && Hit(d, t, x.rid) && x.was == d.heap[x.rid].v
    requires d.heap[x.rid].table == table && Saves(x.was)
    ensures var e := EUpdate(t, x.rid, p);
      && |h.rows| == |d.heap| && Enabled(d, e) && Replace(d, t, table, x, p) == Apply(d, e)
      && Ready(Apply(d, e), t) && SameSight(d, Apply(d, e), t) && !d.heap[x.rid].v.h.del
      && h' == Record(h, d, e) && Reachable(Apply(d, e), h')
  {
    ReachableInv(d, h);
    HitFacts(d, h, t, x.rid);
    ReachableStep(d, h, EUpdate(t, x.rid, p));
    h' := Record(h, d, EUpdate(t, x.rid, p));
  }

  /** One replacement: the old record marked, the new one, if it fits, behind all others. */
  lemma ReplaceShape(d: Db, t: TxId, table: TableId, x: Found, p: Payload, r: Rec)
    requires t in d.txns && x.rid < |d.heap| && r == d.heap[x.rid] && !r.v.h.del
    ensures var d', n := Replace(d, t, table, x, p), |d.undo|;
      && d'.undo == d.undo + [x.was]
      && d'.heap == d.heap[x.rid := r.(v := r.v.(h := r.v.h.(trx := t, roll := At(n), del := true)))]
                    + if Fits(p) then [Rec(table, Version(Header(t, At(n), false, false), p))] else []
  {
  }

  lemma NewRecordsSnoc(db: Db, t: TxId, table: TableId, ids: seq<nat>, rw: Rewrite, i: nat, p: Payload)
    requires Positions(db, ids) && i < |db.heap| && p == rw(db.heap[i].v)
    ensures NewRecords(db, t, table, ids + [i], rw) ==
            NewRecords(db, t, table, ids, rw) + if Fits(p) then [NewRecord(db, t, table, |ids|, p)] else []
  {
    assert (ids + [i])[..|ids|] == ids;
  }

  lemma SuffixGrows(a: seq<Rec>, i: nat, r: Rec, b: seq<Rec>, n: nat)
    requires i < n <= |a|
    ensures (a[i := r] + b)[n..] == a[n..] + b
  {
  }

  lemma ReplaceTurn(db: Db, d: Db, t: TxId, table: TableId, ids: seq<nat>, rw: Rewrite, i: nat)
    requires Positions(db, ids) && ReplacedExactly(db, d, t, table, ids, rw)
    requires t in d.txns && i < |db.heap| && i !in ids && !d.heap[i].v.h.del
    ensures ReplacedExactly(db, Replace(d, t, table, Found(i, db.heap[i].v), rw(db.heap[i].v)), t, table, ids + [i], rw)
  {
    var x, r := Found(i, db.heap[i].v), d.heap[i];
    var r' := r.(v := r.v.(h := r.v.h.(trx := t, roll := At(|d.undo|), del := true)));
    var more := if Fits(rw(x.was)) then [NewRecord(db, t, table, |ids|, rw(x.was))] else [];
    ReplaceShape(d, t, table, x, rw(x.was), r);
    NewRecordsSnoc(db, t, table, ids, rw, i, rw(x.was));
    SuffixGrows(d.heap, i, r', more, |db.heap|);
    MarkedOne(db, d, Replace(d, t, table, x, rw(x.was)), t, ids, i, r');
  }

  /** The old records: one more is marked. */
  lemma MarkedOne(db: Db, d: Db, d': Db, t: TxId, ids: seq<nat>, i: nat, r: Rec)
    requires |db.heap| <= |d.heap| && d.undo <= d'.undo && |d.heap| <= |d'.heap| && i < |db.heap| && i !in ids
    requires forall j :: 0 <= j < |db.heap| ==>
               if j in ids then DeletedBy(d, t, d.heap[j], db.heap[j]) else d.heap[j] == db.heap[j]
    requires forall j :: 0 <= j < |db.heap| ==> d'.heap[j] == if j == i then r else d.heap[j]
    requires DeletedBy(d', t, r, db.heap[i])
    ensures forall j :: 0 <= j < |db.heap| ==>
              if j in ids + [i] then DeletedBy(d', t, d'.heap[j], db.heap[j]) else d'.heap[j] == db.heap[j]
  {
  }

  lemma UpdateAdvance(db: Db, h: History, t: TxId, table: TableId, f: Filter, ids: seq<nat>, rw: Rewrite, d: Db,
      h1: History, i: nat)
    returns (d': Db, h': History)
    requires Positions(db, ids)
    requires UpdateDone(db, h, t, table, ids, rw, d, h1) && i < |db.heap| && i !in ids && Selected(db, t, table, f, i)
    requires Saves(db.heap[i].v)
    ensures Positions(db, ids + [i]) && d' == Replace(d, t, table, Found(i, db.heap[i].v), rw(db.heap[i].v))
    ensures UpdateDone(db, h, t, table, ids + [i], rw, d', h')
  {
    var e := EUpdate(t, i, rw(db.heap[i].v));
    SelectedFrame(db, d, t, table, f, i);
    h' := ReplaceIsUpdate(d, h1, t, table, Found(i, db.heap[i].v), rw(db.heap[i].v));
    d' := Replace(d, t, table, Found(i, db.heap[i].v), rw(db.heap[i].v));
    ReachesSnoc(db, h, UpdateEvents(db, t, ids, rw), d, h1, e);
    UpdateEventsSnoc(db, t, ids, rw, i);
    ReplaceTurn(db, d, t, table, ids, rw, i);
  }

  function FoundAt(db: Db, ids: seq<nat>): (found: seq<Found>)
    requires Positions(db, ids)
    ensures |found| == |ids| && forall k :: 0 <= k < |ids| ==> found[k] == Found(ids[k], db.heap[ids[k]].v)
  {
    if ids == [] then []
    else FoundAt(db, ids[..|ids| - 1]) + [Found(ids[|ids| - 1], db.heap[ids[|ids| - 1]].v)]
  }

  lemma UpdateStarts(db: Db, h: History, t: TxId, table: TableId, rw: Rewrite)
    requires Reachable(db, h) && Ready(db, t)
    ensures UpdateDone(db, h, t, table, [], rw, db, h)
  {
    assert UpdateEvents(db, t, [], rw) == [];
  }

  lemma ReplaceAllUnfolds(db: Db, t: TxId, table: TableId, ids: seq<nat>, i: nat, rw: Rewrite)
    requires t in db.txns && i < |db.heap| && Positions(db, ids)
    ensures var r := ReplaceAll(db, t, table, FoundAt(db, ids), rw);
      ReplaceAll(db, t, table, FoundAt(db, ids + [i]), rw) ==
      if !r.end.Finished? then r
      else if !Saves(db.heap[i].v) then r.(end := NoRoom)
      else Result(Replace(r.db, t, table, Found(i, db.heap[i].v), rw(db.heap[i].v)), r.count + 1, Finished)
  {
    assert FoundAt(db, ids + [i])[..|ids|] == FoundAt(db, ids);
  }

  /** Rows to update: selected, each once. */
  ghost predicate Ascending(db: Db, t: TxId, table: TableId, f: Filter, ids: seq<nat>)
    requires HasView(db, t)
  {
    && (forall k :: 0 <= k < |ids| ==> ids[k] < |db.heap| && Selected(db, t, table, f, ids[k]))
    && (forall j, k :: 0 <= j < k < |ids| ==> ids[j] < ids[k])
  }

  lemma SelectionAscends(db: Db, t: TxId, table: TableId, f: Filter)
    requires HasView(db, t)
    ensures Ascending(db, t, table, f, SelectedTo(db, t, table, f, |db.heap|))
    ensures Positions(db, SelectedTo(db, t, table, f, |db.heap|))
  {
    var ids := SelectedTo(db, t, table, f, |db.heap|);
    forall k | 0 <= k < |ids| ensures ids[k] < |db.heap| && Selected(db, t, table, f, ids[k]) {
      SelectedSound(db, t, table, f, |db.heap|, k);
    }
    forall j, k | 0 <= j < k < |ids| ensures ids[j] < ids[k] { SelectedOnce(db, t, table, f, |db.heap|, j, k); }
  }

  /** The writing phase so far. */
  ghost predicate UpdatedFine(db: Db, h: History, t: TxId, table: TableId, ids: seq<nat>, rw: Rewrite, r: Result,
      h': History)
  {
    GotTo(db, ids, r.count, r.end) && UpdateDone(db, h, t, table, ids[..r.count], rw, r.db, h')
  }

  lemma UpdateNext(db: Db, h: History, t: TxId, table: TableId, f: Filter, ids: seq<nat>, rw: Rewrite, r: Result,
      h1: History, i: nat)
    returns (r': Result, h': History)
    requires HasView(db, t) && i < |db.heap| && i !in ids && UpdatedFine(db, h, t, table, ids, rw, r, h1)
    requires Selected(db, t, table, f, i)
    ensures t in r.db.txns && |db.heap| <= |r.db.heap| && UpdatedFine(db, h, t, table, ids + [i], rw, r', h')
    ensures r' == if !r.end.Finished? then r
                  else if !Saves(db.heap[i].v) then r.(end := NoRoom)
                  else Result(Replace(r.db, t, table, Found(i, db.heap[i].v), rw(db.heap[i].v)), r.count + 1, Finished)
  {
    r', h' := if r.end.Finished? then r.(end := NoRoom) else r, h1;
    GotToNext(db, ids, r.count, r.end, i);
    PrefixNext(ids, i, r.count);
    if r.end.Finished? && Saves(db.heap[i].v) {
      var d;
      d, h' := UpdateAdvance(db, h, t, table, f, ids, rw, r.db, h1, i);
      r' := Result(d, r.count + 1, Finished);
    }
  }

  lemma {:induction false} ReplaceAllDone(db: Db, h: History, t: TxId, table: TableId, f: Filter, ids: seq<nat>,
      rw: Rewrite)
    returns (r: Result, h': History)
    requires Reachable(db, h) && Ready(db, t) && Ascending(db, t, table, f, ids)
    ensures r == ReplaceAll(db, t, table, FoundAt(db, ids), rw) && UpdatedFine(db, h, t, table, ids, rw, r, h')
  {
    if ids == [] {
      r, h' := Result(db, 0, Finished), h;
      UpdateStarts(db, h, t, table, rw);
    } else {
      var l, i := ids[..|ids| - 1], ids[|ids| - 1];
      assert ids == l + [i];
      AscendingInit(db, t, table, f, ids);
      r, h' := ReplaceAllDone(db, h, t, table, f, l, rw);
      ReplaceAllUnfolds(db, t, table, l, i, rw);
      r, h' := UpdateNext(db, h, t, table, f, l, rw, r, h', i);
    }
  }

  lemma AscendingInit(db: Db, t: TxId, table: TableId, f: Filter, ids: seq<nat>)
    requires HasView(db, t) && ids != [] && Ascending(db, t, table, f, ids)
    ensures Ascending(db, t, table, f, ids[..|ids| - 1]) && ids[|ids| - 1] !in ids[..|ids| - 1]
    ensures Positions(db, ids[..|ids| - 1]) && Selected(db, t, table, f, ids[|ids| - 1])
  {
  }

  /**
   UPDATE without the Halloween problem: it ends without conflict and rewrites the rows selected at its
   start, once each, leaving its own new versions alone. It rewrites and counts all of them if and only
   if the before-image of each can be saved, and otherwise throws at the first that cannot, after those
   before it. A row whose new version no page takes is deleted and counted all the same.
   */
  lemma UpdateStatementExact(db: Db, h: History, t: TxId, table: TableId, f: Filter, rw: Rewrite)
    returns (h': History)
    requires Reachable(db, h) && Ready(db, t)
    ensures var r, ids := UpdateAll(db, t, table, f, rw), SelectedTo(db, t, table, f, |db.heap|);
      && UpdatedFine(db, h, t, table, ids, rw, r, h')
      && (r.end.Finished? <==> forall k :: 0 <= k < |ids| ==> Saves(db.heap[ids[k]].v))
  {
    var c, ids := CollectRun(db, h, t, table, f, |db.heap|);
    SelectionAscends(db, t, table, f);
    FoundIsCollected(db, c, ids);
    var r;
    r, h' := ReplaceAllDone(db, h, t, table, f, ids, rw);
  }

  lemma FoundIsCollected(db: Db, c: Hits, ids: seq<nat>)
    requires Collected(db, c, ids) && Positions(db, ids)
    ensures c.found == FoundAt(db, ids)
  {
  }

  /** In every reachable state a scan finds every before-image it follows, and a rollback every record it undoes. */
  lemma LoopsAreSafe(db: Db, h: History)
    requires Reachable(db, h)
    ensures Readable(db) && forall t :: t in db.txns ==> InRange(db.txns[t].writes, |db.heap|)
  {
    ReachableInv(db, h);
    MvccSnapshots.InvReadable(db, h);
    forall t | t in db.txns ensures InRange(db.txns[t].writes, |db.heap|) {
      assert WritesOk(db, h, t);
    }
  }
}
