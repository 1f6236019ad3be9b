/**
 Statements that do not see one state but one record after the other, while others act between the
 records: what a scan returns, and which rows a DELETE deletes.
 */
module MvccTurns {
  import opened Common
  import opened Mvcc
  import opened MvccHistory
  import opened MvccPreservation
  import opened MvccTheorems
  import opened MvccSnapshots
  import opened MvccEngine

  datatype State = State(db: Db, h: History)

  // ----- Between two records ------------------------------------------------------------------

  /** Steps of others lead from one state to the other. */
  ghost predicate OthersLead(u: TxId, s: State, s': State, es: seq<Event>) {
    Reaches(s.db, s.h, es, s'.db, s'.h) && forall e :: e in es ==> Actor(e) != Some(u)
  }

  ghost predicate NoUpdate(es: seq<Event>) { forall e :: e in es ==> !e.EUpdate? }

  /** What the reader takes with it from record to record. */
  ghost predicate Onward(u: TxId, s: State, s': State) {
    && Inv(s'.db, s'.h) && Ready(s'.db, u) && Seen(s'.h, u) == Seen(s.h, u)
    && |s.h.rows| == |s.db.heap| <= |s'.h.rows| == |s'.db.heap|
    && Readable(s.db) && Readable(s'.db)
  }

  lemma OnwardStep(u: TxId, s: State, e: Event)
    requires Inv(s.db, s.h) && Ready(s.db, u) && Enabled(s.db, e) && Actor(e) != Some(u)
    ensures |s.h.rows| == |s.db.heap| && Onward(u, s, State(Apply(s.db, e), Record(s.h, s.db, e)))
  {
    StepKeeps(s.db, s.h, e);
    AfterStep(s.db, s.h, e, u);
    AppendShape(s.db, s.h, e);
  }

  lemma {:induction false} OnwardRun(u: TxId, s: State, s': State, es: seq<Event>)
    requires Inv(s.db, s.h) && Ready(s.db, u) && OthersLead(u, s, s', es)
    ensures Onward(u, s, s')
    decreases |es|
  {
    InvReadable(s.db, s.h);
    if es != [] {
      assert es[0] in es;
      OnwardStep(u, s, es[0]);
      OnwardRun(u, State(Apply(s.db, es[0]), Record(s.h, s.db, es[0])), s', es[1..]);
    }
  }

  // ----- Records that were there --------------------------------------------------------------

  /** Record `i` shows the reader the same in both states. */
  ghost predicate SameShow(u: TxId, d: Db, d': Db, i: nat)
    requires HasView(d, u) && HasView(d', u) && Readable(d) && Readable(d')
  {
    i < |d.heap| && i < |d'.heap| && d'.heap[i].table == d.heap[i].table && Emit(d', u, i) == Emit(d, u, i)
  }

  /** A record whose writer the reader sees shows the same after any step of someone else. */
  lemma SeenStep(u: TxId, s: State, e: Event, i: nat)
    requires Inv(s.db, s.h) && Ready(s.db, u) && Enabled(s.db, e) && Actor(e) != Some(u) && i < |s.db.heap|
    requires |s.h.rows| == |s.db.heap| && Inserter(s.h.rows[i]) in Seen(s.h, u)
    ensures Ready(Apply(s.db, e), u) && Readable(s.db) && Readable(Apply(s.db, e))
    ensures SameShow(u, s.db, Apply(s.db, e), i)
  {
    AfterStep(s.db, s.h, e, u);
    TableStays(s.db, e, i);
    if e.ERollback? && Stirs(s.db, e) { UndoneUpdateEmit(s.db, s.h, e, u, i); } else { OthersEmit(s.db, s.h, e, u, i); }
  }

  lemma {:induction false} SeenShows(u: TxId, s: State, s': State, es: seq<Event>, i: nat)
    requires Inv(s.db, s.h) && Ready(s.db, u) && OthersLead(u, s, s', es) && i < |s.db.heap| == |s.h.rows|
    requires Inserter(s.h.rows[i]) in Seen(s.h, u)
    ensures Onward(u, s, s') && SameShow(u, s.db, s'.db, i)
    decreases |es|
  {
    OnwardRun(u, s, s', es);
    if es != [] {
      var e := es[0];
      assert e in es;
      OnwardStep(u, s, e);
      SeenStep(u, s, e, i);
      RowsStay(s.db, s.h, e, i);
      SeenShows(u, State(Apply(s.db, e), Record(s.h, s.db, e)), s', es[1..], i);
    }
  }

  /** Without updates every record shows the same, */
  lemma {:induction false} OldShows(u: TxId, s: State, s': State, es: seq<Event>, i: nat)
    requires Inv(s.db, s.h) && Ready(s.db, u) && OthersLead(u, s, s', es) && i < |s.db.heap|
    requires NoUpdates(s.h) && NoUpdate(es)
    ensures Onward(u, s, s') && SameShow(u, s.db, s'.db, i)
    decreases |es|
  {
    OnwardRun(u, s, s', es);
    if es != [] {
      var e := es[0];
      assert e in es;
      OnwardStep(u, s, e);
      NoUpdatesStep(s.db, s.h, e);
      OthersEmit(s.db, s.h, e, u, i);
      OldShows(u, State(Apply(s.db, e), Record(s.h, s.db, e)), s', es[1..], i);
    }
  }

  lemma AppendedShowsNothing(u: TxId, s: State, e: Event, i: nat)
    requires Inv(s.db, s.h) && Ready(s.db, u) && Enabled(s.db, e) && Actor(e) != Some(u) && !e.EUpdate?
    requires |s.db.heap| <= i < |Apply(s.db, e).heap|
    ensures i == |s.db.heap| && Readable(Apply(s.db, e)) && Ready(Apply(s.db, e), u) && Emit(Apply(s.db, e), u, i) == []
  {
    AppendShape(s.db, s.h, e);
    NewRecordEmit(s.db, s.h, e, u);
  }

  /** and a record appended since shows nothing. */
  lemma {:induction false} NewShowsNothing(u: TxId, s: State, s': State, es: seq<Event>, i: nat)
    requires Inv(s.db, s.h) && Ready(s.db, u) && OthersLead(u, s, s', es) && |s.db.heap| <= i < |s'.db.heap|
    requires NoUpdates(s.h) && NoUpdate(es)
    ensures Onward(u, s, s') && Emit(s'.db, u, i) == []
    decreases |es|
  {
    OnwardRun(u, s, s', es);
    if es != [] {
      var e := es[0];
      var s1 := State(Apply(s.db, e), Record(s.h, s.db, e));
      assert e in es;
      OnwardStep(u, s, e);
      NoUpdatesStep(s.db, s.h, e);
      if i < |s1.db.heap| {
        AppendedShowsNothing(u, s, e, i);
        OldShows(u, s1, s', es[1..], i);
      } else {
        NewShowsNothing(u, s1, s', es[1..], i);
      }
    }
  }

  // ----- A scan over successive states --------------------------------------------------------

  /** Record `k` is read in state `ss[k]`; others act before it. */
  ghost predicate Turns(u: TxId, s0: State, ss: seq<State>, ess: seq<seq<Event>>) {
    |ss| == |ess| && forall k :: 0 <= k < |ss| ==> OthersLead(u, s0, ss[k], ess[k]) && k < |ss[k].db.heap|
  }

  ghost predicate AllReadable(u: TxId, ss: seq<State>) {
    forall k :: 0 <= k < |ss| ==> k < |ss[k].db.heap| && HasView(ss[k].db, u) && Readable(ss[k].db)
  }

  /** What record `k` shows in state `s`. */
  ghost function ShownAt(u: TxId, table: TableId, s: State, k: nat): seq<Version>
    requires k < |s.db.heap| && HasView(s.db, u) && Readable(s.db)
  {
    if s.db.heap[k].table == table then Emit(s.db, u, k) else []
  }

  /** What the scan has returned after `n` records. */
  ghost function Read(u: TxId, table: TableId, ss: seq<State>, n: nat): seq<Version>
    requires n <= |ss| && AllReadable(u, ss)
  {
    if n == 0 then [] else Read(u, table, ss, n - 1) + ShownAt(u, table, ss[n - 1], n - 1)
  }

  lemma TurnsReadable(u: TxId, s0: State, ss: seq<State>, ess: seq<seq<Event>>)
    requires Inv(s0.db, s0.h) && Ready(s0.db, u) && Turns(u, s0, ss, ess)
    ensures AllReadable(u, ss)
  {
    forall k | 0 <= k < |ss| ensures HasView(ss[k].db, u) && Readable(ss[k].db) { OnwardRun(u, s0, ss[k], ess[k]); }
  }

  lemma TurnShows(u: TxId, s0: State, s: State, es: seq<Event>, k: nat)
    requires Inv(s0.db, s0.h) && Ready(s0.db, u) && OthersLead(u, s0, s, es) && k < |s.db.heap|
    requires NoUpdates(s0.h) && NoUpdate(es)
    ensures Readable(s0.db) && HasView(s.db, u) && Readable(s.db)
    ensures if k < |s0.db.heap| then SameShow(u, s0.db, s.db, k) else Emit(s.db, u, k) == []
  {
    OnwardRun(u, s0, s, es);
    if k < |s0.db.heap| { OldShows(u, s0, s, es, k); } else { NewShowsNothing(u, s0, s, es, k); }
  }

  lemma ReadOne(u: TxId, table: TableId, db: Db, ss: seq<State>, k: nat)
    requires k < |ss| && AllReadable(u, ss) && HasView(db, u) && Readable(db)
    requires if k < |db.heap| then SameShow(u, db, ss[k].db, k) else Emit(ss[k].db, u, k) == []
    requires Read(u, table, ss, k) == ScanTo(db, u, table, if k < |db.heap| then k else |db.heap|)
    ensures Read(u, table, ss, k + 1) == ScanTo(db, u, table, if k + 1 < |db.heap| then k + 1 else |db.heap|)
  {
  }

  lemma {:induction false} ReadIsScan(u: TxId, table: TableId, s0: State, ss: seq<State>, ess: seq<seq<Event>>, n: nat)
    requires Inv(s0.db, s0.h) && Ready(s0.db, u) && Turns(u, s0, ss, ess) && n <= |ss| && Readable(s0.db)
    requires AllReadable(u, ss)
    requires NoUpdates(s0.h) && forall k :: 0 <= k < |ess| ==> NoUpdate(ess[k])
    ensures Read(u, table, ss, n) == ScanTo(s0.db, u, table, if n < |s0.db.heap| then n else |s0.db.heap|)
    decreases n
  {
    if n > 0 {
      var k := n - 1;
      ReadIsScan(u, table, s0, ss, ess, k);
      TurnShows(u, s0, ss[k], ess[k], k);
      ReadOne(u, table, s0.db, ss, k);
    }
  }

  /**
   For INSERT/DELETE histories a scan that reads its records one by one, while others insert, delete,
   commit and roll back between them, still returns exactly the snapshot, whether or not it goes on
   over records appended in the meantime.
   */
  lemma ScanByTurns(u: TxId, table: TableId, s0: State, ss: seq<State>, ess: seq<seq<Event>>)
    requires Reachable(s0.db, s0.h) && Ready(s0.db, u) && Turns(u, s0, ss, ess) && |s0.db.heap| <= |ss|
    requires NoUpdates(s0.h) && forall k :: 0 <= k < |ess| ==> NoUpdate(ess[k])
    ensures AllReadable(u, ss)
    ensures Read(u, table, ss, |ss|) == SnapshotTo(s0.h, Seen(s0.h, u), table, |s0.h.rows|)
  {
    ReachableInv(s0.db, s0.h);
    SnapshotRead(s0.db, s0.h, u, table);
    TurnsReadable(u, s0, ss, ess);
    ReadIsScan(u, table, s0, ss, ess, |ss|);
  }

  // ----- With updates: the same tuples --------------------------------------------------------

  lemma {:induction false} ReadMembers(u: TxId, table: TableId, ss: seq<State>, n: nat, v: Version)
    requires n <= |ss|
    requires AllReadable(u, ss)
    ensures v in Read(u, table, ss, n) <==> exists k :: 0 <= k < n && Shows(ss[k].db, u, table, k, v)
  {
    if n > 0 {
      ReadMembers(u, table, ss, n - 1, v);
      if v in ShownAt(u, table, ss[n - 1], n - 1) { assert Shows(ss[n - 1].db, u, table, n - 1, v); }
    }
  }

  /** What any record shows, a record whose writer the reader sees shows too. */
  lemma {:induction false} SeenShowsToo(db: Db, h: History, u: TxId, table: TableId, n: nat, v: Version)
    returns (j: nat)
    requires Inv(db, h) && Ready(db, u) && Readable(db) && Shows(db, u, table, n, v)
    ensures j < |db.heap| == |h.rows| && Shows(db, u, table, j, v) && Inserter(h.rows[j]) in Seen(h, u)
    decreases n
  {
    j := n;
    if Inserter(h.rows[n]) !in Seen(h, u) {
      ReplacedShowsToo(db, h, u, table, n, v);
      j := SeenShowsToo(db, h, u, table, h.rows[n].base.value, v);
    }
  }

  lemma TurnFinds(u: TxId, table: TableId, s0: State, ss: seq<State>, ess: seq<seq<Event>>, v: Version) returns (k: nat)
    requires Inv(s0.db, s0.h) && Ready(s0.db, u) && Turns(u, s0, ss, ess) && |s0.db.heap| <= |ss| && Readable(s0.db)
    requires v in Scan(s0.db, u, table)
    ensures k < |ss| && Onward(u, s0, ss[k]) && Shows(ss[k].db, u, table, k, v)
  {
    ScanMembers(s0.db, u, table, |s0.db.heap|, v);
    var i :| 0 <= i < |s0.db.heap| && Shows(s0.db, u, table, i, v);
    k := SeenShowsToo(s0.db, s0.h, u, table, i, v);
    SeenShows(u, s0, ss[k], ess[k], k);
  }

  lemma TurnFound(u: TxId, table: TableId, s0: State, s: State, es: seq<Event>, k: nat, v: Version)
    requires Inv(s0.db, s0.h) && Ready(s0.db, u) && OthersLead(u, s0, s, es) && Readable(s0.db)
    requires Onward(u, s0, s) && Shows(s.db, u, table, k, v)
    ensures v in Scan(s0.db, u, table)
  {
    ScanMembers(s.db, u, table, |s.db.heap|, v);
    RepeatableTuples(s0.db, s0.h, es, s.db, s.h, u, table, v);
  }

  /** For every history, updates included, it returns the tuples a scan of one state returns, and no others. */
  lemma TuplesByTurns(u: TxId, table: TableId, s0: State, ss: seq<State>, ess: seq<seq<Event>>, v: Version)
    requires Reachable(s0.db, s0.h) && Ready(s0.db, u) && Turns(u, s0, ss, ess) && |s0.db.heap| <= |ss|
    ensures Readable(s0.db)
    ensures AllReadable(u, ss)
    ensures v in Read(u, table, ss, |ss|) <==> v in Scan(s0.db, u, table)
  {
    ReachableInv(s0.db, s0.h);
    InvReadable(s0.db, s0.h);
    TurnsReadable(u, s0, ss, ess);
    ReadMembers(u, table, ss, |ss|, v);
    if v in Scan(s0.db, u, table) { var k := TurnFinds(u, table, s0, ss, ess, v); }
    if v in Read(u, table, ss, |ss|) {
      var k :| 0 <= k < |ss| && Shows(ss[k].db, u, table, k, v);
      OnwardRun(u, s0, ss[k], ess[k]);
      TurnFound(u, table, s0, ss[k], ess[k], k, v);
    }
  }

  // ----- A DELETE over successive states ------------------------------------------------------

  /** Steps of others and the statement's own deletions. */
  ghost predicate DeletesLead(t: TxId, s: State, s': State, es: seq<Event>) {
    Reaches(s.db, s.h, es, s'.db, s'.h) && forall e :: e in es ==> Actor(e) == Some(t) ==> e.EDelete?
  }

  lemma OwnDelete(db: Db, h: History, e: Event, t: TxId)
    requires |h.rows| == |db.heap| && Enabled(db, e) && Ready(db, t) && e.EDelete? && e.t == t
    ensures Ready(Apply(db, e), t) && Seen(Record(h, db, e), t) == Seen(h, t)
  {
  }

  /** Rows that were there keep their originals; rows added since have writers the statement does not see. */
  ghost predicate RowsSince(t: TxId, h: History, h': History) {
    && Seen(h', t) == Seen(h, t) && |h.rows| <= |h'.rows|
    && (forall i :: 0 <= i < |h.rows| ==> h'.rows[i].orig == h.rows[i].orig && h'.rows[i].table == h.rows[i].table)
    && (forall i :: |h.rows| <= i < |h'.rows| ==> Inserter(h'.rows[i]) !in Seen(h, t))
  }

  lemma SinceStep(t: TxId, h0: History, db: Db, h: History, e: Event)
    requires Inv(db, h) && Ready(db, t) && Enabled(db, e) && (Actor(e) == Some(t) ==> e.EDelete?)
    requires RowsSince(t, h0, h)
    ensures Ready(Apply(db, e), t) && RowsSince(t, h0, Record(h, db, e))
  {
    if Actor(e) == Some(t) { OwnDelete(db, h, e, t); } else { OthersStep(db, h, e, t); }
    RowsSinceStep(t, db, h, e);
    SinceTrans(t, h0, h, Record(h, db, e));
  }

  lemma RowsSinceStep(t: TxId, db: Db, h: History, e: Event)
    requires Inv(db, h) && Ready(db, t) && Enabled(db, e) && (Actor(e) == Some(t) ==> e.EDelete?)
    requires Seen(Record(h, db, e), t) == Seen(h, t)
    ensures RowsSince(t, h, Record(h, db, e))
  {
    var h' := Record(h, db, e);
    forall i | 0 <= i < |h.rows|
      ensures i < |h'.rows| && h'.rows[i].orig == h.rows[i].orig && h'.rows[i].table == h.rows[i].table
    {
      RowsStay(db, h, e, i);
    }
    forall i | |h.rows| <= i < |h'.rows| ensures Inserter(h'.rows[i]) !in Seen(h, t) { NewRowUnseen(t, db, h, e, i); }
    AppendShape(db, h, e);
  }

  lemma NewRowUnseen(t: TxId, db: Db, h: History, e: Event, i: nat)
    requires Inv(db, h) && Ready(db, t) && Enabled(db, e) && (Actor(e) == Some(t) ==> e.EDelete?)
    requires |h.rows| <= i < |Record(h, db, e).rows|
    ensures Inserter(Record(h, db, e).rows[i]) !in Seen(h, t)
  {
    NewRowIs(db, h, e, i);
    ActorUnseen(db, h, e, t);
  }

  lemma NewRowIs(db: Db, h: History, e: Event, i: nat)
    requires |h.rows| == |db.heap| && Enabled(db, e) && |h.rows| <= i < |Record(h, db, e).rows|
    ensures Actor(e).Some? && Inserter(Record(h, db, e).rows[i]) == e.t && !e.EDelete?
  {
  }

  lemma SinceTrans(t: TxId, h0: History, h1: History, h2: History)
    requires RowsSince(t, h0, h1) && RowsSince(t, h1, h2)
    ensures RowsSince(t, h0, h2)
  {
  }

  lemma {:induction false} SinceRun(t: TxId, h0: History, s: State, s': State, es: seq<Event>)
    requires Inv(s.db, s.h) && Ready(s.db, t) && DeletesLead(t, s, s', es) && RowsSince(t, h0, s.h)
    ensures Inv(s'.db, s'.h) && Ready(s'.db, t) && RowsSince(t, h0, s'.h)
    decreases |es|
  {
    if es != [] {
      assert es[0] in es;
      StepKeeps(s.db, s.h, es[0]);
      SinceStep(t, h0, s.db, s.h, es[0]);
      SinceRun(t, h0, State(Apply(s.db, es[0]), Record(s.h, s.db, es[0])), s', es[1..]);
    }
  }

  /** The row is in the statement's snapshot and matches, whatever its deletion flag says. */
  ghost predicate Wanted(t: TxId, table: TableId, f: Filter, h: History, i: nat) {
    && i < |h.rows| && h.rows[i].table == table && Inserter(h.rows[i]) in Seen(h, t) && f(h.rows[i].orig)
  }

  lemma SelectedIsWanted(db: Db, h: History, t: TxId, table: TableId, f: Filter, i: nat)
    requires Inv(db, h) && Ready(db, t) && i < |db.heap|
    ensures Selected(db, t, table, f, i) <==> Wanted(t, table, f, h, i) && !db.heap[i].v.h.del
  {
    assert RecOk(db, h.rows[i], db.heap[i]);
    var a := Inserter(h.rows[i]);
    VisibleIffSeen(db, h, t, a);
    if Hit(db, t, i) { HitFacts(db, h, t, i); }
    if a in Seen(h, t) && db.heap[i].v.h.dead { GoneUnseen(db, h, t, a); }
  }

  /**
   A DELETE whose records come up one by one, while others act between them: the turn at record `i`
   deletes it if and only if the row was in the snapshot and matched at the start, its DEL flag is clear
   now, and its before-image can be saved. Rows others delete in the meantime are passed over, rows
   whose deletion is undone in the meantime are deleted too, rows added in the meantime never are.
   */
  lemma DeleteByTurns(t: TxId, table: TableId, f: Filter, s0: State, s: State, es: seq<Event>, i: nat)
    requires Reachable(s0.db, s0.h) && Ready(s0.db, t) && DeletesLead(t, s0, s, es) && i < |s.db.heap|
    ensures HasView(s.db, t) && (Selected(s.db, t, table, f, i) ==> !Conflicts(s.db, t, i))
    ensures Selected(s.db, t, table, f, i) <==> Wanted(t, table, f, s0.h, i) && !s.db.heap[i].v.h.del
    ensures Selected(s.db, t, table, f, i) && Saves(s.db.heap[i].v) <==>
              DeleteTurn(Result(s.db, 0, Finished), t, table, f, i) ==
              Result(MarkDelete(s.db, t, Delete, i), 1, Finished)
  {
    ReachableInv(s0.db, s0.h);
    SinceRun(t, s0.h, s0, s, es);
    SelectedNow(t, table, f, s0.h, s, i);
    TurnTakes(s.db, t, table, f, i);
  }

  lemma TurnTakes(db: Db, t: TxId, table: TableId, f: Filter, i: nat)
    requires HasView(db, t) && i < |db.heap| && (Selected(db, t, table, f, i) ==> !Conflicts(db, t, i))
    ensures Selected(db, t, table, f, i) && Saves(db.heap[i].v) <==>
              DeleteTurn(Result(db, 0, Finished), t, table, f, i) == Result(MarkDelete(db, t, Delete, i), 1, Finished)
  {
  }

  lemma SelectedNow(t: TxId, table: TableId, f: Filter, h0: History, s: State, i: nat)
    requires Inv(s.db, s.h) && Ready(s.db, t) && RowsSince(t, h0, s.h) && i < |s.db.heap|
    ensures Selected(s.db, t, table, f, i) ==> !Conflicts(s.db, t, i)
    ensures Selected(s.db, t, table, f, i) <==> Wanted(t, table, f, h0, i) && !s.db.heap[i].v.h.del
  {
    SelectedIsWanted(s.db, s.h, t, table, f, i);
    if Selected(s.db, t, table, f, i) { HitFacts(s.db, s.h, t, i); }
  }
}
