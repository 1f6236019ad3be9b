/**
 Any number of UPDATE statements writing from their lists at the same time, interleaved with every other
 step. As long as no row is written that someone has deleted since it was collected, this is a run of the
 step system; from the first such write on it is not.
 */
module MvccLists {
  import opened Common
  import opened Mvcc
  import opened MvccHistory
  import opened MvccPreservation
  import opened MvccTheorems
  import opened MvccEngine
  import opened MvccUpdateGap
  import S = MvccSnapshots
  import ST = MvccStatements

  /** The engine, what happened, and what each UPDATE in its second phase has still to write. */
  datatype World = World(db: Db, h: History, lists: map<TxId, seq<Found>>)

  /** A step of a transaction between statements; UPDATE's first phase; one row of its second phase. */
  datatype Move = Step(e: Event) | Gather(t: TxId, table: TableId, f: Filter) | WriteNext(t: TxId, p: Payload)

  function Rest(lists: map<TxId, seq<Found>>, t: TxId, xs: seq<Found>): map<TxId, seq<Found>> {
    if xs == [] then lists - {t} else lists[t := xs]
  }

  predicate CanMove(w: World, m: Move) {
    match m
    case Step(e) => Enabled(w.db, e) && (Actor(e).Some? ==> e.t !in w.lists)
    case Gather(t, _, _) => Ready(w.db, t) && t !in w.lists
    case WriteNext(t, _) => Ready(w.db, t) && t in w.lists && w.lists[t] != [] && w.lists[t][0].rid < |w.db.heap|
  }

  /** The step of the system that a move should be. */
  function Guarded(w: World, m: Move): seq<Event>
    requires CanMove(w, m)
  {
    match m
    case Step(e) => [e]
    case Gather(_, _, _) => []
    case WriteNext(t, p) => [EUpdate(t, w.lists[t][0].rid, p)]
  }

  function GuardedDb(w: World, m: Move): Db
    requires CanMove(w, m)
  {
    if m.Gather? then w.db else Apply(w.db, Guarded(w, m)[0])
  }

  /** The move as the code makes it. */
  function MovedDb(w: World, m: Move): Db
    requires CanMove(w, m)
  {
    match m
    case Step(e) => Apply(w.db, e)
    case Gather(_, _, _) => w.db
    case WriteNext(t, p) =>
      var x := w.lists[t][0];
      After(w.db, WriteFound(w.db, t, w.db.heap[x.rid].table, x, p))
  }

  /** A before-image that is refused ends the statement. */
  function MovedLists(w: World, m: Move): map<TxId, seq<Found>>
    requires CanMove(w, m)
  {
    match m
    case Step(e) => w.lists
    case Gather(t, table, f) =>
      var c := CollectTo(w.db, t, table, f, |w.db.heap|);
      Rest(w.lists, t, if c.conflict then [] else c.found)
    case WriteNext(t, _) => Rest(w.lists, t, if Saves(w.lists[t][0].was) then w.lists[t][1..] else [])
  }

  function Moved(w: World, m: Move): World
    requires CanMove(w, m)
  {
    var h' := if m.Gather? || |w.h.rows| != |w.db.heap| then w.h else Record(w.h, w.db, Guarded(w, m)[0]);
    World(MovedDb(w, m), h', MovedLists(w, m))
  }

  /** The row about to be written has not been deleted since it was collected. */
  predicate Clear(w: World, m: Move)
    requires CanMove(w, m)
  {
    m.WriteNext? && Saves(w.lists[m.t][0].was) ==> !w.db.heap[w.lists[m.t][0].rid].v.h.del
  }

  ghost predicate Runs(w: World, ms: seq<Move>, w': World)
    decreases |ms|
  {
    if ms == [] then w' == w else CanMove(w, ms[0]) && Runs(Moved(w, ms[0]), ms[1..], w')
  }

  ghost predicate AllClear(w: World, ms: seq<Move>)
    decreases |ms|
  {
    ms != [] ==> CanMove(w, ms[0]) && Clear(w, ms[0]) && AllClear(Moved(w, ms[0]), ms[1..])
  }

  /** Every move does what its guarded step does. */
  ghost predicate AllGuarded(w: World, ms: seq<Move>)
    decreases |ms|
  {
    ms != [] ==> CanMove(w, ms[0]) && MovedDb(w, ms[0]) == GuardedDb(w, ms[0]) && AllGuarded(Moved(w, ms[0]), ms[1..])
  }

  ghost function Events(w: World, ms: seq<Move>): seq<Event>
    decreases |ms|
  {
    if ms == [] || !CanMove(w, ms[0]) then [] else Guarded(w, ms[0]) + Events(Moved(w, ms[0]), ms[1..])
  }

  // ----- What the lists rely on ---------------------------------------------------------------

  /** The row is still the original `t` collected, or someone else has deleted it. */
  ghost predicate FoundOk(db: Db, h: History, t: TxId, x: Found) {
    && x.rid < |db.heap| == |h.rows| && x.was == h.rows[x.rid].orig && Inserter(h.rows[x.rid]) in Seen(h, t)
    && !DeletedNow(db, t, x.rid)
  }

  ghost predicate AllFound(db: Db, h: History, t: TxId, xs: seq<Found>) {
    && (forall k :: 0 <= k < |xs| ==> FoundOk(db, h, t, xs[k]))
    && (forall j, k :: 0 <= j < k < |xs| ==> xs[j].rid != xs[k].rid)
  }

  ghost predicate ListOk(db: Db, h: History, t: TxId, xs: seq<Found>) {
    Ready(db, t) && xs != [] && AllFound(db, h, t, xs)
  }

  ghost predicate WorldOk(w: World) {
    Reachable(w.db, w.h) && forall t :: t in w.lists ==> ListOk(w.db, w.h, t, w.lists[t])
  }

  lemma FoundStays(db: Db, h: History, e: Event, t: TxId, x: Found)
    requires Reachable(db, h) && Enabled(db, e) && Ready(db, t) && FoundOk(db, h, t, x) && Spares(e, t, x.rid)
    ensures FoundOk(Apply(db, e), Record(h, db, e), t, x)
  {
    OthersGoOn(db, h, e, t);
    RowsStay(db, h, e, x.rid);
    NotDeletedByOther(db, h, e, t, x.rid);
  }

  lemma ListStays(db: Db, h: History, e: Event, t: TxId, xs: seq<Found>)
    requires Reachable(db, h) && Enabled(db, e) && ListOk(db, h, t, xs)
    requires Actor(e) == Some(t) ==> e.EUpdate? && forall k :: 0 <= k < |xs| ==> e.rid != xs[k].rid
    ensures |h.rows| == |db.heap| && ListOk(Apply(db, e), Record(h, db, e), t, xs)
  {
    OthersGoOn(db, h, e, t);
    forall k | 0 <= k < |xs| ensures FoundOk(Apply(db, e), Record(h, db, e), t, xs[k]) {
      FoundStays(db, h, e, t, xs[k]);
    }
  }

  /** A collected row whose DEL flag is clear can be updated like any other. */
  lemma FoundIsHit(db: Db, h: History, t: TxId, x: Found)
    requires Reachable(db, h) && Ready(db, t) && FoundOk(db, h, t, x) && !db.heap[x.rid].v.h.del
    ensures db.heap[x.rid].v == x.was && Hit(db, t, x.rid) && !Conflicts(db, t, x.rid)
  {
    ReachableInv(db, h);
    var a := Inserter(h.rows[x.rid]);
    assert RecOk(db, h.rows[x.rid], db.heap[x.rid]);
    if db.heap[x.rid].v.h.dead { S.GoneUnseen(db, h, t, a); }
    VisibleIffSeen(db, h, t, a);
    HitFacts(db, h, t, x.rid);
  }

  lemma FoundBytes(db: Db, h: History, t: TxId, x: Found)
    requires Reachable(db, h) && FoundOk(db, h, t, x)
    ensures db.heap[x.rid].v.payload == x.was.payload
  {
    ReachableInv(db, h);
    assert RecOk(db, h.rows[x.rid], db.heap[x.rid]);
  }

  /** One row written: the guarded step if and only if the row is clear. */
  lemma WriteExact(db: Db, h: History, t: TxId, x: Found, p: Payload)
    requires Reachable(db, h) && Ready(db, t) && FoundOk(db, h, t, x)
    ensures After(db, WriteFound(db, t, db.heap[x.rid].table, x, p)) == After(db, UpdateRecord(db, t, x.rid, p))
            <==> (Saves(x.was) ==> !db.heap[x.rid].v.h.del)
  {
    FoundBytes(db, h, t, x);
    if !Saves(x.was) {
      NothingWritten(db, t, x.rid, db.heap[x.rid].table, x, p);
    } else if db.heap[x.rid].v.h.del {
      WriteIsUnguarded(db, t, x.rid, db.heap[x.rid].table, x, p);
    } else {
      FoundIsHit(db, h, t, x);
      WriteIsGuarded(db, t, x.rid, p);
    }
  }

  lemma MoveExact(w: World, m: Move)
    requires WorldOk(w) && CanMove(w, m)
    ensures MovedDb(w, m) == GuardedDb(w, m) <==> Clear(w, m)
  {
    if m.WriteNext? {
      assert ListOk(w.db, w.h, m.t, w.lists[m.t]);
      WriteExact(w.db, w.h, m.t, w.lists[m.t][0], m.p);
    }
  }

  // ----- Collecting ---------------------------------------------------------------------------

  lemma FoundSnoc(db: Db, h: History, t: TxId, xs: seq<Found>, x: Found)
    requires AllFound(db, h, t, xs) && FoundOk(db, h, t, x) && forall k :: 0 <= k < |xs| ==> xs[k].rid < x.rid
    ensures AllFound(db, h, t, xs + [x])
  {
  }

  lemma {:induction false} CollectedOk(db: Db, h: History, t: TxId, table: TableId, f: Filter, n: nat)
    requires Reachable(db, h) && Ready(db, t) && n <= |db.heap|
    ensures AllFound(db, h, t, CollectTo(db, t, table, f, n).found)
  {
    if n > 0 {
      CollectedOk(db, h, t, table, f, n - 1);
      if Selected(db, t, table, f, n - 1) {
        HitFound(db, h, t, n - 1);
        FoundSnoc(db, h, t, CollectTo(db, t, table, f, n - 1).found, Found(n - 1, db.heap[n - 1].v));
      }
    }
  }

  lemma HitFound(db: Db, h: History, t: TxId, i: nat)
    requires Reachable(db, h) && Ready(db, t) && i < |db.heap| && Hit(db, t, i)
    ensures FoundOk(db, h, t, Found(i, db.heap[i].v))
  {
    HitIsOriginal(db, h, t, i);
  }

  // ----- Moves --------------------------------------------------------------------------------

  lemma GatherKeeps(w: World, m: Move)
    requires WorldOk(w) && CanMove(w, m) && m.Gather?
    ensures WorldOk(Moved(w, m))
  {
    CollectedOk(w.db, w.h, m.t, m.table, m.f, |w.db.heap|);
    var w' := Moved(w, m);
    forall t | t in w'.lists ensures ListOk(w'.db, w'.h, t, w'.lists[t]) {
      if t != m.t { assert ListOk(w.db, w.h, t, w.lists[t]); }
    }
  }

  lemma StepKeepsLists(w: World, m: Move)
    requires WorldOk(w) && CanMove(w, m) && m.Step?
    ensures |w.h.rows| == |w.db.heap| && WorldOk(Moved(w, m))
  {
    var w' := Moved(w, m);
    ReachableStep(w.db, w.h, m.e);
    forall t | t in w'.lists ensures ListOk(w'.db, w'.h, t, w'.lists[t]) {
      assert ListOk(w.db, w.h, t, w.lists[t]);
      ListStays(w.db, w.h, m.e, t, w.lists[t]);
    }
  }

  /** The rest of the writer's own list, and everyone else's. */
  lemma WriteKeepsList(w: World, m: Move, e: Event, t: TxId)
    requires WorldOk(w) && CanMove(w, m) && m.WriteNext? && e == EUpdate(m.t, w.lists[m.t][0].rid, m.p)
    requires t in MovedLists(w, m)
    ensures |w.h.rows| == |w.db.heap| && ListOk(Apply(w.db, e), Record(w.h, w.db, e), t, MovedLists(w, m)[t])
  {
    assert ListOk(w.db, w.h, t, w.lists[t]);
    ListStays(w.db, w.h, e, t, MovedLists(w, m)[t]);
  }

  lemma WriteKeeps(w: World, m: Move)
    requires WorldOk(w) && CanMove(w, m) && m.WriteNext? && Clear(w, m)
    ensures |w.h.rows| == |w.db.heap| && WorldOk(Moved(w, m))
  {
    var w', e := Moved(w, m), EUpdate(m.t, w.lists[m.t][0].rid, m.p);
    MoveExact(w, m);
    ReachableStep(w.db, w.h, e);
    forall t | t in w'.lists ensures ListOk(w'.db, w'.h, t, w'.lists[t]) { WriteKeepsList(w, m, e, t); }
  }

  /** A clear move keeps what the lists rely on, and is its guarded step. */
  lemma ClearMoveKeeps(w: World, m: Move)
    requires WorldOk(w) && CanMove(w, m) && Clear(w, m)
    ensures WorldOk(Moved(w, m)) && |w.h.rows| == |w.db.heap|
    ensures Moved(w, m).db == GuardedDb(w, m)
  {
    ReachableInv(w.db, w.h);
    MoveExact(w, m);
    match m
    case Step(_) => StepKeepsLists(w, m);
    case Gather(_, _, _) => GatherKeeps(w, m);
    case WriteNext(_, _) => WriteKeeps(w, m);
  }

  lemma OneMoveReaches(w: World, m: Move, es: seq<Event>, w': World)
    requires CanMove(w, m) && |w.h.rows| == |w.db.heap| && Moved(w, m).db == GuardedDb(w, m)
    requires Reaches(Moved(w, m).db, Moved(w, m).h, es, w'.db, w'.h)
    ensures Reaches(w.db, w.h, Guarded(w, m) + es, w'.db, w'.h)
  {
    var all := Guarded(w, m) + es;
    if m.Gather? {
      assert all == es;
    } else {
      assert all[0] == Guarded(w, m)[0] && all[1..] == es;
    }
  }

  /**
   Any interleaving of statements that write from their lists: its writes all do what the guarded steps
   do if and only if none of them meets a row deleted since it was collected, and then it is a run of
   the step system, for which all that is proved about such runs holds.
   */
  lemma {:induction false} MovesAreSteps(w: World, ms: seq<Move>, w': World)
    requires WorldOk(w) && Runs(w, ms, w')
    ensures AllClear(w, ms) <==> AllGuarded(w, ms)
    ensures AllClear(w, ms) ==> WorldOk(w') && Reaches(w.db, w.h, Events(w, ms), w'.db, w'.h)
    decreases |ms|
  {
    if ms != [] {
      var m := ms[0];
      MoveExact(w, m);
      if Clear(w, m) {
        ClearMoveKeeps(w, m);
        MovesAreSteps(Moved(w, m), ms[1..], w');
        if AllClear(w, ms) { OneMoveReaches(w, m, Events(Moved(w, m), ms[1..]), w'); }
      }
    }
  }

  // ----- Every collected row is written -------------------------------------------------------

  /** The records an UPDATE's entries in a write set say it deleted, in order. */
  function OldRids(ws: seq<WriteRecord>): seq<nat> {
    if ws == [] then []
    else OldRids(ws[..|ws| - 1]) + if ws[|ws| - 1].kind.UpdateDeleteOld? then [ws[|ws| - 1].rid] else []
  }

  function RidsOf(xs: seq<Found>): (r: seq<nat>)
    ensures |r| == |xs| && forall k :: 0 <= k < |xs| ==> r[k] == xs[k].rid
  {
    seq(|xs|, k requires 0 <= k < |xs| => xs[k].rid)
  }

  ghost predicate AllSave(xs: seq<Found>) { forall k :: 0 <= k < |xs| ==> Saves(xs[k].was) }

  /** How often `t` gets to write. */
  function Turns(ms: seq<Move>, t: TxId): nat {
    if ms == [] then 0 else (if ms[0].WriteNext? && ms[0].t == t then 1 else 0) + Turns(ms[1..], t)
  }

  /** `t`'s statement is under way before each of these moves. */
  ghost predicate Pending(w: World, ms: seq<Move>, t: TxId)
    decreases |ms|
  {
    ms != [] ==> t in w.lists && CanMove(w, ms[0]) && Pending(Moved(w, ms[0]), ms[1..], t)
  }

  /** Ids not handed out are nobody's. */
  predicate NextFree(db: Db) { forall t :: t in db.txns ==> t < db.next }

  /** The statement has written exactly `xs`. */
  ghost predicate HasWritten(db: Db, t: TxId, before: seq<nat>, xs: seq<Found>) {
    t in db.txns && OldRids(db.txns[t].writes) == before + RidsOf(xs)
  }

  /**
   After `k` turns of the statement that had `xs` to write: it is under way with the rest, or at its end,
   having written all, or refused at the last turn, having written those before.
   */
  ghost predicate Progress(w: World, t: TxId, before: seq<nat>, xs: seq<Found>, k: nat) {
    if t in w.lists then
      k < |xs| && w.lists[t] == xs[k..] && AllSave(xs[..k]) && HasWritten(w.db, t, before, xs[..k])
    else if k == |xs| && AllSave(xs) then
      HasWritten(w.db, t, before, xs)
    else
      0 < k <= |xs| && AllSave(xs[..k - 1]) && !Saves(xs[k - 1].was) && HasWritten(w.db, t, before, xs[..k - 1])
  }

  lemma OthersStepWrites(db: Db, e: Event, t: TxId)
    requires Enabled(db, e) && NextFree(db) && t in db.txns && Actor(e) != Some(t)
    ensures NextFree(Apply(db, e)) && t in Apply(db, e).txns && Apply(db, e).txns[t].writes == db.txns[t].writes
  {
  }

  /** No one else's move touches a pending list or its owner's write set. */
  lemma OthersMove(w: World, m: Move, t: TxId)
    requires CanMove(w, m) && NextFree(w.db) && t in w.db.txns && t in w.lists && !(m.WriteNext? && m.t == t)
    ensures var w' := Moved(w, m);
      && NextFree(w'.db) && t in w'.db.txns && w'.db.txns[t].writes == w.db.txns[t].writes
      && t in w'.lists && w'.lists[t] == w.lists[t]
  {
    if m.Step? { OthersStepWrites(w.db, m.e, t); }
  }

  lemma OldRidsPut(db: Db, t: TxId, table: TableId, x: Found, p: Payload)
    requires t in db.txns && x.rid < |db.heap|
    ensures var d := Replace(db, t, table, x, p);
      t in d.txns && OldRids(d.txns[t].writes) == OldRids(db.txns[t].writes) + [x.rid]
  {
    var ws, d := db.txns[t].writes, Replace(db, t, table, x, p);
    var mark := WriteRecord(UpdateDeleteOld, x.rid, x.was.h);
    assert (ws + [mark])[..|ws|] == ws;
    if Fits(p) {
      assert d.txns[t].writes[..|ws| + 1] == ws + [mark] && d.txns[t].writes[|ws| + 1].kind.UpdateInsertNew?;
    } else {
      assert d.txns[t].writes == ws + [mark];
    }
  }

  lemma OwnLists(w: World, m: Move, t: TxId)
    requires CanMove(w, m) && m.WriteNext? && m.t == t
    ensures var ls, xs := MovedLists(w, m), w.lists[t];
      && (t in ls <==> Saves(xs[0].was) && |xs| > 1) && (t in ls ==> ls[t] == xs[1..])
  {
  }

  lemma OwnWrites(db: Db, t: TxId, table: TableId, x: Found, p: Payload, d: Db)
    requires NextFree(db) && t in db.txns && x.rid < |db.heap| && d == After(db, WriteFound(db, t, table, x, p))
    ensures NextFree(d) && t in d.txns
    ensures OldRids(d.txns[t].writes) == OldRids(db.txns[t].writes) + if Saves(x.was) then [x.rid] else []
  {
    if Saves(x.was) {
      OldRidsPut(db, t, table, x, p);
    } else {
      assert OldRids(db.txns[t].writes) + [] == OldRids(db.txns[t].writes);
    }
  }

  /** Its own turn writes the first row of the list, and the rest is left; or is refused and ends. */
  lemma OwnMove(w: World, m: Move, t: TxId)
    requires CanMove(w, m) && NextFree(w.db) && t in w.db.txns && m.WriteNext? && m.t == t
    ensures var w', x := Moved(w, m), w.lists[t][0];
      && NextFree(w'.db) && t in w'.db.txns
      && OldRids(w'.db.txns[t].writes) == OldRids(w.db.txns[t].writes) + (if Saves(x.was) then [x.rid] else [])
      && (t in w'.lists <==> Saves(x.was) && |w.lists[t]| > 1) && (t in w'.lists ==> w'.lists[t] == w.lists[t][1..])
  {
    var x := w.lists[t][0];
    OwnLists(w, m, t);
    OwnWrites(w.db, t, w.db.heap[x.rid].table, x, m.p, MovedDb(w, m));
  }

  /** A first row written, then the first `k` of the rest. */
  lemma ConsWritten(db: Db, t: TxId, before: seq<nat>, xs: seq<Found>, k: nat)
    requires k < |xs| && HasWritten(db, t, before + [xs[0].rid], xs[1..][..k])
    ensures HasWritten(db, t, before, xs[..k + 1])
  {
    assert xs[..k + 1] == [xs[0]] + xs[1..][..k];
    assert RidsOf(xs[..k + 1]) == [xs[0].rid] + RidsOf(xs[1..][..k]);
    assert before + [xs[0].rid] + RidsOf(xs[1..][..k]) == before + ([xs[0].rid] + RidsOf(xs[1..][..k]));
  }

  lemma ConsSaves(xs: seq<Found>, k: nat)
    requires k < |xs| && Saves(xs[0].was)
    ensures AllSave(xs[1..][..k]) <==> AllSave(xs[..k + 1])
  {
    var ys := xs[1..][..k];
    forall j | 0 <= j < k ensures ys[j] == xs[..k + 1][j + 1] { }
  }

  lemma AfterOwn(w: World, t: TxId, before: seq<nat>, xs: seq<Found>, k: nat)
    requires xs != [] && Saves(xs[0].was) && Progress(w, t, before + [xs[0].rid], xs[1..], k)
    ensures Progress(w, t, before, xs, k + 1)
  {
    var n, ys := |xs| - 1, xs[1..];
    assert ys[..n] == ys && xs[..n + 1] == xs;
    ConsSaves(xs, n);
    if t in w.lists {
      AfterOwnOn(w, t, before, xs, k);
    } else if k == n && AllSave(ys) {
      ConsWritten(w.db, t, before, xs, n);
    } else {
      AfterOwnRefused(w, t, before, xs, k);
    }
  }

  lemma AfterOwnOn(w: World, t: TxId, before: seq<nat>, xs: seq<Found>, k: nat)
    requires xs != [] && Saves(xs[0].was) && t in w.lists && k < |xs[1..]| && w.lists[t] == xs[1..][k..]
    requires AllSave(xs[1..][..k]) && HasWritten(w.db, t, before + [xs[0].rid], xs[1..][..k])
    ensures Progress(w, t, before, xs, k + 1)
  {
    assert xs[1..][k..] == xs[k + 1..];
    ConsSaves(xs, k);
    ConsWritten(w.db, t, before, xs, k);
  }

  lemma AfterOwnRefused(w: World, t: TxId, before: seq<nat>, xs: seq<Found>, k: nat)
    requires xs != [] && Saves(xs[0].was) && t !in w.lists && 0 < k <= |xs[1..]| && !AllSave(xs)
    requires AllSave(xs[1..][..k - 1]) && !Saves(xs[1..][k - 1].was)
    requires HasWritten(w.db, t, before + [xs[0].rid], xs[1..][..k - 1])
    ensures Progress(w, t, before, xs, k + 1)
  {
    ConsSaves(xs, k - 1);
    ConsWritten(w.db, t, before, xs, k - 1);
  }

  lemma {:induction false} ListProgress(w: World, ms: seq<Move>, w': World, t: TxId, xs: seq<Found>)
    requires Runs(w, ms, w') && Pending(w, ms, t) && NextFree(w.db) && t in w.db.txns
    requires t in w.lists && w.lists[t] == xs && xs != []
    ensures Progress(w', t, OldRids(w.db.txns[t].writes), xs, Turns(ms, t))
    decreases |ms|, 1
  {
    if ms == [] {
      assert xs[0..] == xs && OldRids(w.db.txns[t].writes) + RidsOf(xs[..0]) == OldRids(w.db.txns[t].writes);
    } else if ms[0].WriteNext? && ms[0].t == t {
      OwnProgress(w, ms[0], ms[1..], w', t, xs);
    } else {
      OthersMove(w, ms[0], t);
      ListProgress(Moved(w, ms[0]), ms[1..], w', t, xs);
    }
  }

  lemma {:induction false} OwnProgress(w: World, m: Move, ms: seq<Move>, w': World, t: TxId, xs: seq<Found>)
    requires CanMove(w, m) && m.WriteNext? && m.t == t && NextFree(w.db) && t in w.db.txns
    requires Runs(Moved(w, m), ms, w') && Pending(Moved(w, m), ms, t) && w.lists[t] == xs
    ensures Progress(w', t, OldRids(w.db.txns[t].writes), xs, 1 + Turns(ms, t))
    decreases |ms|, 3
  {
    var u, before := Moved(w, m), OldRids(w.db.txns[t].writes);
    OwnMove(w, m, t);
    if t in u.lists { GoesOn(u, ms, w', t, before, xs); } else { LastTurn(u, ms, w', t, before, xs); }
  }

  lemma {:induction false} GoesOn(u: World, ms: seq<Move>, w': World, t: TxId, before: seq<nat>, xs: seq<Found>)
    requires Runs(u, ms, w') && Pending(u, ms, t) && NextFree(u.db) && t in u.db.txns && xs != [] && Saves(xs[0].was)
    requires OldRids(u.db.txns[t].writes) == before + [xs[0].rid] && t in u.lists && u.lists[t] == xs[1..] != []
    ensures Progress(w', t, before, xs, 1 + Turns(ms, t))
    decreases |ms|, 2
  {
    ListProgress(u, ms, w', t, u.lists[t]);
    NextProgress(w', t, before, OldRids(u.db.txns[t].writes), xs, u.lists[t], Turns(ms, t));
  }

  lemma NextProgress(w: World, t: TxId, before: seq<nat>, now: seq<nat>, xs: seq<Found>, ys: seq<Found>, k: nat)
    requires xs != [] && Saves(xs[0].was) && ys == xs[1..] && now == before + [xs[0].rid] && Progress(w, t, now, ys, k)
    ensures Progress(w, t, before, xs, 1 + k)
  {
    AfterOwn(w, t, before, xs, k);
  }

  lemma LastTurn(u: World, ms: seq<Move>, w': World, t: TxId, before: seq<nat>, xs: seq<Found>)
    requires Runs(u, ms, w') && Pending(u, ms, t) && t in u.db.txns && t !in u.lists && xs != []
    requires OldRids(u.db.txns[t].writes) == before + (if Saves(xs[0].was) then [xs[0].rid] else [])
    requires Saves(xs[0].was) ==> |xs| == 1
    ensures ms == [] && Progress(w', t, before, xs, 1)
  {
    assert RidsOf(xs[..1]) == [xs[0].rid] && before + RidsOf(xs[..0]) == before;
    if Saves(xs[0].was) { assert xs[..1] == xs; }
  }

  lemma GatherFinds(w: World, t: TxId, table: TableId, f: Filter)
    requires WorldOk(w) && CanMove(w, Gather(t, table, f))
    ensures NextFree(w.db) && !CollectTo(w.db, t, table, f, |w.db.heap|).conflict
  {
    ReachableInv(w.db, w.h);
    var c, ids := ST.CollectRun(w.db, w.h, t, table, f, |w.db.heap|);
  }

  /**
   From collecting its rows to its end, whatever others do in between, a statement's writes are exactly the
   rows it collected, once each and in order, up to the first one whose before-image is refused; and while
   it is under way its list is what is left of them.
   */
  lemma WritesAreCollected(w: World, t: TxId, table: TableId, f: Filter, ms: seq<Move>, w': World)
    requires WorldOk(w) && CanMove(w, Gather(t, table, f))
    requires Runs(Moved(w, Gather(t, table, f)), ms, w') && Pending(Moved(w, Gather(t, table, f)), ms, t)
    ensures Progress(w', t, OldRids(w.db.txns[t].writes), CollectTo(w.db, t, table, f, |w.db.heap|).found, Turns(ms, t))
  {
    var w1, xs := Moved(w, Gather(t, table, f)), CollectTo(w.db, t, table, f, |w.db.heap|).found;
    GatherFinds(w, t, table, f);
    if xs == [] {
      assert OldRids(w.db.txns[t].writes) + RidsOf(xs) == OldRids(w.db.txns[t].writes);
    } else {
      ListProgress(w1, ms, w', t, xs);
    }
  }
}
