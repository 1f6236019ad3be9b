/** What the transaction layer promises, for every interleaving of any number of transactions. */
module MvccTheorems {
  import opened Common
  import opened Mvcc
  import opened MvccHistory
  import opened MvccPreservation

  function Actor(e: Event): Option<TxId> {
    if e.EBegin? then None else Some(e.t)
  }

  // ----- What single steps leave alone --------------------------------------------------------

  /** Ids are used once: outcomes stay recorded, ended ids stay ended, rollback is never left. */
  lemma TableFacts(db: Db, e: Event, v: TxId)
    requires TableOk(db) && Enabled(db, e)
    ensures var d := Apply(db, e);
      && db.next <= d.next
      && (v in db.states ==> v in d.states && (v !in db.txns ==> v !in d.txns))
      && (v !in db.states && v < db.next ==> v !in d.states)
      && (v in d.txns && v in db.txns && db.txns[v].rolling ==> d.txns[v].rolling)
  {
  }

  /** The record `e` may write, if any. */
  function Target(db: Db, e: Event): Option<nat>
    requires Enabled(db, e)
  {
    match e
    case EDelete(t, i) => if Writes(db, t, i) then Some(i) else None
    case EUpdate(t, i, _) => if Writes(db, t, i) then Some(i) else None
    case ERollback(t) => Some(db.txns[t].writes[|db.txns[t].writes| - 1].rid)
    case _ => None
  }

  lemma HeapFrame(db: Db, e: Event, i: nat)
    requires Enabled(db, e) && i < |db.heap| && Target(db, e) != Some(i)
    ensures i < |Apply(db, e).heap| && Apply(db, e).heap[i] == db.heap[i]
  {
  }

  /** No step moves a record to another table. */
  lemma TableStays(db: Db, e: Event, i: nat)
    requires Enabled(db, e) && i < |db.heap|
    ensures i < |Apply(db, e).heap| && Apply(db, e).heap[i].table == db.heap[i].table
  {
  }

  lemma RollbackTarget(db: Db, e: Event, i: nat)
    requires Enabled(db, e) && e.ERollback? && Target(db, e) == Some(i)
    ensures e == ERollback(e.t) && i == db.txns[e.t].writes[|db.txns[e.t].writes| - 1].rid
  {
  }

  /** A rollback turn, without its event. */
  lemma RollbackIs(db: Db, e: Event, w: WriteRecord)
    requires Enabled(db, e) && e.ERollback? && w == db.txns[e.t].writes[|db.txns[e.t].writes| - 1]
    ensures Target(db, e) == Some(w.rid) && Apply(db, e) == RollbackLast(db, e.t) && |Apply(db, e).heap| == |db.heap|
    ensures w.rid < |db.heap| && IsInsertKind(w.kind) ==> Apply(db, e).heap[w.rid].v.h.dead
    ensures w.rid < |db.heap| && !IsInsertKind(w.kind) ==> Apply(db, e).heap[w.rid].v.h == w.prev
  {
  }

  // ----- Watermarks ---------------------------------------------------------------------------

  /** A view: everyone else running, the next id, and the smallest id of those running. */
  lemma ViewIs(db: Db, t: TxId)
    ensures var v := MakeView(db, t);
      && v.creator == t && v.lowLimit == db.next
      && (forall a :: a in v.activeIds <==> a in db.txns && a != t)
      && v.upLimit <= db.next && (forall a :: a in v.activeIds ==> v.upLimit <= a || db.next <= a)
      && (v.upLimit < db.next ==> v.upLimit in v.activeIds)
  {
  }

  function Begins(es: seq<Event>): nat {
    if es == [] then 0 else (if es[0].EBegin? then 1 else 0) + Begins(es[1..])
  }

  lemma NextStep(db: Db, e: Event)
    requires Enabled(db, e)
    ensures Apply(db, e).next == db.next + if e.EBegin? then 1 else 0
    ensures e.EBegin? ==> db.next in Apply(db, e).txns && Apply(db, e).txns[db.next].writes == []
  {
  }

  /** Ids are handed out one after the other. */
  lemma {:induction false} IdsCountUp(db: Db, h: History, es: seq<Event>, db': Db, h': History)
    requires Reaches(db, h, es, db', h')
    ensures db'.next == db.next + Begins(es)
    decreases |es|
  {
    if es != [] {
      NextStep(db, es[0]);
      IdsCountUp(Apply(db, es[0]), Record(h, db, es[0]), es[1..], db', h');
    }
  }

  /**
   The watermark test is the simple snapshot: an allocated id is visible exactly when it is the
   view's creator or had committed when the view was made. Ids without an outcome (never written
   by this session) are visible exactly below the low watermark.
   */
  lemma WatermarksRefineSnapshot(db: Db, h: History, u: TxId, v: TxId)
    requires Reachable(db, h) && HasView(db, u) && v != INVALID_TX_ID
    ensures v in db.states ==> (IsVisible(db.txns[u].view.value, db.states, v) <==> v == u || v in Snap(h, u))
    ensures v !in db.states ==>
      (IsVisible(db.txns[u].view.value, db.states, v) <==> v < db.txns[u].view.value.upLimit)
  {
    ReachableInv(db, h);
    VisibleIffSeen(db, h, u, v);
    assert ViewOk(db, u, db.txns[u].view.value, h.snaps[u]);
  }

  /** Once ended, a transaction id never lives again. */
  lemma {:induction false} EndedStaysEnded(db: Db, h: History, es: seq<Event>, db': Db, h': History, u: TxId)
    requires Inv(db, h) && Reaches(db, h, es, db', h')
    requires u in db.states && u !in db.txns
    ensures u !in db'.txns && u in db'.states
    decreases |es|
  {
    if es != [] {
      StepKeeps(db, h, es[0]);
      TableFacts(db, es[0], u);
      EndedStaysEnded(Apply(db, es[0]), Record(h, db, es[0]), es[1..], db', h', u);
    }
  }

  lemma ViewStep(db: Db, h: History, e: Event, u: TxId)
    requires TableOk(db) && |h.rows| == |db.heap| && Enabled(db, e) && e != EView(u) && HasView(db, u)
    ensures u in Apply(db, e).txns ==> Apply(db, e).txns[u].view == db.txns[u].view
    ensures u !in Apply(db, e).txns ==> u in Apply(db, e).states
    ensures Snap(Record(h, db, e), u) == Snap(h, u)
  {
  }

  /** Steps without a new snapshot for `u` keep its view and its recorded snapshot. */
  lemma {:induction false} ViewStays(db: Db, h: History, es: seq<Event>, db': Db, h': History, u: TxId)
    requires Inv(db, h) && Reaches(db, h, es, db', h') && EView(u) !in es
    requires HasView(db, u) && HasView(db', u)
    ensures db'.txns[u].view == db.txns[u].view && Snap(h', u) == Snap(h, u)
    decreases |es|
  {
    if es != [] {
      var d, h1 := Apply(db, es[0]), Record(h, db, es[0]);
      StepKeeps(db, h, es[0]);
      ViewStep(db, h, es[0], u);
      if u !in d.txns {
        EndedStaysEnded(d, h1, es[1..], db', h', u);
      } else {
        ViewStays(d, h1, es[1..], db', h', u);
      }
    }
  }

  /** An id below the counter without an outcome never gets one. */
  lemma {:induction false} UnknownStaysUnknown(db: Db, h: History, es: seq<Event>, db': Db, h': History, v: TxId)
    requires Inv(db, h) && Reaches(db, h, es, db', h')
    ensures v in db.states ==> v in db'.states
    ensures v !in db.states && v < db.next ==> v !in db'.states
    decreases |es|
  {
    if es != [] {
      StepKeeps(db, h, es[0]);
      TableFacts(db, es[0], v);
      UnknownStaysUnknown(Apply(db, es[0]), Record(h, db, es[0]), es[1..], db', h', v);
    }
  }

  /** A view never changes its answer about any id, whatever happens afterwards. */
  lemma VisibilityIsStable(db: Db, h: History, es: seq<Event>, db': Db, h': History, u: TxId, v: TxId)
    requires Reachable(db, h) && Reaches(db, h, es, db', h') && EView(u) !in es
    requires HasView(db, u) && HasView(db', u)
    ensures IsVisible(db'.txns[u].view.value, db'.states, v) <==> IsVisible(db.txns[u].view.value, db.states, v)
  {
    ReachableInv(db, h);
    RunKeeps(db, h, es, db', h');
    ViewStays(db, h, es, db', h', u);
    UnknownStaysUnknown(db, h, es, db', h', v);
    VisibleIffSeen(db, h, u, v);
    VisibleIffSeen(db', h', u, v);
    assert ViewOk(db, u, db.txns[u].view.value, h.snaps[u]);
  }

  // ----- Exclusive ownership and rollback -----------------------------------------------------

  /** The first-updater-wins throw is unreachable: a visible version's writer is never in progress. */
  lemma WriteConflictUnreachable(db: Db, h: History, t: TxId, i: nat, p: Payload)
    requires Reachable(db, h) && Ready(db, t) && i < |db.heap|
    ensures !DeleteRecord(db, t, i).WriteConflict? && !UpdateRecord(db, t, i, p).WriteConflict?
  {
    ReachableInv(db, h);
    if Hit(db, t, i) { HitFacts(db, h, t, i); }
  }

  lemma OwnedIsNoHit(db: Db, h: History, t: TxId, u: TxId, i: nat)
    requires Inv(db, h) && t in db.txns && u != t && Ready(db, u) && i < |db.heap| && Hit(db, u, i)
    ensures db.heap[i].v.h.trx != t
  {
    HitFacts(db, h, u, i);
  }

  /** Rollback touches only records its transaction wrote last. */
  lemma UndoneIsOwned(db: Db, h: History, u: TxId)
    requires Inv(db, h) && Enabled(db, ERollback(u))
    ensures var w := db.txns[u].writes[|db.txns[u].writes| - 1];
      && w.rid < |db.heap| && db.heap[w.rid].v.h.trx == u && Undoing(db, h, u, w)
      && (IsInsertKind(w.kind) ==>
          Live(db.heap[w.rid].v.h) && db.heap[w.rid].v == h.rows[w.rid].orig && Inserter(h.rows[w.rid]) == u)
      && (!IsInsertKind(w.kind) ==> db.heap[w.rid].v.h.del && w.prev == h.rows[w.rid].orig.h)
  {
    var w := db.txns[u].writes[|db.txns[u].writes| - 1];
    assert WritesOk(db, h, u) && EntryOk(db, h, u, w);
    assert RecOk(db, h.rows[w.rid], db.heap[w.rid]);
    if IsInsertKind(w.kind) { UndoneInsertIsLive(db, h, u, w); }
  }

  /** A record last written by a live transaction is touched by nobody else. */
  lemma ExclusiveOwnership(db: Db, h: History, e: Event, t: TxId, i: nat)
    requires Reachable(db, h) && Enabled(db, e) && Actor(e) != Some(t)
    requires t in db.txns && i < |db.heap| && db.heap[i].v.h.trx == t
    ensures i < |Apply(db, e).heap| && Apply(db, e).heap[i] == db.heap[i]
  {
    ReachableInv(db, h);
    OwnershipStep(db, h, e, t, i);
  }

  lemma OwnershipStep(db: Db, h: History, e: Event, t: TxId, i: nat)
    requires Inv(db, h) && Enabled(db, e) && Actor(e) != Some(t)
    requires t in db.txns && i < |db.heap| && db.heap[i].v.h.trx == t
    ensures i < |Apply(db, e).heap| && Apply(db, e).heap[i] == db.heap[i]
  {
    TargetNotOwned(db, h, e, t, i);
    HeapFrame(db, e, i);
  }

  /** The record a step writes is not one that another live transaction wrote last. */
  lemma TargetNotOwned(db: Db, h: History, e: Event, t: TxId, i: nat)
    requires Inv(db, h) && Enabled(db, e) && Actor(e) != Some(t)
    requires t in db.txns && i < |db.heap| && db.heap[i].v.h.trx == t
    ensures Target(db, e) != Some(i)
  {
    match e
    case EDelete(u, j) => if j == i && Writes(db, u, j) { OwnedIsNoHit(db, h, t, u, j); }
    case EUpdate(u, j, _) => if j == i && Writes(db, u, j) { OwnedIsNoHit(db, h, t, u, j); }
    case ERollback(u) => UndoneTrx(db, h, u);
    case _ =>
  }

  lemma UndoneTrx(db: Db, h: History, u: TxId)
    requires Inv(db, h) && Enabled(db, ERollback(u))
    ensures var w := db.txns[u].writes[|db.txns[u].writes| - 1]; w.rid < |db.heap| && db.heap[w.rid].v.h.trx == u
  {
    UndoneIsOwned(db, h, u);
  }

  /** The reverse walk over the write set, then the change of state: Abort as the source runs it. */
  ghost function AbortAll(db: Db, t: TxId): Db
    requires t in db.txns
    decreases |db.txns[t].writes|
  {
    if db.txns[t].writes == [] then Finish(db, t, Aborted) else AbortAll(RollbackLast(db, t), t)
  }

  function AbortEvents(db: Db, t: TxId): seq<Event>
    requires t in db.txns
  {
    seq(|db.txns[t].writes|, _ => ERollback(t)) + [EAbort(t)]
  }

  lemma {:induction false} AbortIsARun(db: Db, h: History, t: TxId)
    requires |h.rows| == |db.heap| && t in db.txns && db.txns[t].stuck == 0
    ensures Reaches(db, h, AbortEvents(db, t), AbortAll(db, t), h)
    decreases |db.txns[t].writes|
  {
    var es := AbortEvents(db, t);
    if db.txns[t].writes == [] {
      assert es[1..] == [];
    } else {
      var d := RollbackLast(db, t);
      AbortIsARun(d, h, t);
      assert es[0] == ERollback(t) && es[1..] == AbortEvents(d, t);
    }
  }

  /**
   Whatever others do between the turns of a rollback: once no write is left to undo, every record
   the transaction inserted is its original marked dead, and it deletes nothing any more.
   */
  lemma RollbackComplete(db: Db, h: History, t: TxId, i: nat)
    requires Reachable(db, h) && Enabled(db, EAbort(t)) && i < |db.heap|
    ensures |h.rows| == |db.heap|
    ensures Inserter(h.rows[i]) == t ==> db.heap[i].v == h.rows[i].orig.(h := h.rows[i].orig.h.(dead := true))
    ensures !(db.heap[i].v.h.del && db.heap[i].v.h.trx == t)
  {
    ReachableInv(db, h);
    assert WritesOk(db, h, t) && RecOk(db, h.rows[i], db.heap[i]);
  }

  /** What rolling back `t` leaves at record `i`. */
  function RolledBack(db: Db, h: History, t: TxId, i: nat): Rec
    requires |h.rows| == |db.heap| && i < |db.heap|
  {
    var r, o := db.heap[i], h.rows[i].orig;
    if Inserter(h.rows[i]) == t then r.(v := o.(h := o.h.(dead := true)))
    else if r.v.h.trx == t then r.(v := o)
    else r
  }

  lemma RolledBackStep(db: Db, h: History, t: TxId, i: nat)
    requires Inv(db, h) && Enabled(db, ERollback(t)) && i < |db.heap|
    ensures i < |RollbackLast(db, t).heap| == |db.heap|
    ensures RolledBack(RollbackLast(db, t), h, t, i) == RolledBack(db, h, t, i)
  {
    var w := db.txns[t].writes[|db.txns[t].writes| - 1];
    UndoneIsOwned(db, h, t);
    if i == w.rid { RolledBackHere(db, h, t, w); } else { RolledBackElsewhere(db, h, t, i); }
  }

  lemma RolledBackElsewhere(db: Db, h: History, t: TxId, i: nat)
    requires |h.rows| == |db.heap| && Enabled(db, ERollback(t)) && i < |db.heap|
    requires i != db.txns[t].writes[|db.txns[t].writes| - 1].rid
    ensures |RollbackLast(db, t).heap| == |db.heap|
    ensures RolledBack(RollbackLast(db, t), h, t, i) == RolledBack(db, h, t, i)
  {
  }

  lemma RolledBackHere(db: Db, h: History, t: TxId, w: WriteRecord)
    requires t in db.txns && db.txns[t].writes != [] && w == db.txns[t].writes[|db.txns[t].writes| - 1]
    requires w.rid < |db.heap| == |h.rows| && db.heap[w.rid].v.h.trx == t && RecOk(db, h.rows[w.rid], db.heap[w.rid])
    requires if IsInsertKind(w.kind) then db.heap[w.rid].v == h.rows[w.rid].orig && Inserter(h.rows[w.rid]) == t
             else w.prev == h.rows[w.rid].orig.h
    ensures RolledBack(RollbackLast(db, t), h, t, w.rid) == RolledBack(db, h, t, w.rid)
  {
  }

  /** Abort restores what it deleted, kills what it inserted and changes no other record. */
  lemma {:induction false} AbortIsExact(db: Db, h: History, t: TxId)
    requires Inv(db, h) && t in db.txns && db.txns[t].stuck == 0
    ensures |AbortAll(db, t).heap| == |db.heap|
    ensures forall i :: 0 <= i < |db.heap| ==> AbortAll(db, t).heap[i] == RolledBack(db, h, t, i)
    decreases |db.txns[t].writes|
  {
    if db.txns[t].writes == [] {
      assert WritesOk(db, h, t);
      forall i | 0 <= i < |db.heap| ensures db.heap[i] == RolledBack(db, h, t, i) {
        assert RecOk(db, h.rows[i], db.heap[i]);
      }
    } else {
      var d := RollbackLast(db, t);
      StepKeeps(db, h, ERollback(t));
      AbortIsExact(d, h, t);
      forall i | 0 <= i < |db.heap| ensures AbortAll(db, t).heap[i] == RolledBack(db, h, t, i) {
        RolledBackStep(db, h, t, i);
      }
    }
  }

  ghost predicate Owned(db: Db, h: History, t: TxId, i: nat) {
    && i < |db.heap| == |h.rows|
    && (Inserter(h.rows[i]) == t || (db.heap[i].v.h.del && db.heap[i].v.h.trx == t))
  }

  /** History rows are never rewritten, only added and given more deleters. */
  lemma RowsStay(db: Db, h: History, e: Event, i: nat)
    requires |h.rows| == |db.heap| && Enabled(db, e) && i < |h.rows|
    ensures var h' := Record(h, db, e);
      && i < |h'.rows| && h'.rows[i].orig == h.rows[i].orig && h'.rows[i].base == h.rows[i].base
      && h'.rows[i].table == h.rows[i].table && h.rows[i].deleters <= h'.rows[i].deleters
    ensures |Record(h, db, e).rows| == |Apply(db, e).heap|
  {
  }

  /** A deleted record is deaf to its deleter's further statements. */
  lemma DeletedStays(db: Db, e: Event, t: TxId, i: nat)
    requires Enabled(db, e) && Actor(e) == Some(t) && !e.ERollback? && i < |db.heap| && db.heap[i].v.h.del
    ensures i < |Apply(db, e).heap| && Apply(db, e).heap[i] == db.heap[i]
  {
  }

  lemma OwnedStep(db: Db, h: History, e: Event, t: TxId, i: nat)
    requires Inv(db, h) && Enabled(db, e) && t in db.txns && !db.txns[t].rolling && Owned(db, h, t, i)
    ensures t in Apply(db, e).txns && !Apply(db, e).txns[t].rolling ==> Owned(Apply(db, e), Record(h, db, e), t, i)
    ensures i < |Record(h, db, e).rows| && Record(h, db, e).rows[i].orig == h.rows[i].orig
    ensures t !in Apply(db, e).txns ==> t in Apply(db, e).states
  {
    TableFacts(db, e, t);
    RowsStay(db, h, e, i);
    if Inserter(h.rows[i]) != t && !(e == ERollback(t)) {
      if Actor(e) != Some(t) { OwnershipStep(db, h, e, t, i); } else { DeletedStays(db, e, t, i); }
    }
  }

  lemma {:induction false} RollingStays(db: Db, h: History, es: seq<Event>, db': Db, h': History, t: TxId)
    requires Inv(db, h) && Reaches(db, h, es, db', h') && t in db.txns && db.txns[t].rolling
    ensures t in db'.txns ==> db'.txns[t].rolling
    decreases |es|
  {
    if es != [] {
      var d, h1 := Apply(db, es[0]), Record(h, db, es[0]);
      StepKeeps(db, h, es[0]);
      TableFacts(db, es[0], t);
      if t in d.txns { RollingStays(d, h1, es[1..], db', h', t); } else { EndedStaysEnded(d, h1, es[1..], db', h', t); }
    }
  }

  /** While `t` runs, what it wrote stays its own, whatever the others do. */
  lemma {:induction false} OwnedStays(db: Db, h: History, es: seq<Event>, db': Db, h': History, t: TxId, i: nat)
    requires Inv(db, h) && Reaches(db, h, es, db', h')
    requires t in db.txns && !db.txns[t].rolling && t in db'.txns && !db'.txns[t].rolling
    requires Owned(db, h, t, i)
    ensures Owned(db', h', t, i) && h'.rows[i].orig == h.rows[i].orig
    decreases |es|
  {
    if es != [] {
      var d, h1 := Apply(db, es[0]), Record(h, db, es[0]);
      StepKeeps(db, h, es[0]);
      OwnedStep(db, h, es[0], t, i);
      if t !in d.txns { EndedStaysEnded(d, h1, es[1..], db', h', t); }
      else if d.txns[t].rolling { RollingStays(d, h1, es[1..], db', h', t); }
      else { OwnedStays(d, h1, es[1..], db', h', t, i); }
    }
  }

  lemma TouchIsOwned(db: Db, h: History, e: Event, t: TxId, i: nat)
    requires Inv(db, h) && Enabled(db, e) && (e == EDelete(t, i) || (e.EUpdate? && e.t == t && e.rid == i))
    requires Writes(db, t, i)
    ensures var d, h1 := Apply(db, e), Record(h, db, e);
      && t in d.txns && !d.txns[t].rolling && Owned(d, h1, t, i)
      && h1.rows[i].orig == h.rows[i].orig && db.heap[i].v == h.rows[i].orig
  {
    HitFacts(db, h, t, i);
    TouchDeletes(db, h, e, t, i);
  }

  lemma TouchDeletes(db: Db, h: History, e: Event, t: TxId, i: nat)
    requires |h.rows| == |db.heap| && Enabled(db, e) && (e == EDelete(t, i) || (e.EUpdate? && e.t == t && e.rid == i))
    requires Writes(db, t, i)
    ensures var d, h1 := Apply(db, e), Record(h, db, e);
      t in d.txns && d.txns[t].rolling == db.txns[t].rolling && Owned(d, h1, t, i) && h1.rows[i].orig == h.rows[i].orig
  {
  }

  /**
   Delete or update record `i`, let any interleaving follow in which `t` goes on running, then abort
   `t`: the record is again, header and bytes, what `t` found (dead if `t` had inserted it itself).
   */
  lemma AbortRestoresFirstTouch(db: Db, h: History, e: Event, t: TxId, i: nat, es: seq<Event>, db': Db, h': History)
    requires Reachable(db, h) && Enabled(db, e)
    requires (e == EDelete(t, i) || (e.EUpdate? && e.t == t && e.rid == i)) && Writes(db, t, i)
    requires |h.rows| == |db.heap| && Reaches(Apply(db, e), Record(h, db, e), es, db', h') && t in db'.txns
    requires !db'.txns[t].rolling && db'.txns[t].stuck == 0
    ensures i < |AbortAll(db', t).heap|
    ensures AbortAll(db', t).heap[i].v ==
            if Inserter(h.rows[i]) == t then db.heap[i].v.(h := db.heap[i].v.h.(dead := true)) else db.heap[i].v
  {
    ReachableInv(db, h);
    StepKeeps(db, h, e);
    TouchIsOwned(db, h, e, t, i);
    OwnedStays(Apply(db, e), Record(h, db, e), es, db', h', t, i);
    RunKeeps(Apply(db, e), Record(h, db, e), es, db', h');
    AbortIsExact(db', h', t);
    assert AbortAll(db', t).heap[i] == RolledBack(db', h', t, i);
  }
}
