/**
 UPDATE collects its rows first and writes them afterwards without looking again. In the step system
 test and write are one guarded step. Here others may act in between, and so may the same UPDATE on its
 other rows: writing is still the guarded step exactly while the record's DEL flag is clear; on a record
 deleted meanwhile it breaks exclusive ownership. `MvccLists` has any number of such lists at once.
 */
module MvccUpdateGap {
  import opened Common
  import opened Mvcc
  import opened MvccHistory
  import opened MvccPreservation
  import opened MvccTheorems
  import opened MvccEngine
  import S = MvccSnapshots

  /** Between collecting row `i` for `t` and writing it: `t` can go on, sees the same, and did not delete it. */
  ghost predicate Between(h: History, db': Db, h': History, t: TxId, i: nat) {
    && Reachable(db', h') && Ready(db', t) && Seen(h', t) == Seen(h, t)
    && i < |h.rows| && |h.rows| <= |h'.rows| == |db'.heap|
    && h'.rows[i].orig == h.rows[i].orig && h'.rows[i].table == h.rows[i].table
    && !DeletedNow(db', t, i)
  }

  ghost predicate DeletedNow(db: Db, t: TxId, i: nat) { i < |db.heap| && db.heap[i].v.h.del && db.heap[i].v.h.trx == t }

  /** What may happen before `t` writes row `i` of its list: steps of others, and its other rows. */
  predicate Spares(e: Event, t: TxId, i: nat) { Actor(e) == Some(t) ==> e.EUpdate? && e.rid != i }

  lemma NotDeletedByOther(db: Db, h: History, e: Event, t: TxId, i: nat)
    requires Reachable(db, h) && Enabled(db, e) && Spares(e, t, i) && i < |db.heap| && !DeletedNow(db, t, i)
    ensures !DeletedNow(Apply(db, e), t, i)
  {
    if Target(db, e) != Some(i) {
      HeapFrame(db, e, i);
    } else if e.ERollback? {
      UndoneIs(db, h, e.t);
    }
  }

  lemma UndoneIs(db: Db, h: History, u: TxId)
    requires Reachable(db, h) && Enabled(db, ERollback(u))
    ensures var w := db.txns[u].writes[|db.txns[u].writes| - 1];
      w.rid < |db.heap| && (IsInsertKind(w.kind) ==> !db.heap[w.rid].v.h.del) && (!IsInsertKind(w.kind) ==> !w.prev.del)
  {
    ReachableInv(db, h);
    UndoneIsOwned(db, h, u);
    var w := db.txns[u].writes[|db.txns[u].writes| - 1];
    assert RecOk(db, h.rows[w.rid], db.heap[w.rid]);
  }

  lemma OthersGoOn(db: Db, h: History, e: Event, t: TxId)
    requires Reachable(db, h) && Enabled(db, e) && Ready(db, t) && (Actor(e) != Some(t) || e.EUpdate?)
    ensures |h.rows| == |db.heap| && Ready(Apply(db, e), t) && Seen(Record(h, db, e), t) == Seen(h, t)
  {
    ReachableInv(db, h);
    if Actor(e) != Some(t) { S.OthersStep(db, h, e, t); } else { OwnUpdate(db, h, e, t); }
  }

  lemma OwnUpdate(db: Db, h: History, e: Event, t: TxId)
    requires |h.rows| == |db.heap| && Enabled(db, e) && Ready(db, t) && e.EUpdate? && e.t == t
    ensures Ready(Apply(db, e), t) && Seen(Record(h, db, e), t) == Seen(h, t)
  {
  }

  lemma BetweenStep(h0: History, db: Db, h: History, e: Event, t: TxId, i: nat)
    requires Between(h0, db, h, t, i) && Enabled(db, e) && Spares(e, t, i)
    ensures Between(h0, Apply(db, e), Record(h, db, e), t, i)
  {
    ReachableStep(db, h, e);
    OthersGoOn(db, h, e, t);
    RowsStay(db, h, e, i);
    NotDeletedByOther(db, h, e, t, i);
  }

  lemma {:induction false} BetweenRun(h0: History, db: Db, h: History, es: seq<Event>, db': Db, h': History, t: TxId,
      i: nat)
    requires Between(h0, db, h, t, i) && Reaches(db, h, es, db', h')
    requires forall e :: e in es ==> Spares(e, t, i)
    ensures Between(h0, db', h', t, i)
    decreases |es|
  {
    if es != [] {
      assert es[0] in es;
      BetweenStep(h0, db, h, es[0], t, i);
      BetweenRun(h0, Apply(db, es[0]), Record(h, db, es[0]), es[1..], db', h', t, i);
    }
  }

  /** A record `t` could update before is its original, or is deleted; in the first case `t` can update it. */
  lemma StillAHit(db: Db, h: History, db': Db, h': History, t: TxId, i: nat)
    requires Reachable(db, h) && Ready(db, t) && i < |db.heap| && Hit(db, t, i) && Between(h, db', h', t, i)
    ensures db'.heap[i].table == db.heap[i].table && db'.heap[i].v.payload == db.heap[i].v.payload
    ensures !db'.heap[i].v.h.del ==> db'.heap[i].v == db.heap[i].v && Hit(db', t, i) && !Conflicts(db', t, i)
  {
    HitIsOriginal(db, h, t, i);
    ReachableInv(db', h');
    assert RecOk(db', h'.rows[i], db'.heap[i]);
    if !db'.heap[i].v.h.del {
      if db'.heap[i].v.h.dead { S.GoneUnseen(db', h', t, Inserter(h'.rows[i])); }
      VisibleIffSeen(db', h', t, Inserter(h'.rows[i]));
      HitFacts(db', h', t, i);
    }
  }

  lemma HitIsOriginal(db: Db, h: History, t: TxId, i: nat)
    requires Reachable(db, h) && Ready(db, t) && i < |db.heap| && Hit(db, t, i)
    ensures |h.rows| == |db.heap| && db.heap[i].v == h.rows[i].orig && db.heap[i].table == h.rows[i].table
    ensures Inserter(h.rows[i]) in Seen(h, t) && db.heap[i].v.h.trx in db.states
  {
    ReachableInv(db, h);
    HitFacts(db, h, t, i);
    assert RecOk(db, h.rows[i], db.heap[i]);
  }

  /** Writing row `x` of a list to `p`, without a look at the record. */
  function WriteFound(d: Db, t: TxId, table: TableId, x: Found, p: Payload): Outcome
    requires t in d.txns && x.rid < |d.heap|
  {
    if Saves(x.was) then Done(Replace(d, t, table, x, p)) else TooLarge
  }

  lemma TwoWrites(d: Db, t: TxId, table: TableId, x: Found, p: Payload)
    requires t in d.txns && x.rid < |d.heap| && Fits(p)
    ensures var d1 := Replace(d, t, table, x, p);
      d1.txns[t].writes != [] && t in RollbackLast(d1, t).txns && RollbackLast(d1, t).txns[t].writes != []
  {
  }

  /** `t` writes row `x` from its list and then rolls those two writes back. */
  ghost function WrittenAndUndone(d: Db, t: TxId, table: TableId, x: Found, p: Payload): Db
    requires t in d.txns && x.rid < |d.heap| && Fits(p)
  {
    TwoWrites(d, t, table, x, p);
    RollbackLast(RollbackLast(Replace(d, t, table, x, p), t), t)
  }

  /** That leaves the collected version, whatever anyone did to the record in between. */
  lemma RollbackOverwrites(d: Db, t: TxId, table: TableId, x: Found, p: Payload)
    requires t in d.txns && x.rid < |d.heap| && d.heap[x.rid].v.h.del && x.was.payload == d.heap[x.rid].v.payload
    requires Fits(p)
    ensures var d' := WrittenAndUndone(d, t, table, x, p);
      && d'.txns.Keys == d.txns.Keys && d'.states == d.states && x.rid < |d'.heap|
      && d'.heap[x.rid] == d.heap[x.rid].(v := x.was)
  {
    var d1 := Replace(d, t, table, x, p);
    var d2 := RollbackLast(d1, t);
    assert d2.txns[t].writes == d.txns[t].writes + [WriteRecord(UpdateDeleteOld, x.rid, x.was.h)];
  }

  lemma WriteIsGuarded(d: Db, t: TxId, i: nat, p: Payload)
    requires HasView(d, t) && i < |d.heap| && Hit(d, t, i) && !Conflicts(d, t, i)
    ensures UpdateRecord(d, t, i, p) == WriteFound(d, t, d.heap[i].table, Found(i, d.heap[i].v), p)
  {
  }

  /** On a deleted record the guarded step does nothing, and writing from the list does something. */
  lemma WriteIsUnguarded(d: Db, t: TxId, i: nat, table: TableId, x: Found, p: Payload)
    requires HasView(d, t) && i < |d.heap| && d.heap[i].v.h.del && x.rid == i && Saves(x.was)
    ensures After(d, UpdateRecord(d, t, i, p)) == d && After(d, WriteFound(d, t, table, x, p)) != d
  {
  }

  /**
   What it does there: MarkDelete finds the flag set and leaves record and row count alone, but the
   before-image is appended, the write set grows, and the new version, if it fits, is inserted and counted.
   */
  lemma WrittenOverDeleted(d: Db, t: TxId, table: TableId, x: Found, p: Payload)
    requires t in d.txns && x.rid < |d.heap| && d.heap[x.rid].v.h.del
    ensures var e := Replace(d, t, table, x, p);
      && e.undo == d.undo + [x.was] && t in e.txns
      && e.heap == d.heap + (if SizeOf(p) <= 4060
                             then [Rec(table, Version(Header(t, At(|d.undo|), false, false), p))] else [])
      && e.rows == (if SizeOf(p) <= 4060 && table in d.rows then d.rows[table := d.rows[table] + 1] else d.rows)
      && |e.txns[t].writes| == |d.txns[t].writes| + (if SizeOf(p) <= 4060 then 2 else 1)
  {
  }

  lemma NothingWritten(d: Db, t: TxId, i: nat, table: TableId, x: Found, p: Payload)
    requires HasView(d, t) && i < |d.heap| && x.rid == i && !Saves(x.was) && x.was.payload == d.heap[i].v.payload
    ensures After(d, UpdateRecord(d, t, i, p)) == d && After(d, WriteFound(d, t, table, x, p)) == d
  {
  }

  /**
   Writing from the collected list, after any steps of others and of the list's other rows, is the
   guarded update step if and only if the record's DEL flag is clear, or its before-image is refused
   anyway. If the flag is set, someone else deleted the record, and rolling `t` back brings back the
   version `t` collected over that deletion.
   */
  lemma WriteFromListExact(db: Db, h: History, es: seq<Event>, db': Db, h': History, t: TxId, i: nat, p: Payload)
    requires Reachable(db, h) && Ready(db, t) && i < |db.heap| && Hit(db, t, i)
    requires Reaches(db, h, es, db', h') && forall e :: e in es ==> Spares(e, t, i)
    ensures Ready(db', t) && i < |db'.heap|
    ensures var x := Found(i, db.heap[i].v);
      && (After(db', UpdateRecord(db', t, i, p)) == After(db', WriteFound(db', t, db.heap[i].table, x, p)) <==>
          (Saves(x.was) ==> !db'.heap[i].v.h.del))
      && (db'.heap[i].v.h.del && Fits(p) ==>
            && db'.heap[i].v.h.trx != t && db'.heap[i] != db.heap[i]
            && i < |WrittenAndUndone(db', t, db.heap[i].table, x, p).heap|
            && WrittenAndUndone(db', t, db.heap[i].table, x, p).heap[i] == db.heap[i])
  {
    var x, table := Found(i, db.heap[i].v), db.heap[i].table;
    HitIsOriginal(db, h, t, i);
    BetweenRun(h, db, h, es, db', h', t, i);
    StillAHit(db, h, db', h', t, i);
    if db'.heap[i].v.h.del && Fits(p) { RollbackOverwrites(db', t, table, x, p); }
    if !Saves(x.was) { NothingWritten(db', t, i, table, x, p); }
    else if db'.heap[i].v.h.del { WriteIsUnguarded(db', t, i, table, x, p); }
    else { WriteIsGuarded(db', t, i, p); }
  }

  /** It happens: 2 and 3 collect the same row, 2 writes it, and 3 brings back what 2, still running, deleted. */
  lemma TwoUpdatersCollide(p: Payload) returns (db: Db, h: History, x: Found)
    requires Fits(p)
    ensures Reachable(db, h) && 2 in db.txns && Ready(db, 3) && |db.heap| > 0 && db.heap[0].v.h.trx == 2
    ensures x.rid == 0 && var d := WrittenAndUndone(db, 3, 0, x, p);
      2 in d.txns && |d.heap| > 0 && d.heap[0].v == x.was && d.heap[0].v.h.trx != 2
  {
    var d0, g, e := BothCollect();
    OneStep(d0, g, e);
    db, h := Apply(d0, e), Record(g, d0, e);
    x := Found(0, d0.heap[0].v);
    UpdatedBy2(d0, e);
    WriteFromListExact(d0, g, [e], db, h, 3, 0, p);
    RollbackOverwrites(db, 3, 0, x, p);
  }

  lemma BothCollect() returns (d: Db, g: History, e: Event)
    ensures Reachable(d, g) && |g.rows| == |d.heap| == 1 && d.heap[0].table == 0 && d.heap[0].v.h.trx == 1
    ensures Ready(d, 2) && Ready(d, 3) && Hit(d, 2, 0) && Hit(d, 3, 0) && Writes(d, 2, 0)
    ensures e == EUpdate(2, 0, [9]) && Enabled(d, e)
  {
    d, g := S.TwoConcurrent([7]);
    e := EUpdate(2, 0, [9]);
    S.OneHit(d, g, 2);
    S.OneHit(d, g, 3);
  }

  lemma OneStep(db: Db, h: History, e: Event)
    requires Reachable(db, h) && Enabled(db, e) && |h.rows| == |db.heap|
    ensures Reachable(Apply(db, e), Record(h, db, e)) && Reaches(db, h, [e], Apply(db, e), Record(h, db, e))
  {
    ReachableStep(db, h, e);
    assert [e][1..] == [] && Reaches(Apply(db, e), Record(h, db, e), [], Apply(db, e), Record(h, db, e));
  }

  lemma UpdatedBy2(d: Db, e: Event)
    requires e == EUpdate(2, 0, [9]) && Enabled(d, e) && 3 in d.txns && Writes(d, 2, 0)
    ensures var d' := Apply(d, e);
      && 2 in d'.txns && 3 in d'.txns && |d'.heap| == |d.heap| + 1
      && d'.heap[0].v.h.del && d'.heap[0].v.h.trx == 2 && d'.heap[0].v.payload == d.heap[0].v.payload
  {
  }
}
