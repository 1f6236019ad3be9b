/** Row counts: what the catalogue says against what the heap holds, in every reachable state. */
module MvccCounts {
  import opened Common
  import opened Mvcc
  import opened MvccHistory
  import opened MvccPreservation
  import opened MvccTheorems

  lemma {:induction false} LiveIsCounted(heap: seq<Rec>, i: nat)
    requires i < |heap| && Live(heap[i].v.h)
    ensures CountLive(heap, heap[i].table) > 0
  {
    if i < |heap| - 1 { LiveIsCounted(heap[..|heap| - 1], i); }
  }

  /** A table's row count is the number of its records neither deleted nor dead. */
  lemma RowCountConserved(db: Db, h: History, table: TableId)
    requires Reachable(db, h) && table in db.rows
    ensures db.rows[table] == CountLive(db.heap, table)
  {
    ReachableInv(db, h);
  }

  /** Every record's table has a row count. */
  ghost predicate TablesCounted(db: Db) { forall i :: 0 <= i < |db.heap| ==> db.heap[i].table in db.rows }

  lemma CountedStep(db: Db, e: Event)
    requires TablesCounted(db) && Enabled(db, e)
    ensures TablesCounted(Apply(db, e))
  {
  }

  lemma {:induction false} CountedRun(db: Db, h: History, es: seq<Event>, db': Db, h': History)
    requires TablesCounted(db) && Reaches(db, h, es, db', h')
    ensures TablesCounted(db')
    decreases |es|
  {
    if es != [] {
      CountedStep(db, es[0]);
      CountedRun(Apply(db, es[0]), Record(h, db, es[0]), es[1..], db', h');
    }
  }

  /** The steps in which the code takes one off a row count: MarkDelete, and MarkDead in a rollback. */
  predicate TakesRow(db: Db, e: Event)
    requires Enabled(db, e)
  {
    match e
    case EDelete(t, i) => Writes(db, t, i)
    case EUpdate(t, i, _) => Writes(db, t, i)
    case ERollback(t) => IsInsertKind(db.txns[t].writes[|db.txns[t].writes| - 1].kind)
    case _ => false
  }

  /** MarkDelete looks at the DEL flag only; even so it never meets a dead record, nor MarkDead a deleted one. */
  lemma TakenRowIsLive(db: Db, h: History, e: Event)
    requires Reachable(db, h) && Enabled(db, e) && TakesRow(db, e)
    ensures Target(db, e).Some? && Target(db, e).value < |db.heap| && Live(db.heap[Target(db, e).value].v.h)
  {
    match e
    case EDelete(t, i) => HitIsLive(db, h, t, i);
    case EUpdate(t, i, _) => HitIsLive(db, h, t, i);
    case ERollback(t) => UndoneInsertWasLive(db, h, t);
    case _ =>
  }

  lemma UndoneInsertWasLive(db: Db, h: History, t: TxId)
    requires Reachable(db, h) && Enabled(db, ERollback(t))
    ensures var w := db.txns[t].writes[|db.txns[t].writes| - 1];
      w.rid < |db.heap| && (IsInsertKind(w.kind) ==> Live(db.heap[w.rid].v.h))
  {
    ReachableInv(db, h);
    UndoneIsOwned(db, h, t);
  }

  lemma HitIsLive(db: Db, h: History, t: TxId, i: nat)
    requires Reachable(db, h) && Ready(db, t) && i < |db.heap| && Hit(db, t, i)
    ensures Live(db.heap[i].v.h)
  {
    ReachableInv(db, h);
    HitFacts(db, h, t, i);
    assert RecOk(db, h.rows[i], db.heap[i]);
  }

  /** The clamp to zero never fires: whenever a step takes a row off a table's count, there is one. */
  lemma ClampNeverFires(db: Db, h: History, e: Event)
    requires Reachable(db, h) && Enabled(db, e) && TakesRow(db, e)
    ensures Target(db, e).Some? && Target(db, e).value < |db.heap|
    ensures var table := db.heap[Target(db, e).value].table;
      table in db.rows && db.rows[table] >= 1
  {
    TakenRowIsLive(db, h, e);
    LiveIsCounted(db.heap, Target(db, e).value);
    ReachableCounted(db, h);
    RowCountConserved(db, h, db.heap[Target(db, e).value].table);
  }

  lemma ReachableCounted(db: Db, h: History)
    requires Reachable(db, h)
    ensures TablesCounted(db)
  {
    var d, es :| Init(d) && Reaches(d, EMPTY, es, db, h);
    CountedRun(d, EMPTY, es, db, h);
  }
}
