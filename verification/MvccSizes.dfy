/**
 Sizes. A table page takes tuples of up to 4060 bytes, an undo page before-images of up to 4052. What
 that means for a row: the exact conditions, and an input on each side.
 */
module MvccSizes {
  import opened Common
  import opened Mvcc
  import opened MvccHistory
  import opened MvccPreservation
  import opened MvccTheorems
  import S = MvccSnapshots

  // ----- Stored bytes fit ---------------------------------------------------------------------

  /** Every tuple fits a table page, every before-image an undo page. */
  ghost predicate SizesOk(db: Db) {
    && (forall i :: 0 <= i < |db.heap| ==> Fits(db.heap[i].v.payload))
    && (forall k :: 0 <= k < |db.undo| ==> Saves(db.undo[k]))
  }

  lemma SizesStep(db: Db, e: Event)
    requires SizesOk(db) && Enabled(db, e)
    ensures SizesOk(Apply(db, e))
  {
  }

  lemma {:induction false} SizesRun(db: Db, h: History, es: seq<Event>, db': Db, h': History)
    requires SizesOk(db) && Reaches(db, h, es, db', h')
    ensures SizesOk(db')
    decreases |es|
  {
    if es != [] {
      SizesStep(db, es[0]);
      SizesRun(Apply(db, es[0]), Record(h, db, es[0]), es[1..], db', h');
    }
  }

  lemma StoredFits(db: Db, h: History)
    requires Reachable(db, h)
    ensures SizesOk(db)
  {
    var d, es :| Init(d) && Reaches(d, EMPTY, es, db, h);
    SizesRun(d, EMPTY, es, db, h);
  }

  // ----- Exact conditions ---------------------------------------------------------------------

  /** A row is inserted, live and as it was given, if and only if it has at most 4060 bytes. */
  lemma InsertedExactly(db: Db, t: TxId, table: TableId, p: Payload)
    requires Enabled(db, EInsert(t, table, p))
    ensures var d := Apply(db, EInsert(t, table, p));
      if SizeOf(p) <= 4060 then
        && d.heap == db.heap + [Rec(table, Version(Header(t, Null, false, false), p))]
        && d.rows == db.rows[table := db.rows[table] + 1] && d.undo == db.undo
        && t in d.txns && |d.txns[t].writes| == |db.txns[t].writes| + 1
      else d == db
  {
  }

  /** A row a statement may touch can be deleted or updated if and only if its before-image can be saved. */
  lemma WritableExactly(db: Db, h: History, t: TxId, i: nat, p: Payload)
    requires Reachable(db, h) && Ready(db, t) && i < |db.heap| && Hit(db, t, i)
    ensures DeleteRecord(db, t, i).Done? <==> SizeOf(db.heap[i].v.payload) <= 4052
    ensures UpdateRecord(db, t, i, p).Done? <==> SizeOf(db.heap[i].v.payload) <= 4052
    ensures Writes(db, t, i) <==> SizeOf(db.heap[i].v.payload) <= 4052
  {
    ReachableInv(db, h);
    HitFacts(db, h, t, i);
  }

  /** MarkDelete leaves a deleted record and its table's row count as they are. */
  lemma MarkedTwice(db: Db, t: TxId, kind: WriteKind, i: nat)
    requires t in db.txns && i < |db.heap| && db.heap[i].v.h.del
    ensures MarkDelete(db, t, kind, i).heap == db.heap && MarkDelete(db, t, kind, i).rows == db.rows
  {
  }

  /** An update that is carried out deletes the old row; a new one is there if and only if it fits. */
  lemma ReplacedExactly(db: Db, t: TxId, i: nat, p: Payload)
    requires Enabled(db, EUpdate(t, i, p)) && Writes(db, t, i)
    ensures var d := Apply(db, EUpdate(t, i, p));
      && t in d.txns && d.heap[i].v.h.del && d.heap[i].v.h.trx == t
      && |d.heap| == |db.heap| + (if SizeOf(p) <= 4060 then 1 else 0)
      && (SizeOf(p) <= 4060 ==> d.heap[|db.heap|].v.payload == p && Live(d.heap[|db.heap|].v.h))
      && d.txns[t].stuck == (if SizeOf(p) <= 4060 then db.txns[t].stuck else |db.txns[t].writes| + 1)
  {
  }

  // ----- A lost new version -------------------------------------------------------------------

  lemma {:induction false} DeleterStays(db: Db, h: History, es: seq<Event>, db': Db, h': History, i: nat, t: TxId)
    requires Inv(db, h) && Reaches(db, h, es, db', h') && i < |h.rows| && t in h.rows[i].deleters
    ensures i < |h'.rows| && t in h'.rows[i].deleters
    decreases |es|
  {
    if es != [] {
      StepKeeps(db, h, es[0]);
      RowsStay(db, h, es[0], i);
      DeleterStays(Apply(db, es[0]), Record(h, db, es[0]), es[1..], db', h', i, t);
    }
  }

  /** A row whose new version was lost shows nothing any more to anyone who sees the UPDATE. */
  lemma LostRowIsGone(db: Db, h: History, t: TxId, i: nat, p: Payload, es: seq<Event>, db': Db, h': History, u: TxId)
    requires Reachable(db, h) && Enabled(db, EUpdate(t, i, p)) && Writes(db, t, i) && !Fits(p)
    requires |h.rows| == |db.heap|
    requires Reaches(Apply(db, EUpdate(t, i, p)), Record(h, db, EUpdate(t, i, p)), es, db', h')
    requires Ready(db', u) && t in Seen(h', u)
    ensures Readable(db') && i < |db'.heap| && Emit(db', u, i) == []
  {
    var e := EUpdate(t, i, p);
    ReachableInv(db, h);
    HitFacts(db, h, t, i);
    StepKeeps(db, h, e);
    DeleterStays(Apply(db, e), Record(h, db, e), es, db', h', i, t);
    RunKeeps(Apply(db, e), Record(h, db, e), es, db', h');
    GoneForSeer(db', h', u, i, t);
  }

  lemma GoneForSeer(db: Db, h: History, u: TxId, i: nat, t: TxId)
    requires Inv(db, h) && Ready(db, u) && i < |h.rows| && t in h.rows[i].deleters && t in Seen(h, u)
    ensures Readable(db) && i < |db.heap| && Emit(db, u, i) == []
  {
    S.InvReadable(db, h);
    S.InvBasesBelow(db, h);
    S.EmitIsExpected(db, h, u, i);
    assert DeleterOk(db, h, h.rows[i], db.heap[i], t);
  }

  lemma StuckStep(db: Db, e: Event, t: TxId)
    requires Enabled(db, e) && t in db.txns && db.txns[t].stuck > 0 && db.next !in db.txns
    ensures t in Apply(db, e).txns ==> Apply(db, e).txns[t].stuck > 0
    ensures e != EAbort(t)
  {
  }

  lemma NextIsFree(db: Db)
    requires TableOk(db)
    ensures db.next !in db.txns
  {
    assert db.next in db.txns ==> db.next in db.states;
  }

  /** From then on its transaction is never aborted: its rollback would stop at an entry that names no record. */
  lemma {:induction false} LostIsNeverAborted(db: Db, h: History, es: seq<Event>, db': Db, h': History, t: TxId)
    requires Inv(db, h) && Reaches(db, h, es, db', h') && t in db.txns && db.txns[t].stuck > 0
    ensures t in db'.txns ==> db'.txns[t].stuck > 0
    ensures EAbort(t) !in es
    decreases |es|
  {
    if es != [] {
      var d, h1 := Apply(db, es[0]), Record(h, db, es[0]);
      NextIsFree(db);
      StuckStep(db, es[0], t);
      StepKeeps(db, h, es[0]);
      if t in d.txns {
        LostIsNeverAborted(d, h1, es[1..], db', h', t);
      } else {
        TableFacts(db, es[0], t);
        EndedNeverActs(d, h1, es[1..], db', h', t);
      }
    }
  }

  lemma {:induction false} EndedNeverActs(db: Db, h: History, es: seq<Event>, db': Db, h': History, t: TxId)
    requires Inv(db, h) && Reaches(db, h, es, db', h') && t in db.states && t !in db.txns
    ensures t !in db'.txns && EAbort(t) !in es
    decreases |es|
  {
    if es != [] {
      StepKeeps(db, h, es[0]);
      TableFacts(db, es[0], t);
      EndedNeverActs(Apply(db, es[0]), Record(h, db, es[0]), es[1..], db', h', t);
    }
  }

  // ----- Inputs -------------------------------------------------------------------------------

  function Zeros(n: nat): (p: Payload)
    requires RECORD_HEADER_SIZE + n < 0x1_0000
    ensures SizeOf(p) == RECORD_HEADER_SIZE + n
  {
    seq(n, _ => 0)
  }

  /** A row of 4053 bytes can be inserted and committed, and then every DELETE and UPDATE of it throws. */
  lemma WideRowStays(p: Payload) returns (db: Db, h: History)
    ensures Reachable(db, h) && Ready(db, 2) && |db.heap| == 1 && Hit(db, 2, 0)
    ensures SizeOf(db.heap[0].v.payload) == 4053
    ensures DeleteRecord(db, 2, 0).TooLarge? && UpdateRecord(db, 2, 0, p).TooLarge?
  {
    db, h := S.TwoConcurrent(Zeros(4031));
    S.OneHit(db, h, 2);
  }

  lemma LostFacts(d: Db, g: History, p: Payload)
    requires Enabled(d, EUpdate(2, 0, p)) && Writes(d, 2, 0) && !Fits(p) && |g.rows| == |d.heap| == 1
    ensures var d1, g1 := Apply(d, EUpdate(2, 0, p)), Record(g, d, EUpdate(2, 0, p));
      && |d1.heap| == 1 == |g1.rows| && 2 in g1.rows[0].deleters && Enabled(d1, ECommit(2))
      && d1.heap[0].table == d.heap[0].table
  {
  }

  lemma CommitFacts(d: Db, g: History, t: TxId)
    requires Enabled(d, ECommit(t)) && |g.rows| == |d.heap|
    ensures var d', g' := Apply(d, ECommit(t)), Record(g, d, ECommit(t));
      d'.heap == d.heap && g'.rows == g.rows && t in CommittedSet(d')
  {
  }

  /** An UPDATE to 4061 bytes deletes the row and inserts nothing; once it commits, the row is gone for good. */
  lemma UpdateLosesRow() returns (db: Db, h: History, u: TxId)
    ensures Reachable(db, h) && Ready(db, u) && Readable(db) && 2 in Seen(h, u)
    ensures |db.heap| == 1 && Scan(db, u, 0) == []
  {
    var d, g := S.TwoConcurrent([7]);
    S.OneHit(d, g, 2);
    var p := Zeros(4039);
    LostFacts(d, g, p);
    d, g := S.Next(d, g, EUpdate(2, 0, p));
    CommitFacts(d, g, 2);
    d, g := S.Next(d, g, ECommit(2));
    u := d.next;
    db, h := S.OneMore(d, g, 2);
    ReachableInv(db, h);
    GoneForSeer(db, h, u, 0, 2);
    assert ScanTo(db, u, 0, 0) == [] && Scan(db, u, 0) == ScanTo(db, u, 0, 1);
  }
}
