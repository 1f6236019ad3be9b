/**
 Every step keeps the invariant, clause by clause. Steps that only touch the transaction table are
 handled together first; then insertion, deletion and the undoing of one write.
 */
module MvccPreservation {
  import opened Common
  import opened Mvcc
  import opened MvccHistory

  lemma InitInv(db: Db)
    requires Init(db)
    ensures Inv(db, EMPTY)
  {
  }

  // ----- Steps on the transaction table -------------------------------------------------------

  /** A step that leaves records, before-images and history rows alone. */
  ghost predicate TableStep(db: Db, h: History, d: Db, h': History) {
    && d.heap == db.heap && d.undo == db.undo && d.rows == db.rows && h'.rows == h.rows
    && (forall v :: v in db.states ==> v in d.states)
    && (forall v :: IsAborted(db.states, v) ==> IsAborted(d.states, v))
    && (forall v :: IsCommitted(db.states, v) ==> IsCommitted(d.states, v))
    && (forall u :: u in db.txns && u in d.txns ==>
        d.txns[u].writes == db.txns[u].writes && d.txns[u].rolling == db.txns[u].rolling)
    && (forall u :: u in d.txns && u !in db.txns ==> u !in db.states && d.txns[u].writes == [])
    && (forall u :: u in db.txns && u !in d.txns ==>
          (IsCommitted(d.states, u) && !db.txns[u].rolling) || (IsAborted(d.states, u) && db.txns[u].writes == []))
    && (forall v :: IsAborted(d.states, v) ==> IsAborted(db.states, v) || (v in db.txns && v !in d.txns))
  }

  lemma TableStepRecs(db: Db, h: History, d: Db, h': History)
    requires TableStep(db, h, d, h')
    requires RecsOk(db, h) && AllWritesOk(db, h)
    ensures RecsOk(d, h')
  {
    forall i | 0 <= i < |d.heap| ensures RecOk(d, h'.rows[i], d.heap[i]) {
      var r, row := d.heap[i], h'.rows[i];
      assert RecOk(db, row, r);
      var a := Inserter(row);
      if a in db.txns { assert WritesOk(db, h, a); }
      if r.v.h.del && r.v.h.trx in db.txns { assert WritesOk(db, h, r.v.h.trx); }
    }
  }

  lemma TableStepBases(db: Db, h: History, d: Db, h': History)
    requires TableStep(db, h, d, h')
    requires |h.rows| == |db.heap| && BasesOk(db, h)
    ensures BasesOk(d, h')
  {
    forall n | 0 <= n < |h'.rows| ensures BaseOk(d, h', n) { assert BaseOk(db, h, n); }
  }

  lemma TableStepWrites(db: Db, h: History, d: Db, h': History)
    requires TableStep(db, h, d, h')
    requires RecsOk(db, h) && AllWritesOk(db, h)
    ensures AllWritesOk(d, h')
  {
    forall t | t in d.txns ensures WritesOk(d, h', t) {
      if t in db.txns {
        assert WritesOk(db, h, t);
        forall p | 0 <= p < |d.txns[t].writes| ensures EntryOk(d, h', t, d.txns[t].writes[p]) {
          assert EntryOk(db, h, t, db.txns[t].writes[p]);
        }
      } else {
        forall i | 0 <= i < |d.heap|
          ensures Inserter(h.rows[i]) != t && (d.heap[i].v.h.del ==> d.heap[i].v.h.trx != t)
        {
          assert RecOk(db, h.rows[i], db.heap[i]);
        }
      }
    }
  }

  /** A view is an old one, or sees every committed transaction. */
  ghost predicate SnapsGrow(db: Db, h: History, d: Db, h': History) {
    forall u :: HasView(d, u) ==> (HasView(db, u) && Seen(h', u) == Seen(h, u)) || CommittedSet(db) <= Seen(h', u)
  }

  /** What a deleter saw stays seen. */
  lemma TableStepDeleters(db: Db, h: History, d: Db, h': History)
    requires TableStep(db, h, d, h')
    requires |h.rows| == |db.heap| && DeletersOk(db, h)
    requires SnapsGrow(db, h, d, h')
    ensures DeletersOk(d, h')
  {
    forall i, x | 0 <= i < |d.heap| && x in h'.rows[i].deleters
      ensures DeleterOk(d, h', h'.rows[i], d.heap[i], x)
    {
      assert DeleterOk(db, h, h.rows[i], db.heap[i], x);
    }
  }

  lemma TableStepRest(db: Db, h: History, d: Db, h': History)
    requires TableStep(db, h, d, h') && UndoOk(db, h) && CountsOk(db)
    ensures UndoOk(d, h') && CountsOk(d)
  {
    forall k | 0 <= k < |d.undo| ensures IsOriginal(h', d.undo[k]) { assert IsOriginal(h, db.undo[k]); }
  }

  lemma TableStepKeeps(db: Db, h: History, d: Db, h': History)
    requires Inv(db, h) && TableStep(db, h, d, h') && TableOk(d) && ViewsOk(d, h')
    requires SnapsGrow(db, h, d, h')
    ensures Inv(d, h')
  {
    TableStepRecs(db, h, d, h'); TableStepBases(db, h, d, h'); TableStepWrites(db, h, d, h');
    TableStepDeleters(db, h, d, h'); TableStepRest(db, h, d, h');
  }

  lemma BeginTable(db: Db, h: History)
    requires TableOk(db)
    ensures TableStep(db, h, Begin(db), h) && TableOk(Begin(db)) && SnapsGrow(db, h, Begin(db), h)
  {
    assert db.next !in db.states;
  }

  lemma BeginViews(db: Db, h: History)
    requires TableOk(db) && ViewsOk(db, h)
    ensures ViewsOk(Begin(db), h)
  {
    assert db.next !in db.states;
    forall t | HasView(Begin(db), t) ensures ViewOk(Begin(db), t, db.txns[t].view.value, h.snaps[t]) {
      assert ViewOk(db, t, db.txns[t].view.value, h.snaps[t]);
    }
  }

  lemma BeginKeeps(db: Db, h: History)
    requires Inv(db, h)
    ensures Inv(Begin(db), h)
  {
    BeginTable(db, h); BeginViews(db, h);
    TableStepKeeps(db, h, Begin(db), h);
  }

  lemma ViewTable(db: Db, h: History, t: TxId)
    requires TableOk(db) && |h.rows| == |db.heap| && Enabled(db, EView(t))
    ensures var d, h' := CreateReadView(db, t), Record(h, db, EView(t));
      TableStep(db, h, d, h') && TableOk(d) && SnapsGrow(db, h, d, h')
  {
  }

  lemma ViewViews(db: Db, h: History, t: TxId)
    requires TableOk(db) && ViewsOk(db, h) && |h.rows| == |db.heap| && Enabled(db, EView(t))
    ensures ViewsOk(CreateReadView(db, t), Record(h, db, EView(t)))
  {
    var d, h' := CreateReadView(db, t), Record(h, db, EView(t));
    forall u | HasView(d, u) ensures ViewOk(d, u, d.txns[u].view.value, h'.snaps[u]) {
      if u != t { assert ViewOk(db, u, db.txns[u].view.value, h.snaps[u]); }
    }
  }

  lemma ViewKeeps(db: Db, h: History, t: TxId)
    requires Inv(db, h) && Enabled(db, EView(t))
    ensures Inv(CreateReadView(db, t), Record(h, db, EView(t)))
  {
    ViewTable(db, h, t); ViewViews(db, h, t);
    TableStepKeeps(db, h, CreateReadView(db, t), Record(h, db, EView(t)));
  }

  lemma FinishTable(db: Db, h: History, t: TxId, s: Status)
    requires TableOk(db)
    requires (s.Committed? && Enabled(db, ECommit(t))) || (s.Aborted? && Enabled(db, EAbort(t)))
    ensures TableStep(db, h, Finish(db, t, s), h) && TableOk(Finish(db, t, s)) && SnapsGrow(db, h, Finish(db, t, s), h)
  {
  }

  /** A transaction in progress is outside every snapshot, so its end changes none. */
  lemma FinishViews(db: Db, h: History, t: TxId, s: Status)
    requires TableOk(db) && ViewsOk(db, h) && t in db.txns && !s.InProgress?
    ensures ViewsOk(Finish(db, t, s), h)
  {
    var d := Finish(db, t, s);
    forall u | HasView(d, u) ensures u in h.snaps && ViewOk(d, u, d.txns[u].view.value, h.snaps[u]) {
      FinishView(db, t, s, u, db.txns[u].view.value, h.snaps[u]);
    }
  }

  lemma FinishView(db: Db, t: TxId, s: Status, u: TxId, view: ReadView, snap: set<TxId>)
    requires TableOk(db) && ViewOk(db, u, view, snap) && t in db.txns && t != u && !s.InProgress?
    ensures ViewOk(Finish(db, t, s), u, view, snap)
  {
  }

  lemma FinishKeeps(db: Db, h: History, t: TxId, s: Status)
    requires Inv(db, h)
    requires (s.Committed? && Enabled(db, ECommit(t))) || (s.Aborted? && Enabled(db, EAbort(t)))
    ensures Inv(Finish(db, t, s), h)
  {
    FinishTable(db, h, t, s); FinishViews(db, h, t, s);
    TableStepKeeps(db, h, Finish(db, t, s), h);
  }

  // ----- Visibility ---------------------------------------------------------------------------

  /** The watermark test answers the recorded snapshot. */
  lemma VisibleIffSeen(db: Db, h: History, u: TxId, v: TxId)
    requires TableOk(db) && ViewsOk(db, h) && HasView(db, u)
    ensures IsVisible(db.txns[u].view.value, db.states, v)
            <==> v == INVALID_TX_ID || v in Seen(h, u) || (v !in db.states && v < db.txns[u].view.value.upLimit)
  {
    assert ViewOk(db, u, db.txns[u].view.value, h.snaps[u]);
  }

  /** A row an executor may touch is its original, written by someone it sees. */
  lemma HitFacts(db: Db, h: History, t: TxId, i: nat)
    requires Inv(db, h) && Ready(db, t) && i < |db.heap| && Hit(db, t, i)
    ensures db.heap[i].v == h.rows[i].orig && db.heap[i].table == h.rows[i].table
    ensures Inserter(h.rows[i]) in Seen(h, t)
    ensures Inserter(h.rows[i]) == t || IsCommitted(db.states, Inserter(h.rows[i]))
    ensures Follows(db, h, t, Inserter(h.rows[i]))
    ensures !Conflicts(db, t, i)
  {
    var a := Inserter(h.rows[i]);
    assert RecOk(db, h.rows[i], db.heap[i]);
    VisibleIffSeen(db, h, t, db.heap[i].v.h.trx);
    assert ViewOk(db, t, db.txns[t].view.value, h.snaps[t]);
    forall u | HasView(db, u) && t in Seen(h, u) ensures a in Seen(h, u) {
      assert ViewOk(db, u, db.txns[u].view.value, h.snaps[u]);
    }
  }

  // ----- Frames -------------------------------------------------------------------------------

  /** Steps that leave transaction outcomes and views alone keep the views right. */
  lemma ViewsFrame(db: Db, h: History, d: Db, h': History)
    requires ViewsOk(db, h) && d.states == db.states && d.next == db.next && h'.snaps == h.snaps
    requires forall u :: HasView(d, u) ==> HasView(db, u) && d.txns[u].view == db.txns[u].view
    ensures ViewsOk(d, h')
  {
    forall u | HasView(d, u) ensures u in h'.snaps && ViewOk(d, u, d.txns[u].view.value, h'.snaps[u]) {
      assert ViewOk(db, u, db.txns[u].view.value, h.snaps[u]);
    }
  }

  /** Rows are added and get deleters; their originals stay. */
  ghost predicate RowsGrow(h: History, h': History) {
    |h.rows| <= |h'.rows| && forall j :: 0 <= j < |h.rows| ==> h'.rows[j].orig == h.rows[j].orig
  }

  lemma OriginalStays(h: History, h': History, v: Version)
    requires RowsGrow(h, h') && IsOriginal(h, v)
    ensures IsOriginal(h', v)
  {
    var j :| 0 <= j < |h.rows| && h.rows[j].orig == v;
    assert h'.rows[j].orig == v;
  }

  // ----- Appending a record -------------------------------------------------------------------

  lemma CountAppend(heap: seq<Rec>, r: Rec, table: TableId)
    ensures CountLive(heap + [r], table) == CountLive(heap, table) + (if r.table == table && Live(r.v.h) then 1 else 0)
  {
    assert (heap + [r])[..|heap|] == heap;
  }

  lemma {:induction false} CountUpdate(heap: seq<Rec>, i: nat, r: Rec, table: TableId)
    requires i < |heap| && r.table == heap[i].table
    ensures r.table == table ==>
      CountLive(heap[i := r], table) + (if Live(heap[i].v.h) then 1 else 0)
      == CountLive(heap, table) + (if Live(r.v.h) then 1 else 0)
    ensures r.table != table ==> CountLive(heap[i := r], table) == CountLive(heap, table)
  {
    var n := |heap| - 1;
    if i == n {
      assert heap[i := r][..n] == heap[..n];
    } else {
      CountUpdate(heap[..n], i, r, table);
      assert heap[i := r][..n] == heap[..n][i := r];
    }
  }

  /** How `t`'s write set relates to records after one more entry. */
  lemma PushEntry(ws: seq<WriteRecord>, w: WriteRecord)
    ensures forall i :: HasIns(ws, i) ==> HasIns(ws + [w], i)
    ensures forall i :: HasDel(ws, i) ==> HasDel(ws + [w], i)
    ensures IsInsertKind(w.kind) ==> HasIns(ws + [w], w.rid)
    ensures !IsInsertKind(w.kind) ==> HasDel(ws + [w], w.rid)
  {
    var ws' := ws + [w];
    assert ws'[|ws|] == w;
    forall i | HasIns(ws, i) ensures HasIns(ws', i) {
      var p :| 0 <= p < |ws| && IsIns(ws[p], i);
      assert IsIns(ws'[p], i);
    }
    forall i | HasDel(ws, i) ensures HasDel(ws', i) {
      var p :| 0 <= p < |ws| && IsDel(ws[p], i);
      assert IsDel(ws'[p], i);
    }
  }

  /** Same views, same snapshots, no committed id lost: visibility dependencies carry over. */
  lemma FollowsFrame(db: Db, h: History, d: Db, h': History, x: TxId, a: TxId)
    requires Follows(db, h, x, a) && d.states == db.states && h'.snaps == h.snaps
    requires forall u :: HasView(d, u) ==> HasView(db, u)
    ensures Follows(d, h', x, a)
  {
    forall u | HasView(d, u) && x in Seen(h', u) ensures x == a || a in Seen(h', u) {
      assert HasView(db, u) && x in Seen(h, u);
    }
  }

  /** The base an appended record may claim. */
  ghost predicate BaseReady(db: Db, h: History, t: TxId, table: TableId, roll: RollPtr, base: Option<nat>)
    requires |h.rows| == |db.heap|
  {
    match base
    case None => roll == Null
    case Some(j) =>
      && j < |h.rows| && table == h.rows[j].table && t in h.rows[j].deleters
      && roll.At? && roll.index < |db.undo| && db.undo[roll.index] == h.rows[j].orig
      && db.heap[j].v.h.del && db.heap[j].v.h.trx == t
  }

  lemma AppendRecs(db: Db, h: History, t: TxId, kind: WriteKind, table: TableId, roll: RollPtr, p: Payload,
      base: Option<nat>)
    requires TableOk(db) && RecsOk(db, h) && Ready(db, t)
    ensures RecsOk(Append(db, t, kind, table, roll, p), AddRow(h, t, table, roll, p, base))
  {
    var d, h' := Append(db, t, kind, table, roll, p), AddRow(h, t, table, roll, p, base);
    forall i | 0 <= i < |d.heap| ensures RecOk(d, h'.rows[i], d.heap[i]) {
      if i < |db.heap| { assert RecOk(db, h.rows[i], db.heap[i]); }
    }
  }

  lemma AppendDeleters(db: Db, h: History, t: TxId, kind: WriteKind, table: TableId, roll: RollPtr, p: Payload,
      base: Option<nat>)
    requires RecsOk(db, h) && DeletersOk(db, h) && Ready(db, t)
    ensures |db.heap| == |h.rows| && DeletersOk(Append(db, t, kind, table, roll, p), AddRow(h, t, table, roll, p, base))
  {
    var d, h' := Append(db, t, kind, table, roll, p), AddRow(h, t, table, roll, p, base);
    forall i, x | 0 <= i < |d.heap| && x in h'.rows[i].deleters
      ensures DeleterOk(d, h', h'.rows[i], d.heap[i], x)
    {
      assert i < |db.heap| && DeleterOk(db, h, h.rows[i], db.heap[i], x);
      FollowsFrame(db, h, d, h', x, Inserter(h.rows[i]));
    }
  }

  lemma AppendBases(db: Db, h: History, t: TxId, kind: WriteKind, table: TableId, roll: RollPtr, p: Payload,
      base: Option<nat>)
    requires |h.rows| == |db.heap| && BasesOk(db, h) && Ready(db, t) && BaseReady(db, h, t, table, roll, base)
    ensures BasesOk(Append(db, t, kind, table, roll, p), AddRow(h, t, table, roll, p, base))
  {
    var d, h' := Append(db, t, kind, table, roll, p), AddRow(h, t, table, roll, p, base);
    forall n | 0 <= n < |h'.rows| ensures BaseOk(d, h', n) {
      if n < |h.rows| { assert BaseOk(db, h, n); }
    }
  }

  /** Entries stay true when the records they name and their rows stay. */
  lemma EntryFrame(db: Db, h: History, d: Db, h': History, u: TxId, w: WriteRecord)
    requires |h.rows| == |db.heap| && |h'.rows| == |d.heap| && EntryOk(db, h, u, w)
    requires |db.heap| <= |d.heap| && d.heap[w.rid] == db.heap[w.rid]
    requires h'.rows[w.rid].orig == h.rows[w.rid].orig && h'.rows[w.rid].base == h.rows[w.rid].base
    ensures EntryOk(d, h', u, w)
  {
  }

  lemma AppendOthers(db: Db, h: History, t: TxId, kind: WriteKind, table: TableId, roll: RollPtr, p: Payload,
      base: Option<nat>, u: TxId)
    requires RecsOk(db, h) && Ready(db, t) && u in db.txns && u != t && WritesOk(db, h, u)
    ensures WritesOk(Append(db, t, kind, table, roll, p), AddRow(h, t, table, roll, p, base), u)
  {
    var d, h' := Append(db, t, kind, table, roll, p), AddRow(h, t, table, roll, p, base);
    var ws := db.txns[u].writes;
    forall q | 0 <= q < |ws| ensures EntryOk(d, h', u, ws[q]) { EntryFrame(db, h, d, h', u, ws[q]); }
  }

  /** The new record's entry comes last, and names a record no earlier entry names. */
  lemma AppendOrder(h: History, ws: seq<WriteRecord>, w: WriteRecord, h': History)
    requires OrderOk(h, ws) && IsInsertKind(w.kind) && w.rid == |h.rows| < |h'.rows| && h'.rows[..|h.rows|] == h.rows
    requires forall q :: 0 <= q < |ws| ==> ws[q].rid < |h.rows|
    ensures OrderOk(h', ws + [w])
  {
    assert forall j :: 0 <= j < |h.rows| ==> h'.rows[j] == h'.rows[..|h.rows|][j];
  }

  lemma EntriesInRange(db: Db, h: History, t: TxId)
    requires |h.rows| == |db.heap| && t in db.txns && WritesOk(db, h, t)
    ensures forall q :: 0 <= q < |db.txns[t].writes| ==> db.txns[t].writes[q].rid < |h.rows|
  {
    forall q | 0 <= q < |db.txns[t].writes| ensures db.txns[t].writes[q].rid < |h.rows| {
      assert EntryOk(db, h, t, db.txns[t].writes[q]);
    }
  }

  lemma AppendOwn(db: Db, h: History, t: TxId, kind: WriteKind, table: TableId, roll: RollPtr, p: Payload,
      base: Option<nat>)
    requires RecsOk(db, h) && Ready(db, t) && WritesOk(db, h, t)
    requires IsInsertKind(kind) && (kind.UpdateInsertNew? <==> base.Some?)
    ensures WritesOk(Append(db, t, kind, table, roll, p), AddRow(h, t, table, roll, p, base), t)
  {
    var d, h' := Append(db, t, kind, table, roll, p), AddRow(h, t, table, roll, p, base);
    var ws, ws' := db.txns[t].writes, d.txns[t].writes;
    var n := |ws|;
    PushEntry(ws, ws'[n]);
    EntriesInRange(db, h, t);
    AppendOrder(h, ws, ws'[n], h');
    forall q | 0 <= q < |ws'| ensures EntryOk(d, h', t, ws'[q]) {
      if q < n { EntryFrame(db, h, d, h', t, ws[q]); }
    }
  }

  lemma AppendWrites(db: Db, h: History, t: TxId, kind: WriteKind, table: TableId, roll: RollPtr, p: Payload,
      base: Option<nat>)
    requires RecsOk(db, h) && AllWritesOk(db, h) && Ready(db, t)
    requires IsInsertKind(kind) && (kind.UpdateInsertNew? <==> base.Some?)
    ensures AllWritesOk(Append(db, t, kind, table, roll, p), AddRow(h, t, table, roll, p, base))
  {
    forall u | u in db.txns
      ensures WritesOk(Append(db, t, kind, table, roll, p), AddRow(h, t, table, roll, p, base), u)
    {
      if u == t { AppendOwn(db, h, t, kind, table, roll, p, base); }
      else { AppendOthers(db, h, t, kind, table, roll, p, base, u); }
    }
  }

  lemma AppendUndo(db: Db, h: History, t: TxId, kind: WriteKind, table: TableId, roll: RollPtr, p: Payload,
      base: Option<nat>)
    requires UndoOk(db, h) && Ready(db, t)
    ensures UndoOk(Append(db, t, kind, table, roll, p), AddRow(h, t, table, roll, p, base))
  {
    var h' := AddRow(h, t, table, roll, p, base);
    forall k | 0 <= k < |db.undo| ensures IsOriginal(h', db.undo[k]) { OriginalStays(h, h', db.undo[k]); }
  }

  lemma AppendCounts(db: Db, t: TxId, kind: WriteKind, table: TableId, roll: RollPtr, p: Payload)
    requires CountsOk(db) && Ready(db, t)
    ensures CountsOk(Append(db, t, kind, table, roll, p))
  {
    var d := Append(db, t, kind, table, roll, p);
    forall tb | tb in d.rows ensures d.rows[tb] == CountLive(d.heap, tb) {
      CountAppend(db.heap, d.heap[|db.heap|], tb);
    }
  }

  lemma AppendTable(db: Db, h: History, t: TxId, kind: WriteKind, table: TableId, roll: RollPtr, p: Payload,
      base: Option<nat>)
    requires TableOk(db) && ViewsOk(db, h) && Ready(db, t)
    ensures var d, h' := Append(db, t, kind, table, roll, p), AddRow(h, t, table, roll, p, base);
      TableOk(d) && ViewsOk(d, h')
  {
    ViewsFrame(db, h, Append(db, t, kind, table, roll, p), AddRow(h, t, table, roll, p, base));
  }

  lemma AppendKeeps(db: Db, h: History, t: TxId, kind: WriteKind, table: TableId, roll: RollPtr, p: Payload,
      base: Option<nat>)
    requires Inv(db, h) && Ready(db, t) && BaseReady(db, h, t, table, roll, base)
    requires IsInsertKind(kind) && (kind.UpdateInsertNew? <==> base.Some?)
    ensures Inv(Append(db, t, kind, table, roll, p), AddRow(h, t, table, roll, p, base))
  {
    AppendRecs(db, h, t, kind, table, roll, p, base); AppendDeleters(db, h, t, kind, table, roll, p, base);
    AppendBases(db, h, t, kind, table, roll, p, base); AppendWrites(db, h, t, kind, table, roll, p, base);
    AppendTable(db, h, t, kind, table, roll, p, base); AppendUndo(db, h, t, kind, table, roll, p, base);
    AppendCounts(db, t, kind, table, roll, p);
  }

  // ----- Deleting a record --------------------------------------------------------------------

  /** What a hit guarantees about record `i`. */
  ghost predicate Touchable(db: Db, h: History, t: TxId, i: nat) {
    && Ready(db, t) && t in db.states && db.states[t].InProgress?
    && i < |db.heap| == |h.rows|
    && db.heap[i].v == h.rows[i].orig
    && Follows(db, h, t, Inserter(h.rows[i]))
  }

  lemma DeleteRecs(db: Db, h: History, t: TxId, kind: WriteKind, i: nat)
    requires TableOk(db) && RecsOk(db, h) && Touchable(db, h, t, i)
    ensures RecsOk(MarkDelete(db, t, kind, i), AddDeleter(h, t, i))
  {
    var d, h' := MarkDelete(db, t, kind, i), AddDeleter(h, t, i);
    forall j | 0 <= j < |d.heap| ensures RecOk(d, h'.rows[j], d.heap[j]) {
      assert RecOk(db, h.rows[j], db.heap[j]);
    }
  }

  lemma DeleteDeleters(db: Db, h: History, t: TxId, kind: WriteKind, i: nat)
    requires RecsOk(db, h) && DeletersOk(db, h) && Touchable(db, h, t, i)
    ensures DeletersOk(MarkDelete(db, t, kind, i), AddDeleter(h, t, i))
  {
    var d, h' := MarkDelete(db, t, kind, i), AddDeleter(h, t, i);
    assert RecOk(db, h.rows[i], db.heap[i]);
    forall j, x | 0 <= j < |d.heap| && x in h'.rows[j].deleters
      ensures DeleterOk(d, h', h'.rows[j], d.heap[j], x)
    {
      if x in h.rows[j].deleters {
        assert DeleterOk(db, h, h.rows[j], db.heap[j], x);
      }
      FollowsFrame(db, h, d, h', x, Inserter(h.rows[j]));
    }
  }

  lemma DeleteBases(db: Db, h: History, t: TxId, kind: WriteKind, i: nat)
    requires RecsOk(db, h) && BasesOk(db, h) && Touchable(db, h, t, i)
    ensures BasesOk(MarkDelete(db, t, kind, i), AddDeleter(h, t, i))
  {
    var d, h' := MarkDelete(db, t, kind, i), AddDeleter(h, t, i);
    assert RecOk(db, h.rows[i], db.heap[i]);
    forall n | 0 <= n < |h'.rows| ensures BaseOk(d, h', n) { assert BaseOk(db, h, n); }
  }

  lemma DeleteOthers(db: Db, h: History, t: TxId, kind: WriteKind, i: nat, u: TxId)
    requires RecsOk(db, h) && Touchable(db, h, t, i) && u in db.txns && u != t && WritesOk(db, h, u)
    ensures WritesOk(MarkDelete(db, t, kind, i), AddDeleter(h, t, i), u)
  {
    var d, h' := MarkDelete(db, t, kind, i), AddDeleter(h, t, i);
    var ws := db.txns[u].writes;
    assert RecOk(db, h.rows[i], db.heap[i]);
    forall q | 0 <= q < |ws| ensures EntryOk(d, h', u, ws[q]) { assert EntryOk(db, h, u, ws[q]); }
  }

  lemma DeleteEntry(db: Db, h: History, t: TxId, kind: WriteKind, i: nat, x: WriteRecord)
    requires Touchable(db, h, t, i) && EntryOk(db, h, t, x) && RecOk(db, h.rows[i], db.heap[i])
    ensures EntryOk(MarkDelete(db, t, kind, i), AddDeleter(h, t, i), t, x)
    ensures x.rid == i ==> IsInsertKind(x.kind)
  {
  }

  /** A deletion comes after everything the transaction did to the record and before its replacement. */
  lemma DeleteOrderAt(db: Db, h: History, t: TxId, i: nat, x: WriteRecord)
    requires Touchable(db, h, t, i) && BasesOk(db, h) && RecOk(db, h.rows[i], db.heap[i]) && EntryOk(db, h, t, x)
    ensures x.rid < |h.rows| && (x.rid == i ==> IsInsertKind(x.kind))
    ensures IsInsertKind(x.kind) ==> h.rows[x.rid].base != Some(i)
  {
    assert BaseOk(db, h, x.rid);
  }

  lemma DeleteOrder(h: History, ws: seq<WriteRecord>, w: WriteRecord, h': History)
    requires OrderOk(h, ws) && !IsInsertKind(w.kind) && |h'.rows| == |h.rows|
    requires forall j :: 0 <= j < |h.rows| ==> h'.rows[j].base == h.rows[j].base
    requires forall q :: 0 <= q < |ws| ==>
      && ws[q].rid < |h.rows| && (ws[q].rid == w.rid ==> IsInsertKind(ws[q].kind))
      && (IsInsertKind(ws[q].kind) ==> h.rows[ws[q].rid].base != Some(w.rid))
    ensures OrderOk(h', ws + [w])
  {
  }

  lemma DeleteOwn(db: Db, h: History, t: TxId, kind: WriteKind, i: nat)
    requires RecsOk(db, h) && BasesOk(db, h) && Touchable(db, h, t, i) && WritesOk(db, h, t) && !IsInsertKind(kind)
    ensures WritesOk(MarkDelete(db, t, kind, i), AddDeleter(h, t, i), t)
  {
    var d, h' := MarkDelete(db, t, kind, i), AddDeleter(h, t, i);
    var ws, ws' := db.txns[t].writes, d.txns[t].writes;
    assert RecOk(db, h.rows[i], db.heap[i]);
    PushEntry(ws, ws'[|ws|]);
    forall q | 0 <= q < |ws'| ensures EntryOk(d, h', t, ws'[q]) {
      if q < |ws| { DeleteEntry(db, h, t, kind, i, ws[q]); }
    }
    forall q | 0 <= q < |ws|
      ensures ws[q].rid < |h.rows| && (ws[q].rid == i ==> IsInsertKind(ws[q].kind))
      ensures IsInsertKind(ws[q].kind) ==> h.rows[ws[q].rid].base != Some(i)
    {
      assert EntryOk(db, h, t, ws[q]);
      DeleteOrderAt(db, h, t, i, ws[q]);
    }
    DeleteOrder(h, ws, ws'[|ws|], h');
  }

  lemma DeleteWrites(db: Db, h: History, t: TxId, kind: WriteKind, i: nat)
    requires RecsOk(db, h) && BasesOk(db, h) && AllWritesOk(db, h) && Touchable(db, h, t, i) && !IsInsertKind(kind)
    ensures AllWritesOk(MarkDelete(db, t, kind, i), AddDeleter(h, t, i))
  {
    forall u | u in db.txns ensures WritesOk(MarkDelete(db, t, kind, i), AddDeleter(h, t, i), u) {
      if u == t { DeleteOwn(db, h, t, kind, i); } else { DeleteOthers(db, h, t, kind, i, u); }
    }
  }

  lemma DeleteCounts(db: Db, h: History, t: TxId, kind: WriteKind, i: nat)
    requires RecsOk(db, h) && CountsOk(db) && Touchable(db, h, t, i)
    ensures CountsOk(MarkDelete(db, t, kind, i))
  {
    var d := MarkDelete(db, t, kind, i);
    assert RecOk(db, h.rows[i], db.heap[i]);
    forall tb | tb in d.rows ensures d.rows[tb] == CountLive(d.heap, tb) {
      CountUpdate(db.heap, i, d.heap[i], tb);
    }
  }

  lemma DeleteUndo(db: Db, h: History, t: TxId, kind: WriteKind, i: nat)
    requires RecsOk(db, h) && BasesOk(db, h) && UndoOk(db, h) && Touchable(db, h, t, i)
    ensures UndoOk(MarkDelete(db, t, kind, i), AddDeleter(h, t, i))
  {
    var d, h' := MarkDelete(db, t, kind, i), AddDeleter(h, t, i);
    assert BaseOk(db, h, i);
    forall k | 0 <= k < |d.undo| ensures IsOriginal(h', d.undo[k]) && Below(d.undo[k].h.roll, k) {
      if k < |db.undo| {
        assert Below(db.undo[k].h.roll, k);
        OriginalStays(h, h', db.undo[k]);
      } else {
        assert h'.rows[i].orig == d.undo[k];
      }
    }
  }

  lemma DeleteTable(db: Db, h: History, t: TxId, kind: WriteKind, i: nat)
    requires TableOk(db) && ViewsOk(db, h) && Touchable(db, h, t, i)
    ensures TableOk(MarkDelete(db, t, kind, i)) && ViewsOk(MarkDelete(db, t, kind, i), AddDeleter(h, t, i))
  {
    ViewsFrame(db, h, MarkDelete(db, t, kind, i), AddDeleter(h, t, i));
  }

  lemma MarkDeleteKeeps(db: Db, h: History, t: TxId, kind: WriteKind, i: nat)
    requires Inv(db, h) && Ready(db, t) && i < |db.heap| && Hit(db, t, i) && !IsInsertKind(kind)
    ensures Inv(MarkDelete(db, t, kind, i), AddDeleter(h, t, i))
  {
    HitFacts(db, h, t, i);
    DeleteRecs(db, h, t, kind, i); DeleteDeleters(db, h, t, kind, i); DeleteBases(db, h, t, kind, i);
    DeleteWrites(db, h, t, kind, i); DeleteCounts(db, h, t, kind, i);
    DeleteUndo(db, h, t, kind, i); DeleteTable(db, h, t, kind, i);
  }

  /** A new version that is lost: the invariant does not speak of `stuck`. */
  lemma StuckTable(db: Db, h: History, t: TxId, d: Db)
    requires TableOk(db) && ViewsOk(db, h) && t in db.txns
    requires d == LoseNew(db, t)
    ensures TableOk(d) && ViewsOk(d, h)
  {
    ViewsFrame(db, h, d, h);
  }

  lemma StuckDeleters(db: Db, h: History, t: TxId, d: Db)
    requires |h.rows| == |db.heap| && DeletersOk(db, h) && t in db.txns
    requires d == LoseNew(db, t)
    ensures DeletersOk(d, h)
  {
    forall i, x | 0 <= i < |d.heap| && x in h.rows[i].deleters ensures DeleterOk(d, h, h.rows[i], d.heap[i], x) {
      assert DeleterOk(db, h, h.rows[i], db.heap[i], x);
      FollowsFrame(db, h, d, h, x, Inserter(h.rows[i]));
    }
  }

  lemma StuckRecords(db: Db, h: History, t: TxId, d: Db)
    requires RecsOk(db, h) && BasesOk(db, h) && AllWritesOk(db, h) && t in db.txns
    requires d == LoseNew(db, t)
    ensures RecsOk(d, h) && BasesOk(d, h) && AllWritesOk(d, h)
  {
    forall i | 0 <= i < |d.heap| ensures RecOk(d, h.rows[i], d.heap[i]) { assert RecOk(db, h.rows[i], db.heap[i]); }
    forall n | 0 <= n < |h.rows| ensures BaseOk(d, h, n) { assert BaseOk(db, h, n); }
    forall u | u in d.txns ensures WritesOk(d, h, u) {
      assert WritesOk(db, h, u);
      forall q | 0 <= q < |d.txns[u].writes| ensures EntryOk(d, h, u, d.txns[u].writes[q]) {
        assert EntryOk(db, h, u, db.txns[u].writes[q]);
      }
    }
  }

  lemma StuckKeeps(db: Db, h: History, t: TxId, d: Db)
    requires Inv(db, h) && t in db.txns
    requires d == LoseNew(db, t)
    ensures Inv(d, h)
  {
    StuckTable(db, h, t, d);
    StuckDeleters(db, h, t, d);
    StuckRecords(db, h, t, d);
  }

  lemma UpdateKeeps(db: Db, h: History, t: TxId, i: nat, p: Payload)
    requires Inv(db, h) && Ready(db, t) && i < |db.heap| && Hit(db, t, i)
    ensures Inv(Append(MarkDelete(db, t, UpdateDeleteOld, i), t, UpdateInsertNew, db.heap[i].table, At(|db.undo|), p),
                AddRow(AddDeleter(h, t, i), t, db.heap[i].table, At(|db.undo|), p, Some(i)))
  {
    MarkDeleteKeeps(db, h, t, UpdateDeleteOld, i);
    DeletedIsBase(db, h, t, i);
    AppendKeeps(MarkDelete(db, t, UpdateDeleteOld, i), AddDeleter(h, t, i), t, UpdateInsertNew, db.heap[i].table,
        At(|db.undo|), p, Some(i));
  }

  lemma LostKeeps(db: Db, h: History, t: TxId, i: nat, p: Payload)
    requires Inv(db, h) && Ready(db, t) && i < |db.heap| && Hit(db, t, i) && !Fits(p)
    ensures Inv(PutNew(MarkDelete(db, t, UpdateDeleteOld, i), t, db.heap[i].table, At(|db.undo|), p),
                AddDeleter(h, t, i))
  {
    var d := MarkDelete(db, t, UpdateDeleteOld, i);
    MarkDeleteKeeps(db, h, t, UpdateDeleteOld, i);
    StuckKeeps(d, AddDeleter(h, t, i), t, PutNew(d, t, db.heap[i].table, At(|db.undo|), p));
  }

  lemma DeletedIsBase(db: Db, h: History, t: TxId, i: nat)
    requires Inv(db, h) && Ready(db, t) && i < |db.heap| && Hit(db, t, i)
    ensures var d, h' := MarkDelete(db, t, UpdateDeleteOld, i), AddDeleter(h, t, i);
      Ready(d, t) && BaseReady(d, h', t, db.heap[i].table, At(|db.undo|), Some(i))
  {
    HitFacts(db, h, t, i);
  }

  // ----- Undoing one write --------------------------------------------------------------------

  /** The last entry of `t`'s write set, about to be undone. */
  ghost predicate Undoing(db: Db, h: History, t: TxId, w: WriteRecord) {
    && t in db.txns && t in db.states && db.states[t].InProgress?
    && |db.heap| == |h.rows|
    && db.txns[t].writes != [] && w == db.txns[t].writes[|db.txns[t].writes| - 1]
    && EntryOk(db, h, t, w)
  }

  /** An insertion is undone only after its deletion: the deletion's entry would come later. */
  lemma UndoneInsertIsLive(db: Db, h: History, t: TxId, w: WriteRecord)
    requires RecsOk(db, h) && DeletersOk(db, h) && AllWritesOk(db, h) && Undoing(db, h, t, w) && IsInsertKind(w.kind)
    ensures Live(db.heap[w.rid].v.h)
  {
    var r, row := db.heap[w.rid], h.rows[w.rid];
    assert WritesOk(db, h, t) && RecOk(db, row, r);
    assert r.v.h.del ==> DeleterOk(db, h, row, r, r.v.h.trx);
  }

  lemma UndoRecs(db: Db, h: History, t: TxId, w: WriteRecord)
    requires RecsOk(db, h) && DeletersOk(db, h) && AllWritesOk(db, h) && Undoing(db, h, t, w)
    ensures RecsOk(RollbackLast(db, t), h)
  {
    var d := RollbackLast(db, t);
    if IsInsertKind(w.kind) { UndoneInsertIsLive(db, h, t, w); }
    forall j | 0 <= j < |d.heap| ensures RecOk(d, h.rows[j], d.heap[j]) {
      assert RecOk(db, h.rows[j], db.heap[j]);
    }
  }

  lemma UndoDeleters(db: Db, h: History, t: TxId, w: WriteRecord)
    requires RecsOk(db, h) && DeletersOk(db, h) && AllWritesOk(db, h) && Undoing(db, h, t, w)
    ensures DeletersOk(RollbackLast(db, t), h)
  {
    var d := RollbackLast(db, t);
    if IsInsertKind(w.kind) { UndoneInsertIsLive(db, h, t, w); }
    forall j, x | 0 <= j < |d.heap| && x in h.rows[j].deleters
      ensures DeleterOk(d, h, h.rows[j], d.heap[j], x)
    {
      assert DeleterOk(db, h, h.rows[j], db.heap[j], x);
      FollowsFrame(db, h, d, h, x, Inserter(h.rows[j]));
    }
  }

  /** A base is restored only after its replacement died. */
  lemma UndoBases(db: Db, h: History, t: TxId, w: WriteRecord)
    requires RecsOk(db, h) && DeletersOk(db, h) && BasesOk(db, h) && AllWritesOk(db, h) && Undoing(db, h, t, w)
    ensures BasesOk(RollbackLast(db, t), h)
  {
    var d := RollbackLast(db, t);
    var ws := db.txns[t].writes;
    assert WritesOk(db, h, t);
    if IsInsertKind(w.kind) { UndoneInsertIsLive(db, h, t, w); }
    forall n | 0 <= n < |h.rows| ensures BaseOk(d, h, n) {
      assert BaseOk(db, h, n);
      assert Inserter(h.rows[n]) == t && !db.heap[n].v.h.dead ==> HasIns(ws, n);
    }
  }

  lemma UndoOthers(db: Db, h: History, t: TxId, w: WriteRecord, u: TxId)
    requires RecsOk(db, h) && Undoing(db, h, t, w) && u in db.txns && u != t && WritesOk(db, h, u)
    requires IsInsertKind(w.kind) ==> Live(db.heap[w.rid].v.h)
    ensures WritesOk(RollbackLast(db, t), h, u)
  {
    var d := RollbackLast(db, t);
    var ws := db.txns[u].writes;
    assert RecOk(db, h.rows[w.rid], db.heap[w.rid]);
    forall q | 0 <= q < |ws| ensures EntryOk(d, h, u, ws[q]) { assert EntryOk(db, h, u, ws[q]); }
  }

  lemma PopIns(ws: seq<WriteRecord>, i: nat)
    requires ws != [] && HasIns(ws, i) && !IsIns(ws[|ws| - 1], i)
    ensures HasIns(ws[..|ws| - 1], i)
  {
    var p :| 0 <= p < |ws| && IsIns(ws[p], i);
    assert IsIns(ws[..|ws| - 1][p], i);
  }

  lemma PopDel(ws: seq<WriteRecord>, i: nat)
    requires ws != [] && HasDel(ws, i) && !IsDel(ws[|ws| - 1], i)
    ensures HasDel(ws[..|ws| - 1], i)
  {
    var p :| 0 <= p < |ws| && IsDel(ws[p], i);
    assert IsDel(ws[..|ws| - 1][p], i);
  }

  lemma PopOrder(h: History, ws: seq<WriteRecord>)
    requires ws != [] && OrderOk(h, ws)
    ensures OrderOk(h, ws[..|ws| - 1])
  {
  }

  /** The undone entry was the only one of its sort for its record. */
  lemma UndoneOnce(h: History, ws: seq<WriteRecord>, q: nat)
    requires ws != [] && OrderOk(h, ws) && q < |ws| - 1 && ws[q].rid == ws[|ws| - 1].rid
    ensures IsInsertKind(ws[q].kind) && !IsInsertKind(ws[|ws| - 1].kind)
  {
  }

  lemma UndoEntry(db: Db, h: History, t: TxId, w: WriteRecord, x: WriteRecord)
    requires Undoing(db, h, t, w) && EntryOk(db, h, t, x) && RecOk(db, h.rows[w.rid], db.heap[w.rid])
    requires x.rid == w.rid ==> IsInsertKind(x.kind) && !IsInsertKind(w.kind)
    ensures EntryOk(RollbackLast(db, t), h, t, x)
  {
  }

  /** Records `t` still owns after the undoing were its own before, and are not the undone one. */
  lemma UndoRecord(db: Db, h: History, t: TxId, w: WriteRecord, i: nat)
    requires Undoing(db, h, t, w) && i < |db.heap| && RecOk(db, h.rows[w.rid], db.heap[w.rid])
    requires IsInsertKind(w.kind) ==> Live(db.heap[w.rid].v.h)
    ensures var r := RollbackLast(db, t).heap[i].v.h;
      && (!r.dead ==> !db.heap[i].v.h.dead && !IsIns(w, i))
      && (r.del && r.trx == t ==> db.heap[i].v.h.del && db.heap[i].v.h.trx == t && !IsDel(w, i))
  {
  }

  lemma UndoOwnEntries(db: Db, h: History, t: TxId, w: WriteRecord, q: nat)
    requires Undoing(db, h, t, w) && WritesOk(db, h, t) && RecOk(db, h.rows[w.rid], db.heap[w.rid])
    requires q < |RollbackLast(db, t).txns[t].writes|
    ensures EntryOk(RollbackLast(db, t), h, t, RollbackLast(db, t).txns[t].writes[q])
  {
    var ws := db.txns[t].writes;
    assert EntryOk(db, h, t, ws[q]);
    if ws[q].rid == w.rid { UndoneOnce(h, ws, q); }
    UndoEntry(db, h, t, w, ws[q]);
  }

  /** What `t` still owns after the undoing is still in its write set. */
  lemma UndoOwnAt(db: Db, h: History, t: TxId, w: WriteRecord, i: nat)
    requires Undoing(db, h, t, w) && WritesOk(db, h, t) && RecOk(db, h.rows[w.rid], db.heap[w.rid]) && i < |db.heap|
    requires IsInsertKind(w.kind) ==> Live(db.heap[w.rid].v.h)
    ensures var d := RollbackLast(db, t);
      && i < |d.heap|
      && (Inserter(h.rows[i]) == t && !d.heap[i].v.h.dead ==> HasIns(d.txns[t].writes, i))
      && (d.heap[i].v.h.del && d.heap[i].v.h.trx == t ==> HasDel(d.txns[t].writes, i))
  {
    var d, ws := RollbackLast(db, t), db.txns[t].writes;
    UndoRecord(db, h, t, w, i);
    if Inserter(h.rows[i]) == t && !d.heap[i].v.h.dead { PopIns(ws, i); }
    if d.heap[i].v.h.del && d.heap[i].v.h.trx == t { PopDel(ws, i); }
  }

  lemma UndoOwn(db: Db, h: History, t: TxId, w: WriteRecord)
    requires Undoing(db, h, t, w) && WritesOk(db, h, t) && RecOk(db, h.rows[w.rid], db.heap[w.rid])
    requires IsInsertKind(w.kind) ==> Live(db.heap[w.rid].v.h)
    ensures WritesOk(RollbackLast(db, t), h, t)
  {
    var d := RollbackLast(db, t);
    var ws' := d.txns[t].writes;
    PopOrder(h, db.txns[t].writes);
    forall q | 0 <= q < |ws'| ensures EntryOk(d, h, t, ws'[q]) { UndoOwnEntries(db, h, t, w, q); }
    forall i | 0 <= i < |d.heap|
      ensures Inserter(h.rows[i]) == t && !d.heap[i].v.h.dead ==> HasIns(ws', i)
      ensures d.heap[i].v.h.del && d.heap[i].v.h.trx == t ==> HasDel(ws', i)
    {
      UndoOwnAt(db, h, t, w, i);
    }
  }

  lemma UndoWrites(db: Db, h: History, t: TxId, w: WriteRecord)
    requires RecsOk(db, h) && DeletersOk(db, h) && AllWritesOk(db, h) && Undoing(db, h, t, w)
    ensures AllWritesOk(RollbackLast(db, t), h)
  {
    if IsInsertKind(w.kind) { UndoneInsertIsLive(db, h, t, w); }
    forall u | u in db.txns ensures WritesOk(RollbackLast(db, t), h, u) {
      if u == t {
        assert RecOk(db, h.rows[w.rid], db.heap[w.rid]);
        UndoOwn(db, h, t, w);
      } else {
        UndoOthers(db, h, t, w, u);
      }
    }
  }

  lemma UndoCounts(db: Db, h: History, t: TxId, w: WriteRecord)
    requires RecsOk(db, h) && CountsOk(db) && Undoing(db, h, t, w)
    requires IsInsertKind(w.kind) ==> Live(db.heap[w.rid].v.h)
    ensures CountsOk(RollbackLast(db, t))
  {
    var d := RollbackLast(db, t);
    assert RecOk(db, h.rows[w.rid], db.heap[w.rid]);
    forall tb | tb in d.rows ensures d.rows[tb] == CountLive(d.heap, tb) {
      CountUpdate(db.heap, w.rid, d.heap[w.rid], tb);
    }
  }

  lemma UndoTable(db: Db, h: History, t: TxId, w: WriteRecord)
    requires TableOk(db) && ViewsOk(db, h) && Undoing(db, h, t, w)
    ensures TableOk(RollbackLast(db, t)) && ViewsOk(RollbackLast(db, t), h)
  {
    ViewsFrame(db, h, RollbackLast(db, t), h);
  }

  lemma UndoStarts(db: Db, h: History, t: TxId, w: WriteRecord)
    requires Inv(db, h) && Enabled(db, ERollback(t)) && w == db.txns[t].writes[|db.txns[t].writes| - 1]
    ensures Undoing(db, h, t, w) && (IsInsertKind(w.kind) ==> Live(db.heap[w.rid].v.h))
  {
    assert WritesOk(db, h, t);
    if IsInsertKind(w.kind) { UndoneInsertIsLive(db, h, t, w); }
  }

  lemma RollbackKeeps(db: Db, h: History, t: TxId)
    requires Inv(db, h) && Enabled(db, ERollback(t))
    ensures Inv(RollbackLast(db, t), h)
  {
    var w := db.txns[t].writes[|db.txns[t].writes| - 1];
    UndoStarts(db, h, t, w);
    UndoRecs(db, h, t, w); UndoDeleters(db, h, t, w); UndoBases(db, h, t, w);
    UndoWrites(db, h, t, w); UndoCounts(db, h, t, w); UndoTable(db, h, t, w); UndoUndo(db, h, t, w);
  }

  lemma UndoUndo(db: Db, h: History, t: TxId, w: WriteRecord)
    requires UndoOk(db, h) && Undoing(db, h, t, w)
    ensures UndoOk(RollbackLast(db, t), h)
  {
  }

  // ----- All steps ----------------------------------------------------------------------------

  lemma DeleteKeeps(db: Db, h: History, t: TxId, i: nat)
    requires Inv(db, h) && Enabled(db, EDelete(t, i))
    ensures Inv(Apply(db, EDelete(t, i)), Record(h, db, EDelete(t, i)))
  {
    if Writes(db, t, i) { MarkDeleteKeeps(db, h, t, Delete, i); }
  }

  lemma UpdateStepKeeps(db: Db, h: History, t: TxId, i: nat, p: Payload)
    requires Inv(db, h) && Enabled(db, EUpdate(t, i, p))
    ensures Inv(Apply(db, EUpdate(t, i, p)), Record(h, db, EUpdate(t, i, p)))
  {
    if Writes(db, t, i) {
      if Fits(p) { UpdateKeeps(db, h, t, i, p); } else { LostKeeps(db, h, t, i, p); }
    }
  }

  lemma StepKeeps(db: Db, h: History, e: Event)
    requires Inv(db, h) && Enabled(db, e)
    ensures Inv(Apply(db, e), Record(h, db, e))
  {
    match e
    case EBegin => BeginKeeps(db, h);
    case EView(t) => ViewKeeps(db, h, t);
    case EInsert(t, table, p) => if Fits(p) { AppendKeeps(db, h, t, Insert, table, Null, p, None); }
    case EDelete(t, i) => DeleteKeeps(db, h, t, i);
    case EUpdate(t, i, p) => UpdateStepKeeps(db, h, t, i, p);
    case ECommit(t) => FinishKeeps(db, h, t, Committed);
    case ERollback(t) => RollbackKeeps(db, h, t);
    case EAbort(t) => FinishKeeps(db, h, t, Aborted);
  }

  lemma {:induction false} RunKeeps(db: Db, h: History, es: seq<Event>, db': Db, h': History)
    requires Inv(db, h) && Reaches(db, h, es, db', h')
    ensures Inv(db', h')
    decreases |es|
  {
    if es != [] {
      StepKeeps(db, h, es[0]);
      RunKeeps(Apply(db, es[0]), Record(h, db, es[0]), es[1..], db', h');
    }
  }

  /** Every state of every interleaving satisfies the invariant. */
  lemma ReachableInv(db: Db, h: History)
    requires Reachable(db, h)
    ensures Inv(db, h)
  {
    var db0, es :| Init(db0) && Reaches(db0, EMPTY, es, db, h);
    InitInv(db0);
    RunKeeps(db0, EMPTY, es, db, h);
  }

  lemma {:induction false} ReachesSnoc(db: Db, h: History, es: seq<Event>, d: Db, h1: History, e: Event)
    requires Reaches(db, h, es, d, h1) && |h1.rows| == |d.heap| && Enabled(d, e)
    ensures Reaches(db, h, es + [e], Apply(d, e), Record(h1, d, e))
    decreases |es|
  {
    if es == [] {
      assert ([] + [e])[1..] == [];
    } else {
      ReachesSnoc(Apply(db, es[0]), Record(h, db, es[0]), es[1..], d, h1, e);
      assert (es + [e])[1..] == es[1..] + [e];
    }
  }

  lemma ReachableStep(db: Db, h: History, e: Event)
    requires Reachable(db, h) && Enabled(db, e)
    ensures |h.rows| == |db.heap| && Reachable(Apply(db, e), Record(h, db, e))
  {
    ReachableInv(db, h);
    var db0, es :| Init(db0) && Reaches(db0, EMPTY, es, db, h);
    ReachesSnoc(db0, EMPTY, es, db, h, e);
  }
}
