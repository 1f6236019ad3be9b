/** Version chains and scans against the history: what a transaction reads, in every reachable state. */
module MvccSnapshots {
  import opened Common
  import opened Mvcc
  import opened MvccHistory
  import opened MvccPreservation
  import opened MvccTheorems

  lemma InvReadable(db: Db, h: History)
    requires Inv(db, h)
    ensures Readable(db)
  {
    forall i | 0 <= i < |db.heap| ensures Below(db.heap[i].v.h.roll, |db.undo|) {
      assert RecOk(db, h.rows[i], db.heap[i]) && BaseOk(db, h, i);
    }
  }

  ghost predicate Sees(db: Db, u: TxId, v: Version)
    requires HasView(db, u)
  {
    IsVisible(db.txns[u].view.value, db.states, v.h.trx)
  }

  /** The versions the walk can meet, newest first. */
  ghost function Chain(undo: seq<Version>, v: Version): (c: seq<Version>)
    requires Acyclic(undo) && Below(v.h.roll, |undo|)
    ensures |c| > 0 && c[0] == v
    decreases if v.h.roll.At? then v.h.roll.index + 1 else 0
  {
    if v.h.roll.Null? then [v]
    else
      var k := v.h.roll.index;
      assert Below(undo[k].h.roll, k);
      [v] + Chain(undo, undo[k])
  }

  /** A version of this database: in the heap, or some record's original. */
  ghost predicate IsVersion(db: Db, h: History, v: Version) {
    IsOriginal(h, v) || exists i :: 0 <= i < |db.heap| && db.heap[i].v == v
  }

  /** In the heap or in the undo store, a version's writer is known, and it saw what it overwrote. */
  lemma LinkClosed(db: Db, h: History, u: TxId, v: Version)
    requires Inv(db, h) && HasView(db, u) && IsVersion(db, h, v)
    ensures v.h.trx in db.states && v.h.trx != INVALID_TX_ID
    ensures Below(v.h.roll, |db.undo|)
    ensures v.h.roll.At? ==> IsOriginal(h, db.undo[v.h.roll.index])
    ensures v.h.roll.At? && v.h.trx in Seen(h, u) ==> db.undo[v.h.roll.index].h.trx in Seen(h, u)
  {
    if IsOriginal(h, v) {
      var n :| 0 <= n < |h.rows| && h.rows[n].orig == v;
      OriginalLink(db, h, u, n);
    } else {
      var i :| 0 <= i < |db.heap| && db.heap[i].v == v;
      assert RecOk(db, h.rows[i], db.heap[i]);
      if v.h.del {
        assert DeleterOk(db, h, h.rows[i], db.heap[i], v.h.trx);
      } else {
        OriginalLink(db, h, u, i);
      }
    }
  }

  lemma OriginalLink(db: Db, h: History, u: TxId, n: nat)
    requires Inv(db, h) && HasView(db, u) && n < |h.rows|
    ensures var o := h.rows[n].orig;
      && o.h.trx in db.states && o.h.trx != INVALID_TX_ID && Below(o.h.roll, |db.undo|)
      && (o.h.roll.At? ==> IsOriginal(h, db.undo[o.h.roll.index]))
      && (o.h.roll.At? && o.h.trx in Seen(h, u) ==> db.undo[o.h.roll.index].h.trx in Seen(h, u))
  {
    assert RecOk(db, h.rows[n], db.heap[n]) && BaseOk(db, h, n);
    if h.rows[n].base.Some? {
      var j := h.rows[n].base.value;
      assert DeleterOk(db, h, h.rows[j], db.heap[j], Inserter(h.rows[n]));
    }
  }

  lemma LinkSees(db: Db, h: History, u: TxId, v: Version)
    requires Inv(db, h) && HasView(db, u) && IsVersion(db, h, v)
    ensures Acyclic(db.undo) && Below(v.h.roll, |db.undo|)
    ensures v.h.roll.At? ==> IsVersion(db, h, db.undo[v.h.roll.index])
    ensures v.h.roll.At? && Sees(db, u, v) ==> Sees(db, u, db.undo[v.h.roll.index])
  {
    LinkClosed(db, h, u, v);
    VisibleIffSeen(db, h, u, v.h.trx);
    if v.h.roll.At? {
      var w := db.undo[v.h.roll.index];
      LinkClosed(db, h, u, w);
      VisibleIffSeen(db, h, u, w.h.trx);
    }
  }

  /** Versions before position `x` are unseen, from there on all are seen. */
  ghost predicate SeenFrom(db: Db, u: TxId, c: seq<Version>, x: nat)
    requires HasView(db, u)
  {
    x <= |c| && (forall y :: 0 <= y < x ==> !Sees(db, u, c[y])) && (forall y :: x <= y < |c| ==> Sees(db, u, c[y]))
  }

  lemma SeenFromCons(db: Db, u: TxId, v: Version, c: seq<Version>, x: nat)
    requires HasView(db, u) && |c| > 0 && SeenFrom(db, u, c, x) && (Sees(db, u, v) ==> Sees(db, u, c[0]))
    ensures SeenFrom(db, u, [v] + c, if Sees(db, u, v) then 0 else x + 1)
  {
    var e := [v] + c;
    assert forall y :: 1 <= y < |e| ==> e[y] == c[y - 1];
  }

  /** One turn of the walk. */
  lemma WalkTurn(db: Db, u: TxId, v: Version, w: Version)
    requires HasView(db, u) && Acyclic(db.undo) && Below(v.h.roll, |db.undo|) && v.h.roll.At?
    requires w == db.undo[v.h.roll.index]
    ensures Below(w.h.roll, |db.undo|) && Chain(db.undo, v) == [v] + Chain(db.undo, w)
    ensures var view := db.txns[u].view.value;
      Walk(view, db.states, db.undo, v) ==
        if Sees(db, u, v) then (if v.h.del then None else Some(v)) else Walk(view, db.states, db.undo, w)
  {
    assert Below(w.h.roll, v.h.roll.index);
  }

  /**
   Visibility is closed along version chains: once a version's writer is visible to a view, so is
   the writer of every older version. The walk therefore stops at the newest visible version.
   */
  lemma {:induction false} WalkFindsNewestVisible(db: Db, h: History, u: TxId, v: Version) returns (x: nat)
    requires Inv(db, h) && HasView(db, u) && IsVersion(db, h, v)
    ensures Acyclic(db.undo) && Below(v.h.roll, |db.undo|)
    ensures var c := Chain(db.undo, v);
      && SeenFrom(db, u, c, x)
      && Walk(db.txns[u].view.value, db.states, db.undo, v) == (if x < |c| && !c[x].h.del then Some(c[x]) else None)
    decreases if v.h.roll.At? then v.h.roll.index + 1 else 0
  {
    LinkSees(db, h, u, v);
    if v.h.roll.Null? {
      x := if Sees(db, u, v) then 0 else 1;
    } else {
      var w := db.undo[v.h.roll.index];
      assert Below(w.h.roll, v.h.roll.index);
      x := WalkFindsNewestVisible(db, h, u, w);
      WalkTurn(db, u, v, w);
      SeenFromCons(db, u, v, Chain(db.undo, w), x);
      x := if Sees(db, u, v) then 0 else x + 1;
    }
  }

  // ----- What a scan must return --------------------------------------------------------------

  ghost predicate BasesBelow(h: History) {
    forall n :: 0 <= n < |h.rows| ==> (h.rows[n].base.Some? ==> h.rows[n].base.value < n)
  }

  /** The row is in the snapshot: its inserter is seen and no deleter is. */
  predicate InSnapshot(row: Row, seen: set<TxId>) {
    Inserter(row) in seen && row.deleters !! seen
  }

  /**
   What record `i` shows to a reader seeing `seen`: itself if it is in the snapshot; if its inserter
   is unseen but it replaced another record, whatever that record shows.
   */
  ghost function Expected(h: History, seen: set<TxId>, i: nat): Option<Version>
    requires BasesBelow(h) && i < |h.rows|
    decreases i
  {
    var row := h.rows[i];
    if Inserter(row) in seen then (if row.deleters !! seen then Some(row.orig) else None)
    else if row.base.Some? then Expected(h, seen, row.base.value)
    else None
  }

  lemma InvBasesBelow(db: Db, h: History)
    requires |h.rows| == |db.heap| && BasesOk(db, h)
    ensures BasesBelow(h)
  {
    forall n | 0 <= n < |h.rows| ensures h.rows[n].base.Some? ==> h.rows[n].base.value < n { assert BaseOk(db, h, n); }
  }

  /** A transaction that is gone is seen by nobody who runs. */
  lemma GoneUnseen(db: Db, h: History, u: TxId, d: TxId)
    requires TableOk(db) && ViewsOk(db, h) && Ready(db, u) && Gone(db, d)
    ensures d !in Seen(h, u)
  {
    assert ViewOk(db, u, db.txns[u].view.value, h.snaps[u]);
  }

  /** If the record's current deleter is unseen, all its deleters are. */
  lemma DeletersUnseen(db: Db, h: History, u: TxId, i: nat)
    requires Inv(db, h) && Ready(db, u) && i < |db.heap|
    requires db.heap[i].v.h.del ==> db.heap[i].v.h.trx !in Seen(h, u)
    ensures h.rows[i].deleters !! Seen(h, u)
  {
    forall d | d in h.rows[i].deleters ensures d !in Seen(h, u) {
      assert DeleterOk(db, h, h.rows[i], db.heap[i], d);
      if Gone(db, d) { GoneUnseen(db, h, u, d); }
    }
  }

  /** From a live record's original, with its deleters unseen, the walk finds what is expected. */
  lemma {:induction false} WalkOriginal(db: Db, h: History, u: TxId, n: nat)
    requires Inv(db, h) && Ready(db, u) && n < |h.rows| && Readable(db) && BasesBelow(h)
    requires !db.heap[n].v.h.dead && h.rows[n].deleters !! Seen(h, u)
    ensures Below(h.rows[n].orig.h.roll, |db.undo|)
    ensures Walk(db.txns[u].view.value, db.states, db.undo, h.rows[n].orig) == Expected(h, Seen(h, u), n)
    decreases n
  {
    var row := h.rows[n];
    OriginalLink(db, h, u, n);
    VisibleIffSeen(db, h, u, Inserter(row));
    assert RecOk(db, row, db.heap[n]) && BaseOk(db, h, n);
    if row.base.Some? && Inserter(row) !in Seen(h, u) {
      var j := row.base.value;
      assert RecOk(db, h.rows[j], db.heap[j]);
      DeletersUnseen(db, h, u, j);
      WalkOriginal(db, h, u, j);
    }
  }

  ghost function ExpectedAt(db: Db, h: History, seen: set<TxId>, i: nat): seq<Version>
    requires BasesBelow(h) && i < |h.rows| == |db.heap|
  {
    if db.heap[i].v.h.dead then [] else ToSeq(Expected(h, seen, i))
  }

  lemma EmitIsExpected(db: Db, h: History, u: TxId, i: nat)
    requires Inv(db, h) && Ready(db, u) && i < |db.heap| && Readable(db) && BasesBelow(h)
    ensures Emit(db, u, i) == ExpectedAt(db, h, Seen(h, u), i)
  {
    var r, row := db.heap[i], h.rows[i];
    assert RecOk(db, row, r);
    if !r.v.h.dead {
      if r.v.h.del {
        VisibleIffSeen(db, h, u, r.v.h.trx);
        assert DeleterOk(db, h, row, r, r.v.h.trx);
        if r.v.h.trx !in Seen(h, u) {
          DeletersUnseen(db, h, u, i);
          WalkOriginal(db, h, u, i);
        } else {
          assert !(row.deleters !! Seen(h, u));
        }
      } else {
        DeletersUnseen(db, h, u, i);
        WalkOriginal(db, h, u, i);
      }
    }
  }

  // ----- Scans --------------------------------------------------------------------------------

  /** The simple snapshot: every row whose inserter is seen and whose deleters are not, in heap order. */
  function SnapshotTo(h: History, seen: set<TxId>, table: TableId, n: nat): seq<Version>
    requires n <= |h.rows|
  {
    if n == 0 then []
    else SnapshotTo(h, seen, table, n - 1)
         + (if h.rows[n - 1].table == table && InSnapshot(h.rows[n - 1], seen) then [h.rows[n - 1].orig] else [])
  }

  /** Record `i` shows a row twice: an unseen live update replaced a record the reader still sees. */
  ghost predicate Duplicates(db: Db, h: History, seen: set<TxId>, table: TableId, i: nat)
    requires BasesBelow(h) && i < |h.rows| == |db.heap|
  {
    var row := h.rows[i];
    && row.table == table && !db.heap[i].v.h.dead
    && Inserter(row) !in seen && row.base.Some? && Expected(h, seen, row.base.value).Some?
  }

  /** How one record's part of the scan relates to its part of the snapshot. */
  ghost predicate EmitVersusSnapshot(db: Db, h: History, u: TxId, table: TableId, i: nat)
    requires HasView(db, u) && Readable(db) && BasesBelow(h) && i < |h.rows| == |db.heap|
  {
    && db.heap[i].table == h.rows[i].table
    && (Duplicates(db, h, Seen(h, u), table, i) ==> |Emit(db, u, i)| == 1 && !InSnapshot(h.rows[i], Seen(h, u)))
    && (!Duplicates(db, h, Seen(h, u), table, i) && h.rows[i].table == table ==>
          Emit(db, u, i) == (if InSnapshot(h.rows[i], Seen(h, u)) then [h.rows[i].orig] else []))
  }

  lemma SnapshotEmit(db: Db, h: History, u: TxId, table: TableId, i: nat)
    requires Inv(db, h) && Ready(db, u) && i < |db.heap| && Readable(db) && BasesBelow(h)
    ensures EmitVersusSnapshot(db, h, u, table, i)
  {
    EmitIsExpected(db, h, u, i);
    assert RecOk(db, h.rows[i], db.heap[i]);
    if db.heap[i].v.h.dead { GoneUnseen(db, h, u, Inserter(h.rows[i])); }
  }

  lemma {:induction false} ScanVersusSnapshot(db: Db, h: History, u: TxId, table: TableId, n: nat)
    requires HasView(db, u) && Readable(db) && BasesBelow(h) && n <= |h.rows| == |db.heap|
    requires forall i :: 0 <= i < n ==> EmitVersusSnapshot(db, h, u, table, i)
    ensures |ScanTo(db, u, table, n)| >= |SnapshotTo(h, Seen(h, u), table, n)|
    ensures (exists i :: 0 <= i < n && Duplicates(db, h, Seen(h, u), table, i)) ==>
      |ScanTo(db, u, table, n)| > |SnapshotTo(h, Seen(h, u), table, n)|
    ensures (forall i :: 0 <= i < n ==> !Duplicates(db, h, Seen(h, u), table, i)) ==>
      ScanTo(db, u, table, n) == SnapshotTo(h, Seen(h, u), table, n)
  {
    if n > 0 {
      ScanVersusSnapshot(db, h, u, table, n - 1);
      assert EmitVersusSnapshot(db, h, u, table, n - 1);
    }
  }

  /** The record's own version: the record, or the before-image its deletion saved. */
  ghost function OwnVersion(db: Db, i: nat): Version
    requires Readable(db) && i < |db.heap|
  {
    var v := db.heap[i].v;
    if v.h.del && v.h.roll.At? then db.undo[v.h.roll.index] else v
  }

  ghost function OldestVersion(db: Db, i: nat): Version
    requires Readable(db) && i < |db.heap|
  {
    var c := Chain(db.undo, db.heap[i].v);
    c[|c| - 1]
  }

  /** What a reader can check on the heap: not dead, its own writer unseen, its oldest version seen. */
  ghost predicate ReadTwice(db: Db, u: TxId, table: TableId, i: nat)
    requires HasView(db, u) && Readable(db) && i < |db.heap|
  {
    && db.heap[i].table == table && !db.heap[i].v.h.dead
    && !Sees(db, u, OwnVersion(db, i)) && Sees(db, u, OldestVersion(db, i))
  }

  /** Versions in the undo store are never deletions. */
  lemma {:induction false} OlderIsLive(db: Db, h: History, v: Version, y: nat)
    requires Inv(db, h) && Acyclic(db.undo) && Below(v.h.roll, |db.undo|) && 0 < y < |Chain(db.undo, v)|
    ensures !Chain(db.undo, v)[y].h.del
    decreases y
  {
    var w := db.undo[v.h.roll.index];
    assert Below(w.h.roll, v.h.roll.index) && Chain(db.undo, v) == [v] + Chain(db.undo, w);
    if y > 1 {
      OlderIsLive(db, h, w, y - 1);
    } else {
      assert IsOriginal(h, w);
      var j :| 0 <= j < |h.rows| && h.rows[j].orig == w;
      assert RecOk(db, h.rows[j], db.heap[j]);
    }
  }

  /** A record shows something to a reader who does not see its own writer iff its oldest version is seen. */
  lemma UnseenShows(db: Db, h: History, u: TxId, i: nat)
    requires Inv(db, h) && Ready(db, u) && i < |db.heap| && Readable(db) && !db.heap[i].v.h.dead
    requires !Sees(db, u, OwnVersion(db, i))
    ensures Emit(db, u, i) != [] <==> Sees(db, u, OldestVersion(db, i))
  {
    var v := db.heap[i].v;
    assert IsVersion(db, h, v);
    var x := WalkFindsNewestVisible(db, h, u, v);
    var c := Chain(db.undo, v);
    LinkSees(db, h, u, v);
    if x < |c| && x > 0 { OlderIsLive(db, h, v, x); }
    assert RecOk(db, h.rows[i], db.heap[i]);
  }

  lemma OwnVersionIs(db: Db, h: History, u: TxId, i: nat)
    requires Inv(db, h) && HasView(db, u) && i < |db.heap| && Readable(db) && !db.heap[i].v.h.dead
    ensures Sees(db, u, OwnVersion(db, i)) <==> Inserter(h.rows[i]) in Seen(h, u)
  {
    assert RecOk(db, h.rows[i], db.heap[i]) && IsVersion(db, h, h.rows[i].orig);
    LinkClosed(db, h, u, h.rows[i].orig);
    VisibleIffSeen(db, h, u, Inserter(h.rows[i]));
  }

  /** The check finds exactly the records that show a row a second time. */
  lemma ReadTwiceExact(db: Db, h: History, u: TxId, table: TableId, i: nat)
    requires Inv(db, h) && Ready(db, u) && i < |db.heap| && Readable(db) && BasesBelow(h)
    ensures ReadTwice(db, u, table, i) <==> Duplicates(db, h, Seen(h, u), table, i)
  {
    assert RecOk(db, h.rows[i], db.heap[i]);
    if !db.heap[i].v.h.dead {
      OwnVersionIs(db, h, u, i);
      EmitIsExpected(db, h, u, i);
      if !Sees(db, u, OwnVersion(db, i)) { UnseenShows(db, h, u, i); }
    }
  }

  lemma ScanIsSnapshot(db: Db, h: History, u: TxId, table: TableId)
    requires Inv(db, h) && Ready(db, u) && Readable(db) && BasesBelow(h)
    ensures |h.rows| == |db.heap|
    ensures Scan(db, u, table) == SnapshotTo(h, Seen(h, u), table, |h.rows|)
            <==> forall i :: 0 <= i < |h.rows| ==> !Duplicates(db, h, Seen(h, u), table, i)
  {
    forall i | 0 <= i < |db.heap| ensures EmitVersusSnapshot(db, h, u, table, i) { SnapshotEmit(db, h, u, table, i); }
    ScanVersusSnapshot(db, h, u, table, |db.heap|);
  }

  /**
   In every reachable state a scan returns exactly the snapshot, each row once and in heap order, if
   and only if no live record has an unseen writer over a version the reader sees.
   */
  lemma ScanIsSnapshotExactly(db: Db, h: History, u: TxId, table: TableId)
    requires Reachable(db, h) && Ready(db, u)
    ensures Readable(db) && |h.rows| == |db.heap|
    ensures Scan(db, u, table) == SnapshotTo(h, Seen(h, u), table, |h.rows|)
            <==> forall i :: 0 <= i < |db.heap| ==> !ReadTwice(db, u, table, i)
  {
    ReachableInv(db, h);
    InvReadable(db, h);
    InvBasesBelow(db, h);
    ScanIsSnapshot(db, h, u, table);
    forall i | 0 <= i < |db.heap| ensures ReadTwice(db, u, table, i) <==> Duplicates(db, h, Seen(h, u), table, i) {
      ReadTwiceExact(db, h, u, table, i);
    }
  }

  ghost predicate NoUpdates(h: History) {
    forall n :: 0 <= n < |h.rows| ==> h.rows[n].base.None?
  }

  /** For INSERT/DELETE histories a scan is the snapshot. */
  lemma SnapshotRead(db: Db, h: History, u: TxId, table: TableId)
    requires Reachable(db, h) && Ready(db, u) && NoUpdates(h)
    ensures Readable(db) && Scan(db, u, table) == SnapshotTo(h, Seen(h, u), table, |h.rows|)
  {
    ReachableInv(db, h);
    InvReadable(db, h);
    InvBasesBelow(db, h);
    ScanIsSnapshot(db, h, u, table);
  }

  // ----- What others do to a reader -----------------------------------------------------------

  lemma {:induction false} ExpectedStable(h: History, h': History, seen: set<TxId>, i: nat)
    requires BasesBelow(h) && BasesBelow(h') && i < |h.rows| <= |h'.rows|
    requires forall n :: 0 <= n < |h.rows| ==>
      && h'.rows[n].orig == h.rows[n].orig && h'.rows[n].base == h.rows[n].base
      && (h'.rows[n].deleters !! seen <==> h.rows[n].deleters !! seen)
    ensures Expected(h', seen, i) == Expected(h, seen, i)
    decreases i
  {
    assert h'.rows[i].orig == h.rows[i].orig;
    if h.rows[i].base.Some? { ExpectedStable(h, h', seen, h.rows[i].base.value); }
  }

  lemma {:induction false} ScanAgrees(db: Db, d: Db, u: TxId, table: TableId, n: nat)
    requires HasView(db, u) && HasView(d, u) && Readable(db) && Readable(d) && n <= |db.heap| && n <= |d.heap|
    requires forall i :: 0 <= i < n ==> d.heap[i].table == db.heap[i].table && Emit(d, u, i) == Emit(db, u, i)
    ensures ScanTo(d, u, table, n) == ScanTo(db, u, table, n)
  {
    if n > 0 { ScanAgrees(db, d, u, table, n - 1); }
  }

  /** A step of someone else leaves `u` ready and with the same snapshot. */
  lemma OthersStep(db: Db, h: History, e: Event, u: TxId)
    requires TableOk(db) && |h.rows| == |db.heap| && Enabled(db, e) && Ready(db, u) && Actor(e) != Some(u)
    ensures Ready(Apply(db, e), u) && Seen(Record(h, db, e), u) == Seen(h, u)
  {
    OthersReady(db, e, u);
    SnapsStay(db, h, e, u);
  }

  lemma OthersReady(db: Db, e: Event, u: TxId)
    requires TableOk(db) && Enabled(db, e) && Ready(db, u) && Actor(e) != Some(u)
    ensures Ready(Apply(db, e), u)
  {
  }

  lemma SnapsStay(db: Db, h: History, e: Event, u: TxId)
    requires |h.rows| == |db.heap| && Enabled(db, e) && e != EView(u)
    ensures Snap(Record(h, db, e), u) == Snap(h, u)
  {
  }

  lemma ActorUnseen(db: Db, h: History, e: Event, u: TxId)
    requires TableOk(db) && ViewsOk(db, h) && Enabled(db, e) && Ready(db, u) && Actor(e) != Some(u) && Actor(e).Some?
    ensures e.t !in Seen(h, u)
  {
    assert ViewOk(db, u, db.txns[u].view.value, h.snaps[u]);
  }

  lemma RowDeleters(db: Db, h: History, e: Event, n: nat)
    requires |h.rows| == |db.heap| && Enabled(db, e) && n < |h.rows|
    ensures n < |Record(h, db, e).rows|
    ensures Record(h, db, e).rows[n].deleters <= h.rows[n].deleters + (if Actor(e).Some? then {e.t} else {})
  {
  }

  lemma OthersExpected(db: Db, h: History, e: Event, u: TxId, i: nat)
    requires TableOk(db) && ViewsOk(db, h) && |h.rows| == |db.heap|
    requires Enabled(db, e) && Ready(db, u) && Actor(e) != Some(u) && i < |h.rows|
    requires BasesBelow(h) && BasesBelow(Record(h, db, e))
    ensures |h.rows| <= |Record(h, db, e).rows|
    ensures Expected(Record(h, db, e), Seen(h, u), i) == Expected(h, Seen(h, u), i)
  {
    var h' := Record(h, db, e);
    if Actor(e).Some? { ActorUnseen(db, h, e, u); }
    forall n | 0 <= n < |h.rows|
      ensures h'.rows[n].orig == h.rows[n].orig && h'.rows[n].base == h.rows[n].base
      ensures h'.rows[n].deleters !! Seen(h, u) <==> h.rows[n].deleters !! Seen(h, u)
    {
      RowsStay(db, h, e, n);
      RowDeleters(db, h, e, n);
    }
    ExpectedStable(h, h', Seen(h, u), i);
  }

  /** The only steps of others a reader can notice: an UPDATE of a row, and the undoing of one. */
  predicate Stirs(db: Db, e: Event)
    requires Enabled(db, e)
  {
    match e
    case EUpdate(t, i, p) => Writes(db, t, i) && Fits(p)
    case ERollback(t) => db.txns[t].writes[|db.txns[t].writes| - 1].kind.UpdateInsertNew?
    case _ => false
  }

  /** After a step of someone else `u` can still scan, under the same snapshot. */
  lemma AfterStep(db: Db, h: History, e: Event, u: TxId)
    requires Inv(db, h) && Enabled(db, e) && Ready(db, u) && Actor(e) != Some(u)
    ensures var d, h' := Apply(db, e), Record(h, db, e);
      && Ready(d, u) && Readable(db) && Readable(d) && BasesBelow(h) && BasesBelow(h')
      && |h'.rows| == |d.heap| && Seen(h', u) == Seen(h, u)
  {
    OthersStep(db, h, e, u);
    StepKeeps(db, h, e);
    InvReadable(db, h); InvReadable(Apply(db, e), Record(h, db, e));
    InvBasesBelow(db, h); InvBasesBelow(Apply(db, e), Record(h, db, e));
  }

  lemma EmitAfter(db: Db, h: History, e: Event, u: TxId, i: nat)
    requires Inv(db, h) && Enabled(db, e) && Ready(db, u) && Actor(e) != Some(u) && i < |Apply(db, e).heap|
    requires var d, h' := Apply(db, e), Record(h, db, e);
      && Ready(d, u) && Readable(d) && BasesBelow(h') && |h'.rows| == |d.heap|
    ensures Emit(Apply(db, e), u, i) == ExpectedAt(Apply(db, e), Record(h, db, e), Seen(h, u), i)
  {
    OthersStep(db, h, e, u);
    StepKeeps(db, h, e);
    EmitIsExpected(Apply(db, e), Record(h, db, e), u, i);
  }

  lemma OthersEmit(db: Db, h: History, e: Event, u: TxId, i: nat)
    requires Inv(db, h) && Enabled(db, e) && Ready(db, u) && Actor(e) != Some(u) && i < |db.heap|
    requires !e.ERollback? || !Stirs(db, e)
    ensures Ready(Apply(db, e), u) && Readable(db) && Readable(Apply(db, e)) && i < |Apply(db, e).heap|
    ensures Apply(db, e).heap[i].table == db.heap[i].table && Emit(Apply(db, e), u, i) == Emit(db, u, i)
  {
    AfterStep(db, h, e, u);
    OthersExpected(db, h, e, u, i);
    RowsStay(db, h, e, i);
    TableStays(db, e, i);
    DeadStays(db, h, e, u, i);
    EmitIsExpected(db, h, u, i);
    EmitAfter(db, h, e, u, i);
  }

  ghost predicate DeadOrUnseen(db: Db, h: History, e: Event, u: TxId, i: nat)
    requires Enabled(db, e) && i < |db.heap| == |h.rows|
  {
    && i < |Apply(db, e).heap|
    && (Apply(db, e).heap[i].v.h.dead == db.heap[i].v.h.dead
        || (Inserter(h.rows[i]) !in Seen(h, u) && h.rows[i].base.None?))
  }

  /** A record changes from live to dead only for its inserter's rollback, and shows nothing either way. */
  lemma DeadStays(db: Db, h: History, e: Event, u: TxId, i: nat)
    requires Inv(db, h) && Enabled(db, e) && Ready(db, u) && Actor(e) != Some(u) && i < |db.heap|
    requires !e.ERollback? || !Stirs(db, e)
    ensures |h.rows| == |db.heap| && DeadOrUnseen(db, h, e, u, i)
  {
    if Target(db, e) != Some(i) {
      HeapFrame(db, e, i);
    } else if e.ERollback? {
      UndoneDead(db, h, e, u, i);
    } else {
      MarkedStaysLive(db, e, i);
    }
  }

  lemma UndoneStays(db: Db, h: History, e: Event, u: TxId, i: nat, w: WriteRecord)
    requires Enabled(db, e) && e.ERollback? && w == db.txns[e.t].writes[|db.txns[e.t].writes| - 1]
    requires i == w.rid < |db.heap| == |h.rows| && e.t !in Seen(h, u)
    requires IsInsertKind(w.kind) ==> Inserter(h.rows[i]) == e.t && h.rows[i].base.None?
    requires !IsInsertKind(w.kind) ==> w.prev.dead == db.heap[i].v.h.dead
    ensures DeadOrUnseen(db, h, e, u, i)
  {
    TableStays(db, e, i);
    RollbackIs(db, e, w);
  }

  lemma UndoneFacts(db: Db, h: History, t: TxId) returns (w: WriteRecord)
    requires Inv(db, h) && Enabled(db, ERollback(t)) && !Stirs(db, ERollback(t))
    ensures w == db.txns[t].writes[|db.txns[t].writes| - 1] && w.rid < |db.heap| == |h.rows|
    ensures IsInsertKind(w.kind) ==> Inserter(h.rows[w.rid]) == t && h.rows[w.rid].base.None?
    ensures !IsInsertKind(w.kind) ==> w.prev.dead == db.heap[w.rid].v.h.dead
  {
    w := db.txns[t].writes[|db.txns[t].writes| - 1];
    UndoneInserter(db, h, t, w);
    if !IsInsertKind(w.kind) { RestoredLives(db, h, t, w); }
  }

  lemma UndoneDead(db: Db, h: History, e: Event, u: TxId, i: nat)
    requires Inv(db, h) && Enabled(db, e) && Ready(db, u) && Actor(e) != Some(u) && Target(db, e) == Some(i)
    requires e.ERollback? && !Stirs(db, e)
    ensures |h.rows| == |db.heap| && i < |db.heap| && DeadOrUnseen(db, h, e, u, i)
  {
    RollbackTarget(db, e, i);
    ActorUnseen(db, h, e, u);
    var w := UndoneFacts(db, h, e.t);
    UndoneStays(db, h, e, u, i, w);
  }

  lemma RestoredLives(db: Db, h: History, t: TxId, w: WriteRecord)
    requires Inv(db, h) && Enabled(db, ERollback(t)) && w == db.txns[t].writes[|db.txns[t].writes| - 1]
    requires !IsInsertKind(w.kind)
    ensures w.rid < |db.heap| && w.prev.dead == db.heap[w.rid].v.h.dead
  {
    assert WritesOk(db, h, t) && EntryOk(db, h, t, w) && RecOk(db, h.rows[w.rid], db.heap[w.rid]);
  }

  lemma MarkedStaysLive(db: Db, e: Event, i: nat)
    requires Enabled(db, e) && (e.EDelete? || e.EUpdate?) && e.rid == i < |db.heap|
    ensures i < |Apply(db, e).heap| && Apply(db, e).heap[i].table == db.heap[i].table
    ensures Apply(db, e).heap[i].v.h.dead == db.heap[i].v.h.dead
  {
  }

  /** At most one record is appended, by the actor, live, replacing the updated record if any. */
  lemma AppendShape(db: Db, h: History, e: Event)
    requires |h.rows| == |db.heap| && Enabled(db, e)
    ensures var d, h', n := Apply(db, e), Record(h, db, e), |db.heap|;
      && n <= |d.heap| == |h'.rows| <= n + 1
      && (|d.heap| == n + 1 ==>
            && Actor(e).Some? && !d.heap[n].v.h.dead && Inserter(h'.rows[n]) == e.t
            && h'.rows[n].base == (if e.EUpdate? then Some(e.rid) else None)
            && (e.EUpdate? ==> Stirs(db, e) && d.heap[n].table == db.heap[e.rid].table))
      && (e.EUpdate? && Stirs(db, e) ==> |d.heap| == n + 1)
  {
  }

  /** What a record appended by someone else shows to `u`. */
  lemma NewRecordEmit(db: Db, h: History, e: Event, u: TxId)
    requires Inv(db, h) && Enabled(db, e) && Ready(db, u) && Actor(e) != Some(u)
    requires |Apply(db, e).heap| == |db.heap| + 1
    ensures var d := Apply(db, e);
      && Readable(d) && BasesBelow(h) && Ready(d, u)
      && Emit(d, u, |db.heap|) == (if e.EUpdate? then ToSeq(Expected(h, Seen(h, u), e.rid)) else [])
  {
    AfterStep(db, h, e, u);
    AppendShape(db, h, e);
    ActorUnseen(db, h, e, u);
    EmitAfter(db, h, e, u, |db.heap|);
    if e.EUpdate? { OthersExpected(db, h, e, u, e.rid); }
  }

  /** What a step of another transaction adds to `u`'s scan: an updated row, once more. */
  ghost function Added(db: Db, h: History, e: Event, u: TxId, table: TableId): seq<Version>
    requires Enabled(db, e) && BasesBelow(h) && |h.rows| == |db.heap|
  {
    if e.EUpdate? && Stirs(db, e) && db.heap[e.rid].table == table
    then ToSeq(Expected(h, Seen(h, u), e.rid)) else []
  }

  lemma ScanGrows(db: Db, d: Db, u: TxId, table: TableId)
    requires HasView(db, u) && HasView(d, u) && Readable(db) && Readable(d) && |db.heap| <= |d.heap| <= |db.heap| + 1
    requires forall i :: 0 <= i < |db.heap| ==> d.heap[i].table == db.heap[i].table && Emit(d, u, i) == Emit(db, u, i)
    ensures Scan(d, u, table) == Scan(db, u, table) +
      (if |d.heap| > |db.heap| && d.heap[|db.heap|].table == table then Emit(d, u, |db.heap|) else [])
  {
    ScanAgrees(db, d, u, table, |db.heap|);
  }

  lemma OthersScan(db: Db, h: History, e: Event, u: TxId, table: TableId)
    requires Inv(db, h) && Enabled(db, e) && Ready(db, u) && Actor(e) != Some(u) && (!e.ERollback? || !Stirs(db, e))
    ensures var d := Apply(db, e);
      && Readable(db) && Readable(d) && Ready(d, u) && BasesBelow(h) && |h.rows| == |db.heap|
      && Scan(d, u, table) == Scan(db, u, table) + Added(db, h, e, u, table)
  {
    var d := Apply(db, e);
    AfterStep(db, h, e, u);
    AppendShape(db, h, e);
    forall i | 0 <= i < |db.heap| ensures d.heap[i].table == db.heap[i].table && Emit(d, u, i) == Emit(db, u, i) {
      OthersEmit(db, h, e, u, i);
    }
    ScanGrows(db, d, u, table);
    if |d.heap| > |db.heap| { NewRecordEmit(db, h, e, u); }
  }

  /** No step of another transaction changes a scan, unless it updates a row or undoes an update. */
  lemma StepUnobservable(db: Db, h: History, e: Event, u: TxId, table: TableId)
    requires Inv(db, h) && Enabled(db, e) && Ready(db, u) && Actor(e) != Some(u) && !Stirs(db, e)
    ensures Readable(db) && Readable(Apply(db, e)) && Ready(Apply(db, e), u)
    ensures Scan(Apply(db, e), u, table) == Scan(db, u, table)
  {
    OthersScan(db, h, e, u, table);
  }

  /** An update by another transaction adds to a scan exactly what the old record shows, once more. */
  lemma UpdateDuplicates(db: Db, h: History, e: Event, u: TxId, table: TableId)
    requires Reachable(db, h) && e.EUpdate? && Enabled(db, e) && Ready(db, u) && e.t != u && Stirs(db, e)
    ensures Readable(db) && Readable(Apply(db, e)) && Ready(Apply(db, e), u) && BasesBelow(h) && |h.rows| == |db.heap|
    ensures Scan(Apply(db, e), u, table) == Scan(db, u, table)
              + (if db.heap[e.rid].table == table then ToSeq(Expected(h, Seen(h, u), e.rid)) else [])
  {
    ReachableInv(db, h);
    OthersScan(db, h, e, u, table);
  }

  lemma NoUpdatesStep(db: Db, h: History, e: Event)
    requires |h.rows| == |db.heap| && AllWritesOk(db, h) && Enabled(db, e) && NoUpdates(h) && !e.EUpdate?
    ensures NoUpdates(Record(h, db, e)) && !Stirs(db, e)
  {
    if e.ERollback? { UndoneIsNoUpdate(db, h, e.t); }
  }

  lemma UndoneIsNoUpdate(db: Db, h: History, t: TxId)
    requires |h.rows| == |db.heap| && AllWritesOk(db, h) && Enabled(db, ERollback(t)) && NoUpdates(h)
    ensures !db.txns[t].writes[|db.txns[t].writes| - 1].kind.UpdateInsertNew?
  {
    assert WritesOk(db, h, t) && EntryOk(db, h, t, db.txns[t].writes[|db.txns[t].writes| - 1]);
  }

  /**
   Repeatable read: for INSERT/DELETE histories two scans under one view with no own step between
   them return the same tuples, header and bytes, whatever the other transactions do.
   */
  lemma {:induction false} RepeatableRead(db: Db, h: History, es: seq<Event>, db': Db, h': History, u: TxId,
      table: TableId)
    requires Inv(db, h) && Reaches(db, h, es, db', h') && Ready(db, u) && NoUpdates(h)
    requires forall e :: e in es ==> Actor(e) != Some(u) && !e.EUpdate?
    ensures Readable(db) && Readable(db') && Ready(db', u)
    ensures Scan(db', u, table) == Scan(db, u, table)
    decreases |es|
  {
    InvReadable(db, h);
    if es != [] {
      var e := es[0];
      assert e in es;
      NoUpdatesStep(db, h, e);
      StepKeeps(db, h, e);
      StepUnobservable(db, h, e, u, table);
      RepeatableRead(Apply(db, e), Record(h, db, e), es[1..], db', h', u, table);
    }
  }

  lemma AbortIsByActor(db: Db, t: TxId, u: TxId)
    requires t in db.txns && u != t
    ensures forall e :: e in AbortEvents(db, t) ==> Actor(e) != Some(u) && !e.EUpdate?
  {
  }

  /** Abort is unobservable: rows read from undo before are the restored records after. */
  lemma {:induction false} AbortUnobservable(db: Db, h: History, t: TxId, u: TxId, table: TableId)
    requires Reachable(db, h) && t in db.txns && db.txns[t].stuck == 0 && Ready(db, u) && u != t && NoUpdates(h)
    ensures Readable(db) && Readable(AbortAll(db, t)) && Ready(AbortAll(db, t), u)
    ensures Scan(AbortAll(db, t), u, table) == Scan(db, u, table)
  {
    ReachableInv(db, h);
    AbortIsARun(db, h, t);
    AbortIsByActor(db, t, u);
    RepeatableRead(db, h, AbortEvents(db, t), AbortAll(db, t), h, u, table);
  }

  // ----- With updates: the same tuples, only their multiplicity may change ---------------------

  /** Record `i` shows `v`. */
  ghost predicate Shows(db: Db, u: TxId, table: TableId, i: nat, v: Version)
    requires HasView(db, u) && Readable(db)
  {
    i < |db.heap| && db.heap[i].table == table && v in Emit(db, u, i)
  }

  lemma {:induction false} ScanMembers(db: Db, u: TxId, table: TableId, n: nat, v: Version)
    requires HasView(db, u) && Readable(db) && n <= |db.heap|
    ensures v in ScanTo(db, u, table, n) <==> exists i :: 0 <= i < n && Shows(db, u, table, i, v)
  {
    if n > 0 {
      ScanMembers(db, u, table, n - 1, v);
      if v in ScanTo(db, u, table, n) && v !in ScanTo(db, u, table, n - 1) { assert Shows(db, u, table, n - 1, v); }
    }
  }

  /** What a live record of an unseen update shows, the record it replaced shows too. */
  lemma ReplacedShowsToo(db: Db, h: History, u: TxId, table: TableId, n: nat, v: Version)
    requires Inv(db, h) && Ready(db, u) && Readable(db) && Shows(db, u, table, n, v)
    requires Inserter(h.rows[n]) !in Seen(h, u)
    ensures h.rows[n].base.Some? && h.rows[n].base.value < n && Shows(db, u, table, h.rows[n].base.value, v)
  {
    InvBasesBelow(db, h);
    EmitIsExpected(db, h, u, n);
    assert BaseOk(db, h, n) && RecOk(db, h.rows[n], db.heap[n]);
    assert h.rows[n].base.Some?;
    var j := h.rows[n].base.value;
    assert RecOk(db, h.rows[j], db.heap[j]);
    EmitIsExpected(db, h, u, j);
  }

  /** The replacement whose rollback turn `e` is: unseen by every other reader. */
  lemma UndoneReplacement(db: Db, h: History, e: Event, u: TxId)
    requires Inv(db, h) && Enabled(db, e) && e.ERollback? && Stirs(db, e) && Ready(db, u) && e.t != u
    ensures var d, n := Apply(db, e), Target(db, e).value;
      && Readable(db) && Readable(d) && Ready(d, u) && |d.heap| == |db.heap|
      && n < |h.rows| == |db.heap| && Inserter(h.rows[n]) !in Seen(h, u) && d.heap[n].v.h.dead
  {
    AfterStep(db, h, e, u);
    ActorUnseen(db, h, e, u);
    var w := db.txns[e.t].writes[|db.txns[e.t].writes| - 1];
    RollbackIs(db, e, w);
    UndoneInserter(db, h, e.t, w);
  }

  lemma UndoneInserter(db: Db, h: History, t: TxId, w: WriteRecord)
    requires Inv(db, h) && Enabled(db, ERollback(t)) && w == db.txns[t].writes[|db.txns[t].writes| - 1]
    ensures w.rid < |h.rows| == |db.heap|
    ensures IsInsertKind(w.kind) ==> Inserter(h.rows[w.rid]) == t && (w.kind.Insert? ==> h.rows[w.rid].base.None?)
  {
    assert WritesOk(db, h, t) && EntryOk(db, h, t, w);
  }

  lemma UndoneUpdateEmit(db: Db, h: History, e: Event, u: TxId, i: nat)
    requires Inv(db, h) && Enabled(db, e) && e.ERollback? && Stirs(db, e) && Ready(db, u) && e.t != u && i < |db.heap|
    ensures var d, n := Apply(db, e), Target(db, e).value;
      && Readable(db) && Readable(d) && Ready(d, u) && |d.heap| == |db.heap| && d.heap[i].table == db.heap[i].table
      && n < |h.rows| && Inserter(h.rows[n]) !in Seen(h, u)
      && (i != n ==> Emit(d, u, i) == Emit(db, u, i)) && (i == n ==> Emit(d, u, i) == [])
  {
    var n := Target(db, e).value;
    TableStays(db, e, i);
    UndoneReplacement(db, h, e, u);
    if i != n { UntouchedEmit(db, h, e, u, i); }
  }

  /** A record the step does not write shows what it showed. */
  lemma UntouchedEmit(db: Db, h: History, e: Event, u: TxId, i: nat)
    requires Inv(db, h) && Enabled(db, e) && e.ERollback? && Ready(db, u) && e.t != u && i < |db.heap|
    requires Target(db, e) != Some(i)
    ensures var d := Apply(db, e);
      && Readable(db) && Readable(d) && Ready(d, u) && i < |d.heap| && d.heap[i] == db.heap[i]
      && Emit(d, u, i) == Emit(db, u, i)
  {
    HeapFrame(db, e, i);
    AfterStep(db, h, e, u);
    EmitIsExpected(db, h, u, i);
    EmitAfter(db, h, e, u, i);
  }

  /** In every history, updates included, a step of another transaction changes no scan's set of tuples. */
  lemma StepKeepsTuples(db: Db, h: History, e: Event, u: TxId, table: TableId, v: Version)
    requires Inv(db, h) && Enabled(db, e) && Ready(db, u) && Actor(e) != Some(u)
    ensures Readable(db) && Readable(Apply(db, e)) && Ready(Apply(db, e), u)
    ensures v in Scan(Apply(db, e), u, table) <==> v in Scan(db, u, table)
  {
    if !Stirs(db, e) { StepUnobservable(db, h, e, u, table); }
    else if e.EUpdate? { UpdateKeepsTuples(db, h, e, u, table, v); }
    else { UndoKeepsTuples(db, h, e, u, table, v); }
  }

  /** A row an executor hits shows what is expected of it. */
  lemma HitShows(db: Db, h: History, t: TxId, u: TxId, i: nat)
    requires Inv(db, h) && Ready(db, t) && Ready(db, u) && i < |db.heap| && Hit(db, t, i) && Readable(db)
    requires BasesBelow(h)
    ensures Emit(db, u, i) == ToSeq(Expected(h, Seen(h, u), i))
  {
    HitFacts(db, h, t, i);
    assert RecOk(db, h.rows[i], db.heap[i]);
    EmitIsExpected(db, h, u, i);
  }

  lemma UpdateKeepsTuples(db: Db, h: History, e: Event, u: TxId, table: TableId, v: Version)
    requires Inv(db, h) && Enabled(db, e) && Ready(db, u) && Actor(e) != Some(u) && e.EUpdate? && Stirs(db, e)
    ensures Readable(db) && Readable(Apply(db, e)) && Ready(Apply(db, e), u)
    ensures v in Scan(Apply(db, e), u, table) <==> v in Scan(db, u, table)
  {
    OthersScan(db, h, e, u, table);
    HitShows(db, h, e.t, u, e.rid);
    ScanMembers(db, u, table, |db.heap|, v);
    if v in Added(db, h, e, u, table) { assert Shows(db, u, table, e.rid, v); }
  }

  /** Undoing a replacement hides no tuple: the record it replaced shows the same. */
  lemma UndoHidesNothing(db: Db, h: History, e: Event, u: TxId, table: TableId, v: Version, i: nat) returns (j: nat)
    requires Inv(db, h) && Enabled(db, e) && Ready(db, u) && Actor(e) != Some(u) && e.ERollback? && Stirs(db, e)
    requires Readable(db) && Shows(db, u, table, i, v)
    ensures Readable(Apply(db, e)) && Ready(Apply(db, e), u) && Shows(Apply(db, e), u, table, j, v)
  {
    var n := Target(db, e).value;
    UndoneUpdateEmit(db, h, e, u, i);
    j := i;
    if i == n {
      ReplacedShowsToo(db, h, u, table, n, v);
      j := h.rows[n].base.value;
      UndoneUpdateEmit(db, h, e, u, j);
    }
  }

  lemma UndoKeepsTuples(db: Db, h: History, e: Event, u: TxId, table: TableId, v: Version)
    requires Inv(db, h) && Enabled(db, e) && Ready(db, u) && Actor(e) != Some(u) && e.ERollback? && Stirs(db, e)
    ensures Readable(db) && Readable(Apply(db, e)) && Ready(Apply(db, e), u)
    ensures v in Scan(Apply(db, e), u, table) <==> v in Scan(db, u, table)
  {
    UndoneReplacement(db, h, e, u);
    if v in Scan(db, u, table) { UndoHides(db, h, e, u, table, v); }
    if v in Scan(Apply(db, e), u, table) { UndoAdds(db, h, e, u, table, v); }
  }

  lemma UndoHides(db: Db, h: History, e: Event, u: TxId, table: TableId, v: Version)
    requires Inv(db, h) && Enabled(db, e) && Ready(db, u) && Actor(e) != Some(u) && e.ERollback? && Stirs(db, e)
    requires Readable(db) && v in Scan(db, u, table)
    ensures Readable(Apply(db, e)) && Ready(Apply(db, e), u) && v in Scan(Apply(db, e), u, table)
  {
    ScanMembers(db, u, table, |db.heap|, v);
    var i :| 0 <= i < |db.heap| && Shows(db, u, table, i, v);
    var j := UndoHidesNothing(db, h, e, u, table, v, i);
    ScanMembers(Apply(db, e), u, table, |Apply(db, e).heap|, v);
  }

  lemma UndoAdds(db: Db, h: History, e: Event, u: TxId, table: TableId, v: Version)
    requires Inv(db, h) && Enabled(db, e) && Ready(db, u) && Actor(e) != Some(u) && e.ERollback? && Stirs(db, e)
    requires Readable(Apply(db, e)) && Ready(Apply(db, e), u) && v in Scan(Apply(db, e), u, table)
    ensures Readable(db) && v in Scan(db, u, table)
  {
    var d := Apply(db, e);
    ScanMembers(d, u, table, |d.heap|, v);
    var i :| 0 <= i < |d.heap| && Shows(d, u, table, i, v);
    UndoneShowed(db, h, e, u, table, v, i);
    ScanMembers(db, u, table, |db.heap|, v);
  }

  lemma UndoneShowed(db: Db, h: History, e: Event, u: TxId, table: TableId, v: Version, i: nat)
    requires Inv(db, h) && Enabled(db, e) && Ready(db, u) && Actor(e) != Some(u) && e.ERollback? && Stirs(db, e)
    requires Readable(Apply(db, e)) && Ready(Apply(db, e), u) && Shows(Apply(db, e), u, table, i, v)
    ensures Readable(db) && i < |db.heap| && Shows(db, u, table, i, v)
  {
    UndoneReplacement(db, h, e, u);
    UndoneUpdateEmit(db, h, e, u, i);
  }

  /**
   For every history, updates included: two scans under one view with no own step between them
   return the same set of tuples, whatever the other transactions do, aborts included.
   */
  lemma {:induction false} RepeatableTuples(db: Db, h: History, es: seq<Event>, db': Db, h': History, u: TxId,
      table: TableId, v: Version)
    requires Inv(db, h) && Reaches(db, h, es, db', h') && Ready(db, u)
    requires forall e :: e in es ==> Actor(e) != Some(u)
    ensures Readable(db) && Readable(db') && Ready(db', u)
    ensures v in Scan(db', u, table) <==> v in Scan(db, u, table)
    decreases |es|
  {
    InvReadable(db, h);
    if es != [] {
      assert es[0] in es;
      StepKeeps(db, h, es[0]);
      StepKeepsTuples(db, h, es[0], u, table, v);
      RepeatableTuples(Apply(db, es[0]), Record(h, db, es[0]), es[1..], db', h', u, table, v);
    }
  }

  /** Abort keeps every other reader's set of tuples, updates included. */
  lemma AbortKeepsTuples(db: Db, h: History, t: TxId, u: TxId, table: TableId, v: Version)
    requires Reachable(db, h) && t in db.txns && db.txns[t].stuck == 0 && Ready(db, u) && u != t
    ensures Readable(db) && Readable(AbortAll(db, t)) && Ready(AbortAll(db, t), u)
    ensures v in Scan(AbortAll(db, t), u, table) <==> v in Scan(db, u, table)
  {
    ReachableInv(db, h);
    AbortIsARun(db, h, t);
    AbortIsByActor(db, t, u);
    RepeatableTuples(db, h, AbortEvents(db, t), AbortAll(db, t), h, u, table, v);
  }

  // ----- An updated row is read twice ---------------------------------------------------------

  /** One step of the example below. */
  lemma Next(db: Db, h: History, e: Event) returns (d: Db, h': History)
    requires Reachable(db, h) && Enabled(db, e)
    ensures |h.rows| == |db.heap| && d == Apply(db, e) && h' == Record(h, db, e) && Reachable(d, h')
  {
    ReachableStep(db, h, e);
    d, h' := Apply(db, e), Record(h, db, e);
  }

  lemma OneTransaction() returns (db: Db, h: History)
    ensures Reachable(db, h) && Ready(db, 1)
    ensures db.next == 2 && db.txns.Keys == {1} && db.states == map[1 := InProgress]
    ensures db.heap == [] && db.rows == map[0 := 0] && h.rows == []
  {
    var d := Db(1, map[], map[], [], [], map[0 := 0]);
    assert Init(d) && Reaches(d, EMPTY, [], d, EMPTY);
    var g: History;
    d, g := Next(d, EMPTY, EBegin);
    db, h := Next(d, g, EView(1));
  }

  lemma OneCommittedRow(p: Payload) returns (db: Db, h: History)
    requires Fits(p)
    ensures Reachable(db, h)
    ensures db.next == 2 && db.txns == map[] && db.states == map[1 := Committed]
    ensures db.heap == [Rec(0, Version(Header(1, Null, false, false), p))]
    ensures h.rows == [Row(0, db.heap[0].v, None, {})]
  {
    var d, g := OneTransaction();
    d, g := Next(d, g, EInsert(1, 0, p));
    db, h := Next(d, g, ECommit(1));
  }

  /** A transaction that begins and takes its view sees who has committed; another one `t` goes on as it was. */
  lemma JoinFacts(db: Db, h: History, t: TxId)
    requires TableOk(db) && |h.rows| == |db.heap|
    ensures var n, d1 := db.next, Begin(db);
      && CommittedSet(d1) == CommittedSet(db)
      && var d, h' := CreateReadView(d1, n), h.(snaps := h.snaps[n := CommittedSet(d1)]);
         && Ready(d, n) && Seen(h', n) == CommittedSet(db) + {n}
         && (Ready(db, t) && t < n ==> Ready(d, t) && Seen(h', t) == Seen(h, t))
  {
  }

  lemma OneMore(db: Db, h: History, t: TxId) returns (d: Db, h': History)
    requires Reachable(db, h)
    ensures Reachable(d, h') && Ready(d, db.next) && d.next == db.next + 1 && d.heap == db.heap && h'.rows == h.rows
    ensures Seen(h', db.next) == CommittedSet(db) + {db.next} && CommittedSet(d) == CommittedSet(db)
    ensures Ready(db, t) && t < db.next ==> Ready(d, t) && Seen(h', t) == Seen(h, t)
  {
    ReachableInv(db, h);
    JoinFacts(db, h, t);
    var d1, h1 := Next(db, h, EBegin);
    d, h' := Next(d1, h1, EView(db.next));
  }

  /** A committed row, then two concurrent transactions 2 and 3. */
  lemma TwoConcurrent(p: Payload) returns (db: Db, h: History)
    requires Fits(p)
    ensures Reachable(db, h) && Ready(db, 2) && Ready(db, 3)
    ensures db.heap == [Rec(0, Version(Header(1, Null, false, false), p))]
    ensures h.rows == [Row(0, db.heap[0].v, None, {})] && Seen(h, 2) == {1, 2} && Seen(h, 3) == {1, 3}
  {
    var d, g := OneCommittedRow(p);
    assert CommittedSet(d) == {1};
    d, g := OneMore(d, g, 2);
    db, h := OneMore(d, g, 2);
  }

  /**
   "Each row once" fails as soon as another transaction updates a row: transaction 3 reads the row
   that transaction 2 is updating once from the deleted record and once from its replacement.
   */
  lemma UpdatedRowIsReadTwice() returns (db: Db, h: History)
    ensures Reachable(db, h) && Ready(db, 3) && Readable(db)
    ensures |Scan(db, 3, 0)| == 2 && |SnapshotTo(h, Seen(h, 3), 0, |h.rows|)| == 1
  {
    var d, g := TwoConcurrent([7]);
    var e := EUpdate(2, 0, [9]);
    OneHit(d, g, 2);
    SnapshotRead(d, g, 3, 0);
    assert SnapshotTo(g, {1, 3}, 0, 1) == [d.heap[0].v];
    UpdateDuplicates(d, g, e, 3, 0);
    db, h := Next(d, g, e);
    OneUpdated(d, g, e);
  }

  lemma OneHit(d: Db, g: History, t: TxId)
    requires Reachable(d, g) && Ready(d, t) && |d.heap| == 1 && Live(d.heap[0].v.h) && d.heap[0].v.h.trx == 1
    requires 1 in Seen(g, t)
    ensures Hit(d, t, 0) && !Conflicts(d, t, 0)
  {
    ReachableInv(d, g);
    VisibleIffSeen(d, g, t, 1);
    HitFacts(d, g, t, 0);
  }

  lemma OneUpdated(d: Db, g: History, e: Event)
    requires e == EUpdate(2, 0, [9]) && Enabled(d, e) && Writes(d, 2, 0)
    requires |g.rows| == |d.heap| == 1 && g.rows[0] == Row(0, g.rows[0].orig, None, {}) && Inserter(g.rows[0]) == 1
    requires Seen(g, 3) == {1, 3}
    ensures var h := Record(g, d, e); |SnapshotTo(h, Seen(h, 3), 0, |h.rows|)| == 1
  {
    var h := Record(g, d, e);
    assert |h.rows| == 2 && Inserter(h.rows[1]) == 2 && h.rows[0].deleters == {2};
    assert |SnapshotTo(h, Seen(h, 3), 0, 1)| == 1;
  }
}
