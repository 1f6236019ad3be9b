/**
 A table's chain in page bytes: the writes that link a page, append a tuple and edit a record header
 keep every page's bytes in step with the chain, and a scan reads the rows off the bytes.
 */
module ChainBytes {
  import opened Common
  import opened Bytes
  import opened TablePage
  import TC = TableChain

  type Disk = map<nat, seq<byte>>

  ghost predicate PageIs(d: Disk, f: TC.File, id: nat)
    requires id in f.pages
  {
    id in d && Represents(d[id], f.pages[id].h, f.pages[id].tuples)
  }

  /** The bytes of every page are that page. */
  ghost predicate OnDisk(d: Disk, f: TC.File) { forall id :: id in f.pages ==> PageIs(d, f, id) }

  // ----- Growing the chain --------------------------------------------------------------------

  function FreshBytes(id: nat): (b: seq<byte>)
    ensures |b| == PAGE_SIZE
  {
    WriteHeader(seq(PAGE_SIZE, _ => 0), PageHeader(0, 0, id, 0, 0))
  }

  function NextSet(b: seq<byte>, next: nat): seq<byte> {
    if |b| == PAGE_SIZE then WriteHeader(b, HeaderOf(b).(next := next)) else b
  }

  /** The link in the last page's header, and the fresh page. */
  function LinkBytes(d: Disk, f: TC.File): Disk {
    var d1 := if f.last != 0 && f.last in d then d[f.last := NextSet(d[f.last], f.next)] else d;
    d1[f.next := FreshBytes(f.next)]
  }

  lemma NextSetIs(b: seq<byte>, p: TC.PageVal, next: nat)
    requires Represents(b, p.h, p.tuples) && next < Range(8)
    ensures Represents(NextSet(b, next), p.h.(next := next), p.tuples)
  {
    HeaderReads(b, p.h, p.tuples);
    HeaderWritten(b, p.h, p.h.(next := next), p.tuples);
  }

  lemma LinkedOnDisk(d: Disk, f: TC.File)
    requires TC.ChainOk(f) && OnDisk(d, f) && f.next < Range(8)
    ensures OnDisk(LinkBytes(d, f), TC.Linked(f))
  {
    var g := TC.Linked(f);
    TC.Ends(f);
    EmptyPage(seq(PAGE_SIZE, _ => 0), f.next);
    forall id | id in g.pages ensures PageIs(LinkBytes(d, f), g, id) {
      if id != f.next { LinkedPage(d, f, id); }
    }
  }

  lemma LinkedPage(d: Disk, f: TC.File, id: nat)
    requires OnDisk(d, f) && f.next < Range(8) && id != f.next && id in TC.Linked(f).pages
    requires f.last != 0 ==> f.last in f.pages
    ensures PageIs(LinkBytes(d, f), TC.Linked(f), id)
  {
    assert PageIs(d, f, id);
    if id == f.last && id != 0 { NextSetIs(d[id], f.pages[id], f.next); }
  }

  /** Where InsertTuple puts the next tuple: behind the one the last slot names. */
  function NextFree(b: seq<byte>, rows: nat): nat
    requires |b| == PAGE_SIZE && rows <= PAGE_SIZE / 4
  {
    if rows == 0 then HEADER_SIZE else U16(b, SlotOffset(rows)) + U16(b, SlotOffset(rows) + 2)
  }

  lemma NextFreeIs(b: seq<byte>, h: PageHeader, ts: seq<seq<byte>>)
    requires Represents(b, h, ts)
    ensures h.rows <= PAGE_SIZE / 4 && NextFree(b, h.rows) == Start(ts, |ts|)
  {
    if h.rows > 0 { TupleReads(b, h, ts, h.rows); }
  }

  /** InsertTuple on a page's bytes. */
  function TupleBytes(b: seq<byte>, t: seq<byte>): seq<byte> {
    if |b| == PAGE_SIZE && 4 * (HeaderOf(b).rows + 1) <= PAGE_SIZE && NextFree(b, HeaderOf(b).rows) + |t| <= PAGE_SIZE
    then Insert(b, HeaderOf(b), NextFree(b, HeaderOf(b).rows), t) else b
  }

  lemma TupleBytesIs(b: seq<byte>, p: TC.PageVal, t: seq<byte>)
    requires Represents(b, p.h, p.tuples) && TC.HasSpace(p, t)
    ensures Represents(TupleBytes(b, t), TC.Put(p, t).h, TC.Put(p, t).tuples)
  {
    HeaderReads(b, p.h, p.tuples);
    NextFreeIs(b, p.h, p.tuples);
    TupleInserted(b, p.h, p.tuples, t);
  }

  function PlaceBytes(d: Disk, last: nat, t: seq<byte>): Disk {
    if last in d then d[last := TupleBytes(d[last], t)] else d
  }

  lemma PlacedOnDisk(d: Disk, f: TC.File, t: seq<byte>)
    requires OnDisk(d, f) && f.last in f.pages && TC.HasSpace(TC.LastPage(f), t)
    ensures OnDisk(PlaceBytes(d, f.last, t), TC.Placed(f, t))
  {
    var g := TC.Placed(f, t);
    assert PageIs(d, f, f.last);
    TupleBytesIs(d[f.last], f.pages[f.last], t);
    forall id | id in g.pages ensures PageIs(PlaceBytes(d, f.last, t), g, id) {
      if id != f.last { assert PageIs(d, f, id); }
    }
  }

  function OpenBytes(d: Disk, f: TC.File): Disk { if f.last == 0 then LinkBytes(d, f) else d }

  function RoomBytes(d: Disk, f: TC.File, t: seq<byte>): Disk {
    if TC.HasSpace(TC.LastPage(TC.Opened(f)), t) then OpenBytes(d, f) else LinkBytes(OpenBytes(d, f), TC.Opened(f))
  }

  /** One turn of an insert, on the bytes. */
  function InsertBytes(d: Disk, f: TC.File, t: seq<byte>): Disk {
    var r := TC.Roomy(f, t);
    if TC.HasSpace(TC.LastPage(r), t) then PlaceBytes(RoomBytes(d, f, t), r.last, t) else RoomBytes(d, f, t)
  }

  lemma RoomOnDisk(d: Disk, f: TC.File, t: seq<byte>)
    requires TC.ChainOk(f) && OnDisk(d, f) && f.next + 1 < Range(8)
    ensures OnDisk(RoomBytes(d, f, t), TC.Roomy(f, t))
  {
    TC.RoomyOk(f, t);
    LinkedOnDisk(d, f);
    LinkedOnDisk(OpenBytes(d, f), TC.Opened(f));
  }

  lemma InsertedOnDisk(d: Disk, f: TC.File, t: seq<byte>)
    requires TC.ChainOk(f) && OnDisk(d, f) && f.next + 1 < Range(8)
    ensures TC.ChainOk(TC.Inserted(f, t)) && OnDisk(InsertBytes(d, f, t), TC.Inserted(f, t))
    ensures TC.Inserted(f, t).next <= f.next + 2
  {
    var r := TC.Roomy(f, t);
    TC.InsertedOk(f, t);
    TC.RoomyOk(f, t);
    TC.Ends(r);
    RoomOnDisk(d, f, t);
    if TC.HasSpace(TC.LastPage(r), t) { PlacedOnDisk(RoomBytes(d, f, t), r, t); }
  }

  // ----- Editing a record header --------------------------------------------------------------

  predicate HasRid(f: TC.File, rid: TC.Rid) {
    rid.page in f.pages && 1 <= rid.row <= |f.pages[rid.page].tuples|
  }

  function TupleOf(f: TC.File, rid: TC.Rid): seq<byte>
    requires HasRid(f, rid)
  {
    f.pages[rid.page].tuples[rid.row - 1]
  }

  function Edited(f: TC.File, rid: TC.Rid, t: seq<byte>): TC.File
    requires HasRid(f, rid)
  {
    var p := f.pages[rid.page];
    f.(pages := f.pages[rid.page := TC.PageVal(p.h, p.tuples[rid.row - 1 := t])])
  }

  /** A 22-byte record header written through the slot. */
  function RecordWritten(b: seq<byte>, row: nat, r: RecHeader): seq<byte> {
    if SlotHolds(b, row) then Splice(b, U16(b, SlotOffset(row)), RecBytes(r)) else b
  }

  lemma RecordWrittenIs(b: seq<byte>, h: PageHeader, ts: seq<seq<byte>>, row: nat, r: RecHeader)
    requires Represents(b, h, ts) && 1 <= row <= |ts| && |ts[row - 1]| >= REC_HEADER_SIZE
    ensures Represents(RecordWritten(b, row, r), h, ts[row - 1 := WithRec(ts[row - 1], r)])
  {
    SlotsHold(b, h, ts, row);
    TupleEdited(b, h, ts, row - 1, 0, RecBytes(r), Start(ts, row - 1));
  }

  function EditBytes(d: Disk, rid: TC.Rid, r: RecHeader): Disk {
    if rid.page in d then d[rid.page := RecordWritten(d[rid.page], rid.row, r)] else d
  }

  lemma EditedOnDisk(d: Disk, f: TC.File, rid: TC.Rid, r: RecHeader)
    requires OnDisk(d, f) && HasRid(f, rid) && |TupleOf(f, rid)| >= REC_HEADER_SIZE
    ensures OnDisk(EditBytes(d, rid, r), Edited(f, rid, WithRec(TupleOf(f, rid), r)))
  {
    var g := Edited(f, rid, WithRec(TupleOf(f, rid), r));
    assert PageIs(d, f, rid.page);
    RecordWrittenIs(d[rid.page], f.pages[rid.page].h, f.pages[rid.page].tuples, rid.row, r);
    forall id | id in g.pages ensures PageIs(EditBytes(d, rid, r), g, id) {
      if id != rid.page { assert PageIs(d, f, id); }
    }
  }

  lemma EditedOk(f: TC.File, rid: TC.Rid, t: seq<byte>)
    requires TC.ChainOk(f) && HasRid(f, rid)
    ensures TC.ChainOk(Edited(f, rid, t))
  {
    var g := Edited(f, rid, t);
    forall i | 0 <= i < |g.chain| ensures TC.LinkOk(g, i) { assert TC.LinkOk(f, i); }
  }

  /** Rows before and behind the edited one stay, and it is where it was. */
  lemma {:induction false} EditedRows(f: TC.File, rid: TC.Rid, t: seq<byte>, n: nat, k: nat)
    requires HasRid(f, rid) && TC.Increasing(f.chain) && n <= |f.chain|
    requires k < |TC.Rids(f.pages, f.chain, n)| && TC.Rids(f.pages, f.chain, n)[k] == rid
    ensures var g := Edited(f, rid, t);
      && TC.Tuples(g.pages, f.chain, n) == TC.Tuples(f.pages, f.chain, n)[k := t]
      && TC.Rids(g.pages, f.chain, n) == TC.Rids(f.pages, f.chain, n)
  {
    var g, ts := Edited(f, rid, t), TC.PageOf(f.pages, f.chain[n - 1]).tuples;
    var m := |TC.Rids(f.pages, f.chain, n - 1)|;
    UpdateCat(TC.Tuples(f.pages, f.chain, n - 1), ts, k, t);
    if k < m {
      var i := TC.RidsSound(f.pages, f.chain, n - 1, k);
      TC.IncreasingAt(f.chain, i, n - 1);
      EditedRows(f, rid, t, n - 1, k);
    } else {
      EditedLast(f, rid, t, n, k);
    }
  }

  lemma {:induction false} EditedLast(f: TC.File, rid: TC.Rid, t: seq<byte>, n: nat, k: nat)
    requires HasRid(f, rid) && TC.Increasing(f.chain) && 0 < n <= |f.chain|
    requires |TC.Rids(f.pages, f.chain, n - 1)| <= k < |TC.Rids(f.pages, f.chain, n)|
    requires TC.Rids(f.pages, f.chain, n)[k] == rid
    ensures var g := Edited(f, rid, t);
      && TC.Tuples(g.pages, f.chain, n) == TC.Tuples(f.pages, f.chain, n)[k := t]
      && TC.Rids(g.pages, f.chain, n) == TC.Rids(f.pages, f.chain, n)
  {
    var ts := TC.PageOf(f.pages, f.chain[n - 1]).tuples;
    UpdateCat(TC.Tuples(f.pages, f.chain, n - 1), ts, k, t);
    assert rid == TC.PageRids(f.chain[n - 1], |ts|)[k - |TC.Rids(f.pages, f.chain, n - 1)|];
    OtherPages(f, rid, t, n - 1);
  }

  lemma UpdateCat(a: seq<seq<byte>>, b: seq<seq<byte>>, k: nat, t: seq<byte>)
    requires k < |a| + |b|
    ensures (a + b)[k := t] == if k < |a| then a[k := t] + b else a + b[k - |a| := t]
  {
  }

  /** Pages before the edited one are as they were. */
  lemma {:induction false} OtherPages(f: TC.File, rid: TC.Rid, t: seq<byte>, n: nat)
    requires HasRid(f, rid) && TC.Increasing(f.chain) && n < |f.chain| && f.chain[n] == rid.page
    ensures var g := Edited(f, rid, t);
      && TC.Tuples(g.pages, f.chain, n) == TC.Tuples(f.pages, f.chain, n)
      && TC.Rids(g.pages, f.chain, n) == TC.Rids(f.pages, f.chain, n)
  {
    var g := Edited(f, rid, t);
    forall i | 0 <= i < n
      ensures TC.PageOf(g.pages, f.chain[i]).tuples == TC.PageOf(f.pages, f.chain[i]).tuples
    {
      TC.IncreasingAt(f.chain, i, n);
    }
    TC.SamePrefix(f, g, n);
  }

  /** Row `k` of the chain is there. */
  lemma RowThere(f: TC.File, k: nat)
    requires TC.ChainOk(f) && k < |TC.AllRids(f)|
    ensures HasRid(f, TC.AllRids(f)[k]) && TupleOf(f, TC.AllRids(f)[k]) == TC.AllTuples(f)[k]
  {
    var i := TC.RidsSound(f.pages, f.chain, |f.chain|, k);
    assert TC.LinkOk(f, i);
  }

  lemma RowEdited(f: TC.File, k: nat, t: seq<byte>)
    requires TC.ChainOk(f) && k < |TC.AllRids(f)|
    ensures HasRid(f, TC.AllRids(f)[k])
    ensures var g := Edited(f, TC.AllRids(f)[k], t);
      TC.ChainOk(g) && TC.AllTuples(g) == TC.AllTuples(f)[k := t] && TC.AllRids(g) == TC.AllRids(f)
  {
    RowThere(f, k);
    EditedOk(f, TC.AllRids(f)[k], t);
    EditedRows(f, TC.AllRids(f)[k], t, |f.chain|, k);
  }

  // ----- Reading ------------------------------------------------------------------------------

  /** The rows of one page, through their slots. */
  method PageTuples(b: seq<byte>, ghost p: TC.PageVal) returns (tuples: seq<seq<byte>>, next: nat)
    requires Represents(b, p.h, p.tuples)
    ensures tuples == p.tuples && next == p.h.next
  {
    HeaderReads(b, p.h, p.tuples);
    var h := HeaderOf(b);
    tuples, next := [], h.next;
    for row := 0 to h.rows
      invariant tuples == p.tuples[..row]
    {
      TupleReads(b, p.h, p.tuples, row + 1);
      tuples := tuples + [TupleAt(b, row + 1)];
    }
  }

  lemma PageHere(d: Disk, f: TC.File, at: nat)
    requires TC.ChainOk(f) && OnDisk(d, f) && at < |f.chain|
    ensures f.chain[at] in f.pages && PageIs(d, f, f.chain[at]) && f.chain[at] != 0
    ensures f.pages[f.chain[at]].h.next == if at + 1 < |f.chain| then f.chain[at + 1] else 0
  {
    assert TC.LinkOk(f, at);
  }

  /** A scan over the bytes: from the first page along the links, row by row. */
  method ScanPages(d: Disk, first: nat, ghost f: TC.File) returns (tuples: seq<seq<byte>>)
    requires TC.ChainOk(f) && OnDisk(d, f) && first == f.first
    ensures tuples == TC.AllTuples(f)
  {
    TC.Ends(f);
    tuples := [];
    var cur := first;
    ghost var at := 0;
    while cur != 0
      invariant at <= |f.chain| && (cur == 0 <==> at == |f.chain|) && (cur != 0 ==> cur == f.chain[at])
      invariant tuples == TC.Tuples(f.pages, f.chain, at)
      decreases |f.chain| - at
    {
      PageHere(d, f, at);
      if at + 1 < |f.chain| { PageHere(d, f, at + 1); }
      var rows, next := PageTuples(d[cur], f.pages[cur]);
      tuples := tuples + rows;
      cur := next;
      at := at + 1;
    }
  }
}
