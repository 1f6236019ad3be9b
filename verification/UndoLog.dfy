/**
 The undo store: before-images appended to undo pages. A pointer once handed out dereferences to
 the same bytes for ever, across page switches.
 */
module UndoLog {
  import opened Common
  import opened Bytes

  /** page_id(8) | lsn(8) | free_offset(4). */
  const HEAD := 20
  /** old_roll_ptr.page_id(8) | old_roll_ptr.slot(4) | old_trx_id(8) | payload_size(4), then the payload. */
  const FIXED := 24

  datatype Ptr = Ptr(page: nat, slot: nat) {
    predicate IsNull() { page == 0 }
  }

  datatype UndoRec = UndoRec(roll: Ptr, trx: nat, payload: seq<byte>)

  /** One append: where it went and what was stored. */
  datatype Entry = Entry(ptr: Ptr, rec: UndoRec)

  predicate Fits(u: UndoRec) {
    u.roll.page < Range(8) && u.roll.slot < Range(4) && u.trx < Range(8) && |u.payload| < Range(2)
  }

  function RecordBytes(u: UndoRec): (s: seq<byte>)
    ensures |s| == FIXED + |u.payload|
  {
    Enc(u.roll.page, 8) + Enc(u.roll.slot, 4) + Enc(u.trx, 8) + Enc(|u.payload|, 4) + u.payload
  }

  function HeadBytes(id: nat, lsn: nat, free: nat): (s: seq<byte>)
    ensures |s| == HEAD
  {
    Enc(id, 8) + Enc(lsn, 8) + Enc(free, 4)
  }

  /** Load: a page whose header was never written counts as empty. */
  function FreeOffset(b: seq<byte>): (f: nat)
    requires |b| == PAGE_SIZE
    ensures f >= HEAD
  {
    if Dec(b[16..20]) < HEAD then HEAD else Dec(b[16..20])
  }

  /** ReadRecord. */
  function ReadAt(b: seq<byte>, off: nat): UndoRec
    requires off + FIXED <= |b| && off + FIXED + Dec(b[off + 20..off + 24]) <= |b|
  {
    UndoRec(Ptr(Dec(b[off..off + 8]), Dec(b[off + 8..off + 12])), Dec(b[off + 12..off + 20]),
            b[off + 24..off + 24 + Dec(b[off + 20..off + 24])])
  }

  lemma {:induction false} AtParts(b: seq<byte>, off: nat, p: seq<byte>, s: seq<byte>, t: seq<byte>, z: seq<byte>,
      d: seq<byte>)
    requires |p| == 8 && |s| == 4 && |t| == 8 && |z| == 4 && At(b, off, p + s + t + z + d)
    ensures b[off..off + 8] == p && b[off + 8..off + 12] == s && b[off + 12..off + 20] == t
    ensures b[off + 20..off + 24] == z
    ensures b[off + 24..off + 24 + |d|] == d
  {
    var r := p + s + t + z + d;
    FiveParts(p, s, t, z, d);
    Cut(b, off, r, 0, 8);
    Cut(b, off, r, 8, 12);
    Cut(b, off, r, 12, 20);
    Cut(b, off, r, 20, 24);
    Cut(b, off, r, 24, 24 + |d|);
  }

  lemma {:induction false} FiveParts(p: seq<byte>, s: seq<byte>, t: seq<byte>, z: seq<byte>, d: seq<byte>)
    requires |p| == 8 && |s| == 4 && |t| == 8 && |z| == 4
    ensures var r := p + s + t + z + d;
      r[0..8] == p && r[8..12] == s && r[12..20] == t && r[20..24] == z && r[24..24 + |d|] == d
  {
  }

  /** Reading at a stored record gives that record back. */
  lemma {:induction false} AtReads(b: seq<byte>, off: nat, u: UndoRec)
    requires At(b, off, RecordBytes(u)) && Fits(u)
    ensures off + FIXED + Dec(b[off + 20..off + 24]) <= |b| && ReadAt(b, off) == u
  {
    AtParts(b, off, Enc(u.roll.page, 8), Enc(u.roll.slot, 4), Enc(u.trx, 8), Enc(|u.payload|, 4), u.payload);
    Widths();
    DecEnc(u.roll.page, 8);
    DecEnc(u.roll.slot, 4);
    DecEnc(u.trx, 8);
    DecEnc(|u.payload|, 4);
  }

  lemma {:induction false} HeadParts(b: seq<byte>, i: seq<byte>, l: seq<byte>, f: seq<byte>)
    requires |i| == 8 && |l| == 8 && |f| == 4 && |b| >= HEAD
    ensures Splice(b, 0, i + l + f)[16..20] == f
  {
  }

  lemma {:induction false} HeadReads(b: seq<byte>, id: nat, lsn: nat, free: nat)
    requires |b| == PAGE_SIZE && HEAD <= free <= PAGE_SIZE
    ensures FreeOffset(Splice(b, 0, HeadBytes(id, lsn, free))) == free
  {
    HeadParts(b, Enc(id, 8), Enc(lsn, 8), Enc(free, 4));
    Widths();
    DecEnc(free, 4);
  }

  /** UndoLogPage: the loaded header beside the page buffer. */
  class Page {
    var data: array<byte>
    var id: nat
    var lsn: nat
    var free: nat

    ghost predicate Valid()
      reads this
    {
      data.Length == PAGE_SIZE && HEAD <= free <= PAGE_SIZE
    }

    /** InitNew. */
    constructor Init(buffer: array<byte>, id: nat)
      requires buffer.Length == PAGE_SIZE
      modifies buffer
      ensures Valid() && data == buffer && this.id == id && free == HEAD
      ensures FreeOffset(data[..]) == HEAD
    {
      data := buffer;
      this.id := id;
      lsn := 0;
      free := HEAD;
      new;
      HeadReads(data[..], id, 0, HEAD);
      Memcpy(data, 0, HeadBytes(id, 0, HEAD));
    }

    constructor Load(buffer: array<byte>)
      requires buffer.Length == PAGE_SIZE && FreeOffset(buffer[..]) <= PAGE_SIZE
      ensures Valid() && data == buffer && free == FreeOffset(data[..])
    {
      data := buffer;
      id := Dec(buffer[0..8]);
      lsn := Dec(buffer[8..16]);
      var b := buffer[..];
      assert b[16..20] == buffer[16..20];
      free := if Dec(buffer[16..20]) < HEAD then HEAD else Dec(buffer[16..20]);
    }

    predicate HasSpaceFor(size: nat)
      reads this
    {
      free + FIXED + size <= PAGE_SIZE
    }

    /** Writes the record at the free offset, then the header; or has no room. */
    method AppendRecord(u: UndoRec) returns (ok: bool, offset: nat)
      requires Valid()
      modifies this`free, data
      ensures Valid() && ok == old(HasSpaceFor(|u.payload|))
      ensures ok ==> && offset == old(free) && free == offset + FIXED + |u.payload|
                     && At(data[..], offset, RecordBytes(u)) && FreeOffset(data[..]) == free
                     && forall i :: HEAD <= i < offset ==> data[i] == old(data[i])
      ensures !ok ==> data[..] == old(data[..]) && free == old(free)
    {
      offset := 0;
      ok := HasSpaceFor(|u.payload|);
      if ok {
        offset := free;
        Memcpy(data, offset, RecordBytes(u));
        assert At(data[..], offset, RecordBytes(u));
        free := free + FIXED + |u.payload|;
        AtKept(data[..], offset, RecordBytes(u), 0, HeadBytes(id, lsn, free));
        HeadReads(data[..], id, lsn, free);
        Memcpy(data, 0, HeadBytes(id, lsn, free));
      }
    }
  }

  // ----- The store ----------------------------------------------------------------------------

  type Pages = map<nat, seq<byte>>

  ghost predicate PageSound(b: seq<byte>) { |b| == PAGE_SIZE && FreeOffset(b) <= PAGE_SIZE }

  /** The append is on its page, below the free offset. */
  ghost predicate Held(pages: Pages, e: Entry) {
    && e.ptr.page in pages && !e.ptr.IsNull() && Fits(e.rec) && HEAD <= e.ptr.slot
    && |pages[e.ptr.page]| == PAGE_SIZE && e.ptr.slot + FIXED + |e.rec.payload| <= FreeOffset(pages[e.ptr.page])
    && At(pages[e.ptr.page], e.ptr.slot, RecordBytes(e.rec))
  }

  ghost predicate Issued(log: seq<Entry>, p: Ptr) { exists k :: 0 <= k < |log| && log[k].ptr == p }

  /** Every append is held, and no two share a pointer. */
  ghost predicate LogOk(pages: Pages, log: seq<Entry>) {
    && (forall k :: 0 <= k < |log| ==> Held(pages, log[k]))
    && (forall j, k :: 0 <= j < k < |log| ==> log[j].ptr != log[k].ptr)
  }

  lemma {:induction false} HeldKept(pages: Pages, pages': Pages, id: nat, e: Entry)
    requires Held(pages, e) && id in pages' && |pages'[id]| == PAGE_SIZE
    requires forall i :: i in pages && i != id ==> i in pages' && pages'[i] == pages[i]
    requires id in pages ==>
               && |pages[id]| == PAGE_SIZE && FreeOffset(pages[id]) <= FreeOffset(pages'[id])
               && forall i :: HEAD <= i < FreeOffset(pages[id]) && i < PAGE_SIZE ==> pages'[id][i] == pages[id][i]
    ensures id in pages || e.ptr.page != id ==> Held(pages', e)
  {
    if id in pages && e.ptr.page == id {
      var b, b', s := pages[id], pages'[id], RecordBytes(e.rec);
      forall j | 0 <= j < |s| ensures b'[e.ptr.slot + j] == s[j] {
        assert b[e.ptr.slot + j] == s[j];
      }
    }
  }

  /** `b'` is `b` with `u` appended. */
  ghost predicate AppendedAs(b: seq<byte>, b': seq<byte>, u: UndoRec) {
    && PageSound(b) && PageSound(b') && FreeOffset(b') == FreeOffset(b) + FIXED + |u.payload|
    && At(b', FreeOffset(b), RecordBytes(u))
    && forall i :: HEAD <= i < FreeOffset(b) ==> b'[i] == b[i]
  }

  /** Load the page and append. */
  method AppendTo(b: seq<byte>, u: UndoRec) returns (ok: bool, offset: nat, b': seq<byte>)
    requires PageSound(b)
    ensures ok <==> FreeOffset(b) + FIXED + |u.payload| <= PAGE_SIZE
    ensures ok ==> offset == FreeOffset(b) && AppendedAs(b, b', u)
  {
    var buffer := new byte[PAGE_SIZE](i requires 0 <= i < PAGE_SIZE => b[i]);
    assert buffer[..] == b;
    var page := new Page.Load(buffer);
    ok, offset := page.AppendRecord(u);
    b' := page.data[..];
  }

  /** The new pointer is fresh, and every older append still stands. */
  lemma {:induction false} AppendedHeld(pages: Pages, id: nat, b: seq<byte>, log: seq<Entry>, u: UndoRec, e: Entry)
    requires id in pages && id != 0 && Fits(u) && AppendedAs(pages[id], b, u) && LogOk(pages, log)
    requires e == Entry(Ptr(id, FreeOffset(pages[id])), u)
    ensures LogOk(pages[id := b], log + [e]) && !Issued(log, e.ptr)
  {
    forall k | 0 <= k < |log| ensures Held(pages[id := b], log[k]) && log[k].ptr != e.ptr {
      HeldKept(pages, pages[id := b], id, log[k]);
    }
  }

  /** A page that was not there before disturbs nothing. */
  lemma {:induction false} PageAdded(pages: Pages, id: nat, b: seq<byte>, log: seq<Entry>)
    requires id !in pages && PageSound(b) && LogOk(pages, log)
    ensures LogOk(pages[id := b], log)
  {
    forall k | 0 <= k < |log| ensures Held(pages[id := b], log[k]) {
      HeldKept(pages, pages[id := b], id, log[k]);
    }
  }

  /** UndoLogManager, over the page id -> bytes map that the buffer pool is. */
  class Store {
    var pages: Pages
    /** PageIdUtil's counter: ids are never handed out twice, and never 0. */
    var nextPageId: nat
    /** undo_page_id_; 0 before the first append. */
    var current: nat
    /** All appends so far, oldest first. */
    ghost var log: seq<Entry>

    ghost predicate Valid()
      reads this
    {
      && nextPageId >= 1 && (forall id :: id in pages ==> 1 <= id < nextPageId && PageSound(pages[id]))
      && (current == 0 || current in pages)
      && LogOk(pages, log)
    }

    constructor ()
      ensures Valid() && log == []
    {
      pages := map[];
      nextPageId := 1;
      current := 0;
      log := [];
    }

    /** Other users of the pool take page ids too. */
    method AllocatedElsewhere(n: nat)
      requires Valid()
      modifies this`nextPageId
      ensures Valid() && nextPageId == old(nextPageId) + n
    {
      nextPageId := nextPageId + n;
    }

    method NewUndoPage()
      requires Valid()
      modifies this`pages, this`nextPageId, this`current
      ensures Valid() && current in pages && FreeOffset(pages[current]) == HEAD
      ensures current == old(nextPageId) && nextPageId == old(nextPageId) + 1
    {
      var buffer := new byte[PAGE_SIZE](i => 0);
      var page := new Page.Init(buffer, nextPageId);
      PageAdded(pages, nextPageId, page.data[..], log);
      current := nextPageId;
      nextPageId := nextPageId + 1;
      pages := pages[current := page.data[..]];
    }

    /**
     Fails, as the source throws, exactly when the record would not fit on an empty page. It goes behind
     what the current page holds, and a new page is begun exactly when it has no room there.
     */
    method Append(u: UndoRec) returns (ok: bool, ptr: Ptr)
      requires Valid() && Fits(u)
      modifies this
      ensures Valid()
      ensures ok <==> HEAD + FIXED + |u.payload| <= PAGE_SIZE
      ensures ok ==> !ptr.IsNull() && !Issued(old(log), ptr) && log == old(log) + [Entry(ptr, u)]
      ensures !ok ==> log == old(log)
      ensures var b, n := old(current), |u.payload|;
        if b != 0 && FreeOffset(old(pages)[b]) + FIXED + n <= PAGE_SIZE
        then ptr == Ptr(b, FreeOffset(old(pages)[b])) && current == b && nextPageId == old(nextPageId)
        else ok ==> ptr == Ptr(old(nextPageId), HEAD) && current == ptr.page && nextPageId == old(nextPageId) + 1
    {
      if current == 0 { NewUndoPage(); }
      if FreeOffset(pages[current]) + FIXED + |u.payload| > PAGE_SIZE { NewUndoPage(); }
      var b, offset;
      ok, offset, b := AppendTo(pages[current], u);
      ptr := Ptr(current, offset);
      if ok {
        AppendedHeld(pages, current, b, log, u, Entry(ptr, u));
        pages := pages[current := b];
        log := log + [Entry(ptr, u)];
      }
    }

    /** GetUndoRecord: any pointer ever returned still leads to what was stored. */
    method Get(ptr: Ptr, ghost k: nat) returns (u: UndoRec)
      requires Valid() && k < |log| && log[k].ptr == ptr
      ensures u == log[k].rec
    {
      var b := pages[ptr.page];
      AtReads(b, ptr.slot, log[k].rec);
      u := ReadAt(b, ptr.slot);
    }

    /**
     The scan's chain walk over the store's bytes: from a pointer to the version it leads to, from
     that version's own record header to the next, until a null pointer.
     */
    method Walk(start: Ptr, ghost k: nat) returns (versions: seq<seq<byte>>)
      requires Valid() && Linked(log)
      requires start.IsNull() || (k < |log| && log[k].ptr == start)
      ensures start.IsNull() ==> versions == []
      ensures !start.IsNull() ==> versions == Chain(log, k) && |versions| <= k + 1
    {
      versions := [];
      var p := start;
      ghost var at: int := if start.IsNull() then -1 else k;
      while !p.IsNull()
        invariant -1 <= at < |log| && (p.IsNull() <==> at == -1)
        invariant !p.IsNull() ==> log[at].ptr == p
        invariant !start.IsNull() ==> versions + (if at == -1 then [] else Chain(log, at)) == Chain(log, k)
        invariant start.IsNull() ==> versions == []
        decreases at
      {
        var u := Get(p, at);
        versions := versions + [u.payload];
        p := RollOf(u.payload);
        at := if p.IsNull() then -1 else Prior(log, at);
      }
      if !start.IsNull() { ChainBound(log, k); }
    }
  }

  // ----- Chains -------------------------------------------------------------------------------

  /** The roll pointer in a stored version's own record header. */
  function RollOf(payload: seq<byte>): Ptr {
    if |payload| < 22 then Ptr(0, 0) else Ptr(Dec(payload[8..16]), Dec(payload[16..20]))
  }

  ghost predicate LinkedAt(log: seq<Entry>, k: int)
    requires 0 <= k < |log|
  {
    RollOf(log[k].rec.payload).IsNull() || exists j :: 0 <= j < k && log[j].ptr == RollOf(log[k].rec.payload)
  }

  /** Every version's roll pointer is null or leads to a strictly earlier append. */
  ghost predicate Linked(log: seq<Entry>) { forall k :: 0 <= k < |log| ==> LinkedAt(log, k) }

  /** Appending a version whose pointer is null or already issued keeps the store acyclic. */
  lemma {:induction false} LinkedAppend(log: seq<Entry>, e: Entry)
    requires Linked(log) && (RollOf(e.rec.payload).IsNull() || Issued(log, RollOf(e.rec.payload)))
    ensures Linked(log + [e])
  {
    var l := log + [e];
    forall k | 0 <= k < |l| ensures LinkedAt(l, k) {
      if k < |log| {
        assert LinkedAt(log, k);
        if !RollOf(log[k].rec.payload).IsNull() {
          var j :| 0 <= j < k && log[j].ptr == RollOf(log[k].rec.payload);
          assert l[j].ptr == RollOf(l[k].rec.payload);
        }
      } else if !RollOf(e.rec.payload).IsNull() {
        var j :| 0 <= j < |log| && log[j].ptr == RollOf(e.rec.payload);
        assert l[j].ptr == RollOf(l[k].rec.payload);
      }
    }
  }

  /** The append that version `k` points back to. */
  ghost function Prior(log: seq<Entry>, k: nat): (j: nat)
    requires Linked(log) && k < |log| && !RollOf(log[k].rec.payload).IsNull()
    ensures j < k && log[j].ptr == RollOf(log[k].rec.payload)
  {
    assert LinkedAt(log, k);
    var j :| 0 <= j < k && log[j].ptr == RollOf(log[k].rec.payload); j
  }

  /** The versions reached from append `k`, newest first. */
  ghost function Chain(log: seq<Entry>, k: nat): seq<seq<byte>>
    requires Linked(log) && k < |log|
  {
    [log[k].rec.payload] + if RollOf(log[k].rec.payload).IsNull() then [] else Chain(log, Prior(log, k))
  }

  lemma {:induction false} ChainBound(log: seq<Entry>, k: nat)
    requires Linked(log) && k < |log|
    ensures |Chain(log, k)| <= k + 1
  {
    if !RollOf(log[k].rec.payload).IsNull() { ChainBound(log, Prior(log, k)); }
  }

  /** Later appends leave every chain as it was. */
  lemma {:induction false} ChainStays(log: seq<Entry>, e: Entry, k: nat)
    requires Linked(log) && Linked(log + [e]) && k < |log|
    requires forall i, j :: 0 <= i < j < |log| ==> log[i].ptr != log[j].ptr
    ensures Chain(log + [e], k) == Chain(log, k)
  {
    var l := log + [e];
    if !RollOf(log[k].rec.payload).IsNull() {
      var i, j := Prior(log, k), Prior(l, k);
      assert log[j].ptr == l[j].ptr == log[i].ptr;
      assert i == j;
      ChainStays(log, e, j);
    }
  }
}
