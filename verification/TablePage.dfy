/**
 The slotted table page, byte for byte: a packed header, tuples growing upwards behind it, slots
 growing downwards from the end. The bytes represent a list of tuples.
 */
module TablePage {
  import opened Common
  import opened Bytes

  /** sizeof(TableHeader): the tuples start here, though only 30 bytes of header are written. */
  const HEADER_SIZE := 32
  const SLOT_SIZE := 4
  /** trx_id(8) | roll_ptr.page_id(8) | roll_ptr.slot(4) | flags(2). */
  const REC_HEADER_SIZE := 22

  datatype PageHeader = PageHeader(version: nat, rows: nat, pageId: nat, next: nat, lsn: nat)

  datatype RecHeader = RecHeader(trx: nat, rollPage: nat, rollSlot: nat, flags: nat)

  predicate HeaderFits(h: PageHeader) {
    h.version < Range(2) && h.rows < Range(4) && h.pageId < Range(8) && h.next < Range(8) && h.lsn < Range(8)
  }

  predicate RecFits(r: RecHeader) {
    r.trx < Range(8) && r.rollPage < Range(8) && r.rollSlot < Range(4) && r.flags < Range(2)
  }

  function HeaderBytes(h: PageHeader): (s: seq<byte>)
    ensures |s| == 30
  {
    Enc(h.version, 2) + Enc(h.rows, 4) + Enc(h.pageId, 8) + Enc(h.next, 8) + Enc(h.lsn, 8)
  }

  function HeaderOf(b: seq<byte>): PageHeader
    requires |b| == PAGE_SIZE
  {
    PageHeader(Dec(b[0..2]), Dec(b[2..6]), Dec(b[6..14]), Dec(b[14..22]), Dec(b[22..30]))
  }

  function RecBytes(r: RecHeader): (s: seq<byte>)
    ensures |s| == REC_HEADER_SIZE
  {
    Enc(r.trx, 8) + Enc(r.rollPage, 8) + Enc(r.rollSlot, 4) + Enc(r.flags, 2)
  }

  function RecOf(t: seq<byte>): RecHeader
    requires |t| >= REC_HEADER_SIZE
  {
    RecHeader(Dec(t[0..8]), Dec(t[8..16]), Dec(t[16..20]), Dec(t[20..22]))
  }

  // ----- Layout -------------------------------------------------------------------------------

  /** Where tuple `i` starts: tuples are packed behind the header. */
  function Start(ts: seq<seq<byte>>, i: nat): (o: nat)
    requires i <= |ts|
    ensures o >= HEADER_SIZE
  {
    if i == 0 then HEADER_SIZE else Start(ts, i - 1) + |ts[i - 1]|
  }

  /** Where the slot of row `row` is; rows count from 1. */
  function SlotOffset(row: nat): int {
    PAGE_SIZE - 4 * row
  }

  function Free(ts: seq<seq<byte>>): int {
    PAGE_SIZE - 4 * |ts| - Start(ts, |ts|)
  }

  /** The slot at `p` says that tuple `t` is at `a`, and it is there. */
  ghost predicate Entry(b: seq<byte>, p: int, a: nat, t: seq<byte>) {
    && 0 <= p && p + 4 <= |b| && U16(b, p) == a && U16(b, p + 2) == |t|
    && a + |t| <= |b| && forall j {:trigger t[j]} :: 0 <= j < |t| ==> b[a + j] == t[j]
  }

  ghost predicate SlotOk(b: seq<byte>, ts: seq<seq<byte>>, i: nat)
    requires i < |ts|
  {
    Entry(b, SlotOffset(i + 1), Start(ts, i), ts[i])
  }

  ghost predicate Layout(b: seq<byte>, head: seq<byte>, ts: seq<seq<byte>>) {
    && |b| == PAGE_SIZE && Free(ts) >= 0
    && |head| == 30 && (forall j :: 0 <= j < 30 ==> b[j] == head[j])
    && forall i {:trigger SlotOk(b, ts, i)} :: 0 <= i < |ts| ==> SlotOk(b, ts, i)
  }

  /** The bytes are a page with this header and these tuples. */
  ghost predicate Represents(b: seq<byte>, h: PageHeader, ts: seq<seq<byte>>) {
    HeaderFits(h) && h.rows == |ts| && Layout(b, HeaderBytes(h), ts)
  }

  lemma {:induction false} StartGrows(ts: seq<seq<byte>>, i: nat, j: nat)
    requires i <= j <= |ts|
    ensures Start(ts, i) <= Start(ts, j)
    ensures i < j ==> Start(ts, i) + |ts[i]| <= Start(ts, j)
  {
    if i < j { StartGrows(ts, i, j - 1); }
  }

  lemma {:induction false} StartAppend(ts: seq<seq<byte>>, t: seq<byte>, i: nat)
    requires i <= |ts|
    ensures Start(ts + [t], i) == Start(ts, i)
  {
    if i > 0 { StartAppend(ts, t, i - 1); }
  }

  lemma {:induction false} StartUpdate(ts: seq<seq<byte>>, k: nat, t: seq<byte>, i: nat)
    requires k < |ts| && |t| == |ts[k]| && i <= |ts|
    ensures Start(ts[k := t], i) == Start(ts, i)
  {
    if i > 0 { StartUpdate(ts, k, t, i - 1); }
  }

  /** Header, tuples and slots are disjoint. */
  lemma {:induction false} Disjoint(ts: seq<seq<byte>>, i: nat)
    requires i < |ts| && Free(ts) >= 0
    ensures HEADER_SIZE <= Start(ts, i) <= Start(ts, i) + |ts[i]| <= Start(ts, |ts|)
    ensures Start(ts, |ts|) <= SlotOffset(|ts|) <= SlotOffset(i + 1) <= PAGE_SIZE - SLOT_SIZE
  {
    StartGrows(ts, i, |ts|);
  }

  // ----- Edits --------------------------------------------------------------------------------

  function WriteHeader(b: seq<byte>, h: PageHeader): (r: seq<byte>)
    requires |b| == PAGE_SIZE
    ensures |r| == PAGE_SIZE
  {
    Splice(b, 0, HeaderBytes(h))
  }

  function SlotBytes(off: nat, size: nat): (s: seq<byte>)
    ensures |s| == 4
  {
    Enc(off, 2) + Enc(size, 2)
  }

  /** InsertTuple on the bytes: slot, tuple, header. */
  function Insert(b: seq<byte>, h: PageHeader, off: nat, t: seq<byte>): (r: seq<byte>)
    requires |b| == PAGE_SIZE && off + |t| <= PAGE_SIZE && 4 * (h.rows + 1) <= PAGE_SIZE
    ensures |r| == PAGE_SIZE
  {
    WriteHeader(Splice(Splice(b, SlotOffset(h.rows + 1), SlotBytes(off, |t|)), off, t), h.(rows := h.rows + 1))
  }

  /** A write that misses a tuple and its slot leaves them. */
  lemma {:induction false} EntryKept(b: seq<byte>, off: nat, s: seq<byte>, p: int, a: nat, t: seq<byte>)
    requires Entry(b, p, a, t) && off + |s| <= |b|
    requires off + |s| <= a || a + |t| <= off
    requires off + |s| <= p || p + 4 <= off
    ensures Entry(Splice(b, off, s), p, a, t)
  {
  }

  /** A write inside a tuple edits it. */
  lemma {:induction false} EntryEdited(b: seq<byte>, o: nat, s: seq<byte>, p: int, a: nat, t: seq<byte>)
    requires Entry(b, p, a, t) && o + |s| <= |t| && a + |t| <= p
    ensures Entry(Splice(b, a + o, s), p, a, Splice(t, o, s))
  {
    var b', t' := Splice(b, a + o, s), Splice(t, o, s);
    forall j | 0 <= j < |t'| ensures b'[a + j] == t'[j] {
      assert b[a + j] == t[j];
    }
  }

  lemma {:induction false} HeaderLayout(b: seq<byte>, head: seq<byte>, head': seq<byte>, ts: seq<seq<byte>>)
    requires Layout(b, head, ts) && |head'| == 30
    ensures Layout(Splice(b, 0, head'), head', ts)
  {
    forall i | 0 <= i < |ts| ensures SlotOk(Splice(b, 0, head'), ts, i) {
      assert SlotOk(b, ts, i);
      Disjoint(ts, i);
      EntryKept(b, 0, head', SlotOffset(i + 1), Start(ts, i), ts[i]);
    }
  }

  /** Rewriting the header leaves the tuples. */
  lemma {:induction false} HeaderWritten(b: seq<byte>, h: PageHeader, h': PageHeader, ts: seq<seq<byte>>)
    requires Represents(b, h, ts) && HeaderFits(h') && h'.rows == |ts|
    ensures Represents(WriteHeader(b, h'), h', ts)
  {
    HeaderLayout(b, HeaderBytes(h), HeaderBytes(h'), ts);
  }

  /** Two tuples do not overlap, nor a tuple and a slot. */
  lemma {:induction false} Apart(ts: seq<seq<byte>>, k: nat, i: nat)
    requires k < |ts| && i < |ts| && Free(ts) >= 0
    ensures i != k ==> Start(ts, k) + |ts[k]| <= Start(ts, i) || Start(ts, i) + |ts[i]| <= Start(ts, k)
    ensures Start(ts, k) + |ts[k]| <= SlotOffset(i + 1)
  {
    Disjoint(ts, k);
    Disjoint(ts, i);
    if i < k { StartGrows(ts, i, k); } else { StartGrows(ts, k, i); }
  }

  /** The tuples' positions may be read off another list with the same positions. */
  lemma {:induction false} EntryMoved(b: seq<byte>, ts: seq<seq<byte>>, ts': seq<seq<byte>>, i: nat, t: seq<byte>)
    requires i < |ts| && i < |ts'| && ts'[i] == t && Start(ts', i) == Start(ts, i)
    requires Entry(b, SlotOffset(i + 1), Start(ts, i), t)
    ensures SlotOk(b, ts', i)
  {
  }

  lemma {:induction false} EditedOther(b: seq<byte>, ts: seq<seq<byte>>, k: nat, o: nat, s: seq<byte>, i: nat)
    requires |b| == PAGE_SIZE && k < |ts| && i < |ts| && i != k && Free(ts) >= 0 && SlotOk(b, ts, i)
    requires o + |s| <= |ts[k]|
    requires Start(ts, k) + o + |s| <= PAGE_SIZE
    ensures Entry(Splice(b, Start(ts, k) + o, s), SlotOffset(i + 1), Start(ts, i), ts[i])
  {
    Apart(ts, k, i);
    EntryKept(b, Start(ts, k) + o, s, SlotOffset(i + 1), Start(ts, i), ts[i]);
  }

  lemma {:induction false} EditedLayout(b: seq<byte>, head: seq<byte>, ts: seq<seq<byte>>, k: nat, o: nat,
      s: seq<byte>, ts': seq<seq<byte>>)
    requires Layout(b, head, ts) && k < |ts| && o + |s| <= |ts[k]| && ts' == ts[k := Splice(ts[k], o, s)]
    ensures Start(ts, k) + o + |s| <= PAGE_SIZE
    ensures Layout(Splice(b, Start(ts, k) + o, s), head, ts')
  {
    Disjoint(ts, k);
    StartUpdate(ts, k, ts'[k], |ts|);
    var b' := Splice(b, Start(ts, k) + o, s);
    forall i {:trigger SlotOk(b', ts', i)} | 0 <= i < |ts'| ensures SlotOk(b', ts', i) {
      assert SlotOk(b, ts, i);
      StartUpdate(ts, k, ts'[k], i);
      if i == k {
        Apart(ts, k, k);
        EntryEdited(b, o, s, SlotOffset(i + 1), Start(ts, i), ts[i]);
      } else {
        EditedOther(b, ts, k, o, s, i);
      }
      EntryMoved(b', ts, ts', i, ts'[i]);
    }
  }

  /** A record's bytes may be edited in place: only that tuple changes. */
  lemma {:induction false} TupleEdited(b: seq<byte>, h: PageHeader, ts: seq<seq<byte>>, k: nat, o: nat, s: seq<byte>,
      p: nat)
    requires Represents(b, h, ts) && k < |ts| && o + |s| <= |ts[k]| && p == Start(ts, k) + o
    ensures p + |s| <= PAGE_SIZE && Represents(Splice(b, p, s), h, ts[k := Splice(ts[k], o, s)])
    ensures Free(ts[k := Splice(ts[k], o, s)]) == Free(ts)
  {
    StartUpdate(ts, k, Splice(ts[k], o, s), |ts|);
    EditedLayout(b, HeaderBytes(h), ts, k, o, s, ts[k := Splice(ts[k], o, s)]);
  }

  function Inserted(b: seq<byte>, p: nat, sb: seq<byte>, off: nat, t: seq<byte>, head: seq<byte>): seq<byte>
    requires p + |sb| <= |b| && off + |t| <= |b| && |head| <= |b|
  {
    Splice(Splice(Splice(b, p, sb), off, t), 0, head)
  }

  /** Slot, tuple and header written: older slots and tuples stay. */
  lemma {:induction false} OldSlot(b: seq<byte>, p: nat, sb: seq<byte>, off: nat, t: seq<byte>, head: seq<byte>,
      q: int, a: nat, u: seq<byte>)
    requires Entry(b, q, a, u) && |sb| == 4 && |head| == 30 && p + 4 <= q && q + 4 <= |b|
    requires HEADER_SIZE <= a && a + |u| <= off && off + |t| <= p
    ensures Entry(Inserted(b, p, sb, off, t, head), q, a, u)
  {
    EntryKept(b, p, sb, q, a, u);
    var b1 := Splice(b, p, sb);
    EntryKept(b1, off, t, q, a, u);
    EntryKept(Splice(b1, off, t), 0, head, q, a, u);
  }

  lemma {:induction false} NewSlot(b: seq<byte>, p: nat, sb: seq<byte>, off: nat, t: seq<byte>, head: seq<byte>)
    requires |sb| == 4 && |head| == 30 && HEADER_SIZE <= off && off + |t| <= p && p + 4 <= |b| && U16(sb, 0) == off
    requires U16(sb, 2) == |t|
    ensures Entry(Inserted(b, p, sb, off, t, head), p, off, t)
    ensures forall j :: 0 <= j < 30 ==> Inserted(b, p, sb, off, t, head)[j] == head[j]
  {
  }

  lemma {:induction false} InsertedLayout(b: seq<byte>, head: seq<byte>, ts: seq<seq<byte>>, t: seq<byte>,
      sb: seq<byte>, head': seq<byte>)
    requires Layout(b, head, ts) && |t| + SLOT_SIZE <= Free(ts) && |head'| == 30
    requires |sb| == 4 && U16(sb, 0) == Start(ts, |ts|) && U16(sb, 2) == |t|
    ensures Layout(Inserted(b, SlotOffset(|ts| + 1), sb, Start(ts, |ts|), t, head'), head', ts + [t])
  {
    var off, p, ts' := Start(ts, |ts|), SlotOffset(|ts| + 1), ts + [t];
    var b' := Inserted(b, p, sb, off, t, head');
    StartAppend(ts, t, |ts|);
    NewSlot(b, p, sb, off, t, head');
    forall i {:trigger SlotOk(b', ts', i)} | 0 <= i < |ts'| ensures SlotOk(b', ts', i) {
      StartAppend(ts, t, i);
      if i < |ts| {
        assert SlotOk(b, ts, i);
        Disjoint(ts, i);
        OldSlot(b, p, sb, off, t, head', SlotOffset(i + 1), Start(ts, i), ts[i]);
        EntryMoved(b', ts, ts', i, ts[i]);
      }
    }
  }

  lemma {:induction false} SlotHalves(off: nat, size: nat)
    requires off < 0x1_0000 && size < 0x1_0000
    ensures U16(SlotBytes(off, size), 0) == off && U16(SlotBytes(off, size), 2) == size
  {
    Enc16(off);
    Enc16(size);
  }

  /** A tuple that fits is appended; everything before it stays. */
  lemma {:induction false} TupleInserted(b: seq<byte>, h: PageHeader, ts: seq<seq<byte>>, t: seq<byte>)
    requires Represents(b, h, ts) && |t| + SLOT_SIZE <= Free(ts)
    ensures Start(ts, |ts|) + |t| <= PAGE_SIZE && 4 * (h.rows + 1) <= PAGE_SIZE
    ensures Represents(Insert(b, h, Start(ts, |ts|), t), h.(rows := h.rows + 1), ts + [t])
  {
    var h' := h.(rows := h.rows + 1);
    var off := Start(ts, |ts|);
    SlotHalves(off, |t|);
    InsertedLayout(b, HeaderBytes(h), ts, t, SlotBytes(off, |t|), HeaderBytes(h'));
    Widths();
  }

  // ----- Reading back -------------------------------------------------------------------------

  /** The bytes of row `row`, found through its slot. */
  function TupleAt(b: seq<byte>, row: nat): seq<byte>
    requires |b| == PAGE_SIZE && 1 <= row <= PAGE_SIZE / 4
    requires U16(b, SlotOffset(row)) + U16(b, SlotOffset(row) + 2) <= PAGE_SIZE
  {
    var off := U16(b, SlotOffset(row));
    b[off..off + U16(b, SlotOffset(row) + 2)]
  }

  lemma {:induction false} TupleReads(b: seq<byte>, h: PageHeader, ts: seq<seq<byte>>, row: nat)
    requires Represents(b, h, ts) && 1 <= row <= |ts|
    ensures row <= PAGE_SIZE / 4 && U16(b, SlotOffset(row)) == Start(ts, row - 1)
    ensures U16(b, SlotOffset(row) + 2) == |ts[row - 1]| && Start(ts, row - 1) + |ts[row - 1]| <= PAGE_SIZE
    ensures TupleAt(b, row) == ts[row - 1]
  {
    Disjoint(ts, row - 1);
    assert SlotOk(b, ts, row - 1);
  }

  lemma {:induction false} Fields5(b: seq<byte>, v: seq<byte>, r: seq<byte>, p: seq<byte>, n: seq<byte>, l: seq<byte>)
    requires |b| == PAGE_SIZE && |v| == 2 && |r| == 4 && |p| == 8 && |n| == 8 && |l| == 8
    requires forall j :: 0 <= j < 30 ==> b[j] == (v + r + p + n + l)[j]
    ensures b[0..2] == v && b[2..6] == r && b[6..14] == p && b[14..22] == n && b[22..30] == l
  {
  }

  /** Reopening a page recovers its header. */
  lemma {:induction false} HeaderReads(b: seq<byte>, h: PageHeader, ts: seq<seq<byte>>)
    requires Represents(b, h, ts)
    ensures HeaderOf(b) == h
  {
    Fields5(b, Enc(h.version, 2), Enc(h.rows, 4), Enc(h.pageId, 8), Enc(h.next, 8), Enc(h.lsn, 8));
    DecEnc(h.version, 2);
    DecEnc(h.rows, 4);
    DecEnc(h.pageId, 8);
    DecEnc(h.next, 8);
    DecEnc(h.lsn, 8);
  }

  /** So the bytes determine header and tuples. */
  lemma {:induction false} RepresentsOne(b: seq<byte>, h: PageHeader, ts: seq<seq<byte>>, h': PageHeader,
      ts': seq<seq<byte>>)
    requires Represents(b, h, ts) && Represents(b, h', ts')
    ensures h == h' && ts == ts'
  {
    HeaderReads(b, h, ts);
    HeaderReads(b, h', ts');
    forall i | 0 <= i < |ts| ensures ts[i] == ts'[i] {
      TupleReads(b, h, ts, i + 1);
      TupleReads(b, h', ts', i + 1);
    }
  }

  /** A new page: any bytes with an empty header written over them. */
  lemma {:induction false} EmptyPage(b: seq<byte>, id: nat)
    requires |b| == PAGE_SIZE && id < Range(8)
    ensures Represents(WriteHeader(b, PageHeader(0, 0, id, 0, 0)), PageHeader(0, 0, id, 0, 0), [])
  {
    Widths();
  }

  // ----- Record headers -----------------------------------------------------------------------

  predicate HasDel(flags: nat) { flags % 2 == 1 }

  predicate HasDead(flags: nat) { flags / 2 % 2 == 1 }

  function SetDel(flags: nat): nat { if HasDel(flags) then flags else flags + 1 }

  function SetDead(flags: nat): nat { if HasDead(flags) then flags else flags + 2 }

  /** The tuple with another record header in front of the same payload. */
  function WithRec(t: seq<byte>, r: RecHeader): (t': seq<byte>)
    requires |t| >= REC_HEADER_SIZE
    ensures |t'| == |t| && t'[REC_HEADER_SIZE..] == t[REC_HEADER_SIZE..]
  {
    Splice(t, 0, RecBytes(r))
  }

  lemma {:induction false} Fields4(t: seq<byte>, a: seq<byte>, b: seq<byte>, c: seq<byte>, d: seq<byte>)
    requires |t| >= 22 && |a| == 8 && |b| == 8 && |c| == 4 && |d| == 2
    requires forall j :: 0 <= j < 22 ==> t[j] == (a + b + c + d)[j]
    ensures t[0..8] == a && t[8..16] == b && t[16..20] == c && t[20..22] == d
  {
  }

  lemma {:induction false} RecReads(t: seq<byte>, r: RecHeader)
    requires |t| >= REC_HEADER_SIZE && RecFits(r)
    ensures RecOf(WithRec(t, r)) == r
  {
    Fields4(WithRec(t, r), Enc(r.trx, 8), Enc(r.rollPage, 8), Enc(r.rollSlot, 4), Enc(r.flags, 2));
    DecEnc(r.trx, 8);
    DecEnc(r.rollPage, 8);
    DecEnc(r.rollSlot, 4);
    DecEnc(r.flags, 2);
  }

  lemma {:induction false} Join4(t: seq<byte>)
    requires |t| >= 22
    ensures t[0..8] + t[8..16] + t[16..20] + t[20..22] == t[..22]
  {
  }

  lemma {:induction false} RecBytesOf(t: seq<byte>)
    requires |t| >= REC_HEADER_SIZE
    ensures RecBytes(RecOf(t)) == t[..REC_HEADER_SIZE] && RecFits(RecOf(t))
  {
    EncDec(t[0..8]);
    EncDec(t[8..16]);
    EncDec(t[16..20]);
    EncDec(t[20..22]);
    Join4(t);
  }

  lemma {:induction false} FourParts(t: seq<byte>, a: seq<byte>, d: seq<byte>)
    requires |t| >= 22 && |a| == 20 && a == t[..20] && |d| == 2
    ensures Splice(t, 20, d) == Splice(t, 0, a + d)
  {
  }

  /** Writing the two flag bytes alone. */
  lemma {:induction false} FlagsWritten(t: seq<byte>, flags: nat)
    requires |t| >= REC_HEADER_SIZE
    ensures Splice(t, 20, Enc(flags, 2)) == WithRec(t, RecOf(t).(flags := flags))
  {
    var r := RecOf(t);
    RecBytesOf(t);
    var a := Enc(r.trx, 8) + Enc(r.rollPage, 8) + Enc(r.rollSlot, 4);
    assert RecBytes(r)[..20] == a;
    FourParts(t, a, Enc(flags, 2));
  }

  // ----- Edits through a slot, on the bytes ---------------------------------------------------

  /** Row `row` has a slot, and its record header lies between the page header and the slots. */
  predicate SlotHolds(b: seq<byte>, row: nat) {
    && |b| == PAGE_SIZE && 1 <= row <= HeaderOf(b).rows <= PAGE_SIZE / 4
    && HEADER_SIZE <= U16(b, SlotOffset(row))
    && U16(b, SlotOffset(row)) + REC_HEADER_SIZE <= SlotOffset(HeaderOf(b).rows)
  }

  function RecAt(b: seq<byte>, row: nat): RecHeader
    requires SlotHolds(b, row)
  {
    var off := U16(b, SlotOffset(row));
    RecOf(b[off..off + REC_HEADER_SIZE])
  }

  /** MarkDelete on the bytes. */
  function MarkDeleted(b: seq<byte>, row: nat, trx: nat, rollPage: nat, rollSlot: nat): (b': seq<byte>)
    requires SlotHolds(b, row)
    ensures |b'| == PAGE_SIZE
  {
    var flags := RecAt(b, row).flags;
    if HasDel(flags) then b
    else Splice(b, U16(b, SlotOffset(row)), RecBytes(RecHeader(trx, rollPage, rollSlot, SetDel(flags))))
  }

  lemma {:induction false} SlotsHold(b: seq<byte>, h: PageHeader, ts: seq<seq<byte>>, row: nat)
    requires Represents(b, h, ts) && 1 <= row <= |ts| && |ts[row - 1]| >= REC_HEADER_SIZE
    ensures SlotHolds(b, row) && U16(b, SlotOffset(row)) == Start(ts, row - 1) && RecAt(b, row) == RecOf(ts[row - 1])
  {
    HeaderReads(b, h, ts);
    SlotThere(b, h, ts, row);
    HeaderCut(b, Start(ts, row - 1), ts[row - 1]);
  }

  lemma {:induction false} SlotThere(b: seq<byte>, h: PageHeader, ts: seq<seq<byte>>, row: nat)
    requires Represents(b, h, ts) && 1 <= row <= |ts| && |ts[row - 1]| >= REC_HEADER_SIZE
    ensures var a := Start(ts, row - 1);
      && 1 <= row <= h.rows <= PAGE_SIZE / 4 && U16(b, SlotOffset(row)) == a && HEADER_SIZE <= a
      && a + REC_HEADER_SIZE <= a + |ts[row - 1]| <= SlotOffset(h.rows) <= PAGE_SIZE
      && b[a..a + |ts[row - 1]|] == ts[row - 1]
  {
    TupleReads(b, h, ts, row);
    Disjoint(ts, row - 1);
  }

  /** MarkDelete's write, in terms of what the page represents. */
  lemma {:induction false} MarkedBytes(b: seq<byte>, h: PageHeader, ts: seq<seq<byte>>, row: nat, trx: nat,
      rollPage: nat, rollSlot: nat, flags: nat)
    requires Represents(b, h, ts) && 1 <= row <= |ts| && |ts[row - 1]| >= REC_HEADER_SIZE
    requires flags == RecOf(ts[row - 1]).flags
    ensures SlotHolds(b, row) && Start(ts, row - 1) + REC_HEADER_SIZE <= PAGE_SIZE
    ensures MarkDeleted(b, row, trx, rollPage, rollSlot) ==
            if HasDel(flags) then b
            else Splice(b, Start(ts, row - 1), RecBytes(RecHeader(trx, rollPage, rollSlot, SetDel(flags))))
  {
    SlotsHold(b, h, ts, row);
  }

  lemma {:induction false} HeaderCut(b: seq<byte>, off: nat, t: seq<byte>)
    requires off + |t| <= |b| && |t| >= REC_HEADER_SIZE && b[off..off + |t|] == t
    ensures RecOf(b[off..off + REC_HEADER_SIZE]) == RecOf(t)
  {
    assert b[off..off + REC_HEADER_SIZE] == t[..REC_HEADER_SIZE];
    CutFields(t);
  }

  lemma {:induction false} CutFields(t: seq<byte>)
    requires |t| >= 22
    ensures var c := t[..22];
      c[0..8] == t[0..8] && c[8..16] == t[8..16] && c[16..20] == t[16..20] && c[20..22] == t[20..22]
  {
  }

  // ----- The page object ----------------------------------------------------------------------

  /** Nothing outside the 22-byte record header at `start` differs. */
  ghost predicate TouchesOnly(b: seq<byte>, b': seq<byte>, start: nat) {
    |b'| == |b| && forall i :: 0 <= i < |b| && !(start <= i < start + REC_HEADER_SIZE) ==> b'[i] == b[i]
  }

  /** The constructor's loop over the slots. */
  method TupleSizes(b: seq<byte>, rows: nat, ghost h: PageHeader, ghost ts: seq<seq<byte>>) returns (sum: nat)
    requires Represents(b, h, ts) && rows == |ts|
    ensures HEADER_SIZE + sum == Start(ts, |ts|)
  {
    sum := 0;
    for i := 0 to rows
      invariant HEADER_SIZE + sum == Start(ts, i)
    {
      TupleReads(b, h, ts, i + 1);
      sum := sum + U16(b, SlotOffset(i + 1) + 2);
    }
  }

  /** InsertTuple's writes: slot, tuple, header. */
  method Place(data: array<byte>, slot: nat, off: nat, t: seq<byte>, h: PageHeader)
    requires slot + 4 <= data.Length && off + |t| <= data.Length && 30 <= data.Length
    modifies data
    ensures data[..] == Inserted(old(data[..]), slot, SlotBytes(off, |t|), off, t, HeaderBytes(h))
  {
    Memcpy(data, slot, SlotBytes(off, |t|));
    Memcpy(data, off, t);
    Memcpy(data, 0, HeaderBytes(h));
  }

  /** Where InsertTuple puts the next tuple: behind the last one. */
  method NextOffset(b: seq<byte>, rows: nat, ghost h: PageHeader, ghost ts: seq<seq<byte>>) returns (off: nat)
    requires Represents(b, h, ts) && rows == |ts|
    ensures off == Start(ts, |ts|)
  {
    off := HEADER_SIZE;
    if rows > 0 {
      TupleReads(b, h, ts, rows);
      off := U16(b, SlotOffset(rows)) + U16(b, SlotOffset(rows) + 2);
    }
  }

  class Page {
    var data: array<byte>
    var header: PageHeader
    var freeSize: int
    var dirty: bool
    ghost var tuples: seq<seq<byte>>

    ghost predicate Valid()
      reads this, data
    {
      data.Length == PAGE_SIZE && Represents(data[..], header, tuples) && freeSize == Free(tuples)
    }

    /** A row the caller may name: its slot exists and it holds a record header. */
    ghost predicate IsRow(row: nat)
      reads this
    {
      1 <= row <= |tuples| && |tuples[row - 1]| >= REC_HEADER_SIZE
    }

    /** TablePage(..., read = false). */
    constructor Create(buffer: array<byte>, id: nat)
      requires buffer.Length == PAGE_SIZE && id < Range(8)
      modifies buffer
      ensures Valid() && data == buffer && dirty
      ensures header == PageHeader(0, 0, id, 0, 0) && tuples == []
    {
      data := buffer;
      header := PageHeader(0, 0, id, 0, 0);
      freeSize := PAGE_SIZE - HEADER_SIZE;
      dirty := true;
      tuples := [];
      new;
      EmptyPage(data[..], id);
      Memcpy(data, 0, HeaderBytes(header));
    }

    /** TablePage(..., read = true): whatever page the bytes are, this recovers it. */
    constructor Open(buffer: array<byte>, ghost h: PageHeader, ghost ts: seq<seq<byte>>)
      requires buffer.Length == PAGE_SIZE && Represents(buffer[..], h, ts)
      ensures Valid() && data == buffer && !dirty
      ensures header == h && tuples == ts && freeSize == Free(ts)
    {
      data := buffer;
      header := HeaderOf(buffer[..]);
      freeSize := PAGE_SIZE - HEADER_SIZE;
      dirty := false;
      tuples := ts;
      new;
      HeaderReads(data[..], h, ts);
      var sum := TupleSizes(data[..], header.rows, h, ts);
      freeSize := freeSize - (4 * header.rows + sum);
    }

    method HasSpaceFor(size: nat) returns (yes: bool)
      requires Valid()
      ensures yes <==> size + SLOT_SIZE <= Free(tuples)
    {
      yes := size + SLOT_SIZE <= freeSize;
    }

    /** Appends the tuple, or fails exactly when there is no room; `delta` is what UpdateTableRows is told. */
    method InsertTuple(t: seq<byte>) returns (ok: bool, row: nat, delta: int)
      requires Valid()
      modifies this, data
      ensures Valid() && data == old(data)
      ensures ok <==> |t| + SLOT_SIZE <= old(Free(tuples))
      ensures delta == if ok then 1 else 0
      ensures ok ==> tuples == old(tuples) + [t] && row == |tuples| && dirty && header == old(header).(rows := row)
      ensures !ok ==> tuples == old(tuples) && header == old(header) && data[..] == old(data[..]) && dirty == old(dirty)
    {
      row, delta := 0, 0;
      ok := |t| + SLOT_SIZE <= freeSize;
      if !ok { return; }
      TupleInserted(data[..], header, tuples, t);
      StartAppend(tuples, t, |tuples|);
      var off := NextOffset(data[..], header.rows, header, tuples);
      freeSize := freeSize - (4 + |t|);
      header := header.(rows := header.rows + 1);
      tuples := tuples + [t];
      row := header.rows;
      Place(data, SlotOffset(row), off, t, header);
      dirty := true;
      delta := 1;
    }

    method GetTuple(row: nat) returns (t: seq<byte>)
      requires Valid() && 1 <= row <= |tuples|
      ensures t == tuples[row - 1]
    {
      TupleReads(data[..], header, tuples, row);
      var off, size := U16(data[..], SlotOffset(row)), U16(data[..], SlotOffset(row) + 2);
      t := data[off..off + size];
    }

    /** ReadRecordTrxId, ReadRecordRollPtr and ReadRecordFlags. */
    method ReadRecord(row: nat) returns (r: RecHeader)
      requires Valid() && IsRow(row)
      ensures r == RecOf(tuples[row - 1])
    {
      var t := GetTuple(row);
      r := RecOf(t);
    }

    /** Writes into one record: nothing else changes. */
    method PutRecord(row: nat, o: nat, s: seq<byte>, ghost p: nat)
      requires Valid() && IsRow(row) && o + |s| <= REC_HEADER_SIZE && p == Start(tuples, row - 1) + o
      modifies this`tuples, this`dirty, data
      ensures Valid() && dirty
      ensures tuples == old(tuples)[row - 1 := Splice(old(tuples)[row - 1], o, s)]
      ensures p + |s| <= PAGE_SIZE && data[..] == Splice(old(data[..]), p, s)
    {
      TupleReads(data[..], header, tuples, row);
      TupleEdited(data[..], header, tuples, row - 1, o, s, p);
      var at := U16(data[..], SlotOffset(row)) + o;
      assert at == p;
      Memcpy(data, at, s);
      tuples := tuples[row - 1 := Splice(tuples[row - 1], o, s)];
      dirty := true;
    }

    /** `delta` is what UpdateTableRows is told; 0 when it is not called. */
    method MarkDelete(row: nat, trx: nat, rollPage: nat, rollSlot: nat) returns (delta: int)
      requires Valid() && IsRow(row)
      requires trx < Range(8) && rollPage < Range(8) && rollSlot < Range(4)
      modifies this`tuples, this`dirty, data
      ensures Valid()
      ensures tuples == old(tuples)[row - 1 := Deleted(old(tuples)[row - 1], trx, rollPage, rollSlot)]
      ensures TouchesOnly(old(data[..]), data[..], old(Start(tuples, row - 1)))
      ensures old(SlotHolds(data[..], row)) && data[..] == MarkDeleted(old(data[..]), row, trx, rollPage, rollSlot)
      ensures delta == if HasDel(RecOf(old(tuples)[row - 1]).flags) then 0 else -1
      ensures delta == 0 ==> data[..] == old(data[..]) && dirty == old(dirty)
      ensures delta != 0 ==> dirty
    {
      var r := ReadRecord(row);
      MarkedBytes(data[..], header, tuples, row, trx, rollPage, rollSlot, r.flags);
      delta := 0;
      if !HasDel(r.flags) {
        PutRecord(row, 0, RecBytes(RecHeader(trx, rollPage, rollSlot, SetDel(r.flags))), Start(tuples, row - 1));
        delta := -1;
      }
    }

    method RestoreRecord(row: nat, r: RecHeader) returns (delta: int)
      requires Valid() && IsRow(row) && RecFits(r)
      modifies this`tuples, this`dirty, data
      ensures Valid() && dirty
      ensures tuples == old(tuples)[row - 1 := WithRec(old(tuples)[row - 1], r)]
      ensures TouchesOnly(old(data[..]), data[..], old(Start(tuples, row - 1)))
      ensures delta == if HasDel(RecOf(old(tuples)[row - 1]).flags) && !HasDel(r.flags) then 1 else 0
    {
      var was := ReadRecord(row);
      PutRecord(row, 0, RecBytes(r), Start(tuples, row - 1));
      delta := if HasDel(was.flags) && !HasDel(r.flags) then 1 else 0;
    }

    method MarkDead(row: nat) returns (delta: int)
      requires Valid() && IsRow(row)
      modifies this`tuples, this`dirty, data
      ensures Valid() && dirty
      ensures tuples == old(tuples)[row - 1 := Killed(old(tuples)[row - 1])]
      ensures TouchesOnly(old(data[..]), data[..], old(Start(tuples, row - 1)))
      ensures delta == if Live(RecOf(old(tuples)[row - 1])) then -1 else 0
    {
      var r := ReadRecord(row);
      FlagsWritten(tuples[row - 1], SetDead(r.flags));
      PutRecord(row, 20, Enc(SetDead(r.flags), 2), Start(tuples, row - 1) + 20);
      delta := if Live(r) then -1 else 0;
    }

    method SetLsn(lsn: nat)
      requires Valid() && lsn < Range(8)
      modifies this`header, this`dirty, data
      ensures Valid() && dirty && header == old(header).(lsn := lsn)
      ensures data[..] == WriteHeader(old(data[..]), header)
    {
      HeaderWritten(data[..], header, header.(lsn := lsn), tuples);
      header := header.(lsn := lsn);
      Memcpy(data, 0, HeaderBytes(header));
      dirty := true;
    }

    method SetNextPageId(next: nat)
      requires Valid() && next < Range(8)
      modifies this`header, this`dirty, data
      ensures Valid() && dirty && header == old(header).(next := next)
      ensures data[..] == WriteHeader(old(data[..]), header)
    {
      HeaderWritten(data[..], header, header.(next := next), tuples);
      header := header.(next := next);
      Memcpy(data, 0, HeaderBytes(header));
      dirty := true;
    }
  }

  /** A record with neither flag: the ones the table's row count is about. */
  predicate Live(r: RecHeader) { !HasDel(r.flags) && !HasDead(r.flags) }

  /** MarkDelete on a tuple: an already deleted one stays as it is. */
  function Deleted(t: seq<byte>, trx: nat, rollPage: nat, rollSlot: nat): (t': seq<byte>)
    requires |t| >= REC_HEADER_SIZE
    ensures |t'| == |t|
  {
    if HasDel(RecOf(t).flags) then t else WithRec(t, RecHeader(trx, rollPage, rollSlot, SetDel(RecOf(t).flags)))
  }

  /** MarkDead on a tuple. */
  function Killed(t: seq<byte>): (t': seq<byte>)
    requires |t| >= REC_HEADER_SIZE
    ensures |t'| == |t|
  {
    WithRec(t, RecOf(t).(flags := SetDead(RecOf(t).flags)))
  }

  lemma {:induction false} Half(n: nat, k: nat, b: nat)
    requires n == 2 * k + b && b < 2
    ensures n / 2 == k && n % 2 == b
  {
  }

  /** The two low bits of the flags. */
  lemma {:induction false} FlagBits(flags: nat, q: nat, dead: nat, del: nat)
    requires flags == 4 * q + 2 * dead + del && dead < 2 && del < 2
    ensures (HasDel(flags) <==> del == 1) && (HasDead(flags) <==> dead == 1)
  {
    Half(flags, 2 * q + dead, del);
    Half(2 * q + dead, q, dead);
  }

  lemma {:induction false} SetDelFits(flags: nat)
    requires flags < Range(2)
    ensures SetDel(flags) < Range(2) && HasDel(SetDel(flags)) && HasDead(SetDel(flags)) == HasDead(flags)
    ensures SetDel(flags) / 2 == flags / 2
  {
    Widths();
    var q, dead, del := flags / 2 / 2, flags / 2 % 2, flags % 2;
    FlagBits(flags, q, dead, del);
    FlagBits(4 * q + 2 * dead + 1, q, dead, 1);
  }

  lemma {:induction false} SetDeadFits(flags: nat)
    requires flags < Range(2)
    ensures SetDead(flags) < Range(2) && HasDead(SetDead(flags)) && HasDel(SetDead(flags)) == HasDel(flags)
    ensures SetDead(flags) / 4 == flags / 4
  {
    Widths();
    var q, dead, del := flags / 2 / 2, flags / 2 % 2, flags % 2;
    FlagBits(flags, q, dead, del);
    FlagBits(4 * q + 2 + del, q, 1, del);
  }

  /**
   What the edits mean for the record they touch. Deleting twice is deleting once; a restore undoes
   a delete bit for bit; a dead record is never live again by a delete.
   */
  lemma {:induction false} DeletedReads(t: seq<byte>, trx: nat, rollPage: nat, rollSlot: nat)
    requires |t| >= REC_HEADER_SIZE && trx < Range(8) && rollPage < Range(8) && rollSlot < Range(4)
    ensures HasDel(RecOf(Deleted(t, trx, rollPage, rollSlot)).flags)
    ensures !HasDel(RecOf(t).flags) ==>
              var r := RecOf(Deleted(t, trx, rollPage, rollSlot));
              && r.trx == trx && r.rollPage == rollPage && r.rollSlot == rollSlot
              && HasDead(r.flags) == HasDead(RecOf(t).flags)
    ensures forall x, p, s ::
            Deleted(Deleted(t, trx, rollPage, rollSlot), x, p, s) == Deleted(t, trx, rollPage, rollSlot)
  {
    RecBytesOf(t);
    SetDelFits(RecOf(t).flags);
    RecReads(t, RecHeader(trx, rollPage, rollSlot, SetDel(RecOf(t).flags)));
  }

  lemma {:induction false} RestoreUndoes(t: seq<byte>, r: RecHeader)
    requires |t| >= REC_HEADER_SIZE
    ensures WithRec(WithRec(t, r), RecOf(t)) == t
  {
    RecBytesOf(t);
  }

  lemma {:induction false} KilledReads(t: seq<byte>)
    requires |t| >= REC_HEADER_SIZE
    ensures RecOf(Killed(t)) == RecOf(t).(flags := SetDead(RecOf(t).flags)) && !Live(RecOf(Killed(t)))
  {
    RecBytesOf(t);
    SetDeadFits(RecOf(t).flags);
    RecReads(t, RecOf(t).(flags := SetDead(RecOf(t).flags)));
  }
}
