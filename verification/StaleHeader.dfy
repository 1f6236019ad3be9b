/**
 Two TablePage objects over one page. Each keeps the page header it loaded, and every write of a header
 writes all of it back. A statement that holds its object while another one inserts into the page
 takes the page back to the rows and the link of the time when it loaded them.
 */
module StaleHeader {
  import opened Common
  import opened Bytes
  import opened TablePage

  lemma {:induction false} StartPrefix(ts: seq<seq<byte>>, n: nat, i: nat)
    requires i <= n <= |ts|
    ensures Start(ts[..n], i) == Start(ts, i)
  {
    if i > 0 { StartPrefix(ts, n, i - 1); }
  }

  lemma {:induction false} FreePrefix(ts: seq<seq<byte>>, n: nat)
    requires n <= |ts| && Free(ts) >= 0
    ensures Free(ts[..n]) >= 0
  {
    StartPrefix(ts, n, n);
    StartGrows(ts, n, |ts|);
  }

  lemma {:induction false} LayoutPrefix(b: seq<byte>, head: seq<byte>, ts: seq<seq<byte>>, n: nat)
    requires Layout(b, head, ts) && n <= |ts|
    ensures Layout(b, head, ts[..n])
  {
    FreePrefix(ts, n);
    forall i {:trigger SlotOk(b, ts[..n], i)} | 0 <= i < n ensures SlotOk(b, ts[..n], i) {
      assert SlotOk(b, ts, i);
      StartPrefix(ts, n, i);
    }
  }

  /** The page is what the stale header says: the rows it counts, behind its link. */
  lemma {:induction false} StaleWrite(b: seq<byte>, h: PageHeader, ts: seq<seq<byte>>, stale: PageHeader)
    requires Represents(b, h, ts) && HeaderFits(stale) && stale.rows <= |ts|
    ensures Represents(WriteHeader(b, stale), stale, ts[..stale.rows])
  {
    HeaderLayout(b, HeaderBytes(h), HeaderBytes(stale), ts);
    LayoutPrefix(WriteHeader(b, stale), HeaderBytes(stale), ts, stale.rows);
  }

  /**
   SetLsn through an object that loaded the header `stale` earlier: it sets the page's LSN and nothing
   else if and only if, but for the LSN, the header is still the one it loaded.
   */
  lemma {:induction false} SetLsnExact(b: seq<byte>, h: PageHeader, ts: seq<seq<byte>>, stale: PageHeader, lsn: nat)
    requires Represents(b, h, ts) && HeaderFits(stale) && stale.rows <= |ts| && lsn < Range(8)
    ensures Represents(WriteHeader(b, stale.(lsn := lsn)), h.(lsn := lsn), ts) <==> stale.(lsn := h.lsn) == h
  {
    var s := stale.(lsn := lsn);
    StaleWrite(b, h, ts, s);
    if Represents(WriteHeader(b, s), h.(lsn := lsn), ts) {
      RepresentsOne(WriteHeader(b, s), s, ts[..s.rows], h.(lsn := lsn), ts);
    }
    if stale.(lsn := h.lsn) == h { assert ts[..s.rows] == ts; }
  }

  lemma {:induction false} HeadHidden(x: seq<byte>, y: seq<byte>, p: nat, s: seq<byte>, off: nat, t: seq<byte>,
      head: seq<byte>)
    requires |x| == |y| && |head| == 30 && p + |s| <= |x| && off + |t| <= |x| && 30 <= |x|
    requires forall i :: 30 <= i < |x| ==> x[i] == y[i]
    ensures Inserted(x, p, s, off, t, head) == Inserted(y, p, s, off, t, head)
  {
  }

  /** InsertTuple through such an object: the tuple takes the place of those that were added since. */
  lemma {:induction false} StaleInsert(b: seq<byte>, h: PageHeader, ts: seq<seq<byte>>, stale: PageHeader, t: seq<byte>)
    requires Represents(b, h, ts) && HeaderFits(stale) && stale.rows <= |ts|
    requires |t| + SLOT_SIZE <= Free(ts[..stale.rows])
    ensures var kept := ts[..stale.rows];
      && Start(kept, |kept|) + |t| <= PAGE_SIZE && 4 * (stale.rows + 1) <= PAGE_SIZE
      && Represents(Insert(b, stale, Start(kept, |kept|), t), stale.(rows := stale.rows + 1), kept + [t])
  {
    var kept, b0 := ts[..stale.rows], WriteHeader(b, stale);
    StaleWrite(b, h, ts, stale);
    TupleInserted(b0, stale, kept, t);
    HeadHidden(b, b0, SlotOffset(stale.rows + 1), SlotBytes(Start(kept, |kept|), |t|), Start(kept, |kept|), t,
               HeaderBytes(stale.(rows := stale.rows + 1)));
  }

  /** A DELETE holds the page, an INSERT puts a tuple on it, the DELETE sets its LSN: the tuple is lost. */
  method InsertIsLost(buffer: array<byte>, t: seq<byte>, lsn: nat, ghost h: PageHeader, ghost ts: seq<seq<byte>>)
    requires buffer.Length == PAGE_SIZE && Represents(buffer[..], h, ts) && |t| + SLOT_SIZE <= Free(ts)
    requires lsn < Range(8)
    modifies buffer
    ensures Represents(buffer[..], h.(lsn := lsn), ts)
  {
    HeaderReads(buffer[..], h, ts);
    var held := HeaderOf(buffer[..]);
    var page := new Page.Open(buffer, h, ts);
    var ok, row, delta := page.InsertTuple(t);
    assert ok && page.tuples == ts + [t];
    StaleWrite(buffer[..], page.header, page.tuples, held.(lsn := lsn));
    assert (ts + [t])[..|ts|] == ts;
    Memcpy(buffer, 0, HeaderBytes(held.(lsn := lsn)));
  }
}
