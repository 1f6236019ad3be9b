/**
 RecoveryManager::Redo: replaying data records on page bytes, guarded by each page's LSN. An
 interrupted replay may be started again from the beginning, any number of times.
 */
module Redo {
  import opened Common
  import opened Bytes
  import opened LogCodec
  import opened TablePage

  /** The data pages by id, and the catalogue's row count of every table. */
  datatype Image = Image(pages: map<nat, seq<byte>>, rows: map<nat, nat>)

  predicate For(r: LogRec, id: nat) {
    r.kind in [INSERT_ROW, UPDATE_ROW, DELETE_ROW] && Decodable(r.payload) && id == DecodePayload(r.payload).page
  }

  /** The page a record is replayed on; page id 0 and pages that cannot be fetched are skipped. */
  predicate Targets(s: Image, r: LogRec, id: nat) { For(r, id) && id != 0 && id in s.pages }

  function PageLsn(b: seq<byte>): nat
    requires |b| == PAGE_SIZE
  {
    HeaderOf(b).lsn
  }

  /** MetaPage::UpdateTableRows: a count never drops below zero. */
  function AddRows(rows: map<nat, nat>, table: nat, delta: int): map<nat, nat>
    requires table in rows
  {
    rows[table := ClampedSum(rows[table], delta)]
  }

  /** What the log promises of a data record: it decodes, and a delete names an existing slot and table. */
  predicate Addressed(s: Image, r: LogRec) {
    IsData(r.kind) ==>
      && Decodable(r.payload) && r.lsn < Range(8) && r.tx < Range(8)
      && var p := DecodePayload(r.payload);
         p.page != 0 && p.page in s.pages ==>
           && |s.pages[p.page]| == PAGE_SIZE
           && (r.kind == DELETE_ROW ==> SlotHolds(s.pages[p.page], p.row) && p.table in s.rows)
  }

  ghost predicate AllAddressed(s: Image, log: seq<LogRec>) {
    forall i :: 0 <= i < |log| ==> Addressed(s, log[i])
  }

  /** One record on one page whose LSN is behind it. */
  function RedoPage(b: seq<byte>, r: LogRec, row: nat): (b': seq<byte>)
    requires |b| == PAGE_SIZE && (r.kind == DELETE_ROW ==> SlotHolds(b, row))
    ensures |b'| == PAGE_SIZE
  {
    WriteHeader(if r.kind == DELETE_ROW then MarkDeleted(b, row, r.tx, 0, 0) else b, HeaderOf(b).(lsn := r.lsn))
  }

  function RedoRows(s: Image, r: LogRec): map<nat, nat>
    requires Addressed(s, r) && IsData(r.kind) && Targets(s, r, DecodePayload(r.payload).page)
  {
    var p := DecodePayload(r.payload);
    if r.kind == DELETE_ROW && !HasDel(RecAt(s.pages[p.page], p.row).flags) then AddRows(s.rows, p.table, -1)
    else s.rows
  }

  function RedoRec(s: Image, r: LogRec): Image
    requires Addressed(s, r)
  {
    if !IsData(r.kind) then s
    else
      var p := DecodePayload(r.payload);
      if p.page == 0 || p.page !in s.pages || PageLsn(s.pages[p.page]) >= r.lsn then s
      else Image(s.pages[p.page := RedoPage(s.pages[p.page], r, p.row)], RedoRows(s, r))
  }

  // ----- One step -----------------------------------------------------------------------------

  /** Nothing but one record header between page header and slots differs. */
  lemma {:induction false} RecordEdit(b: seq<byte>, b': seq<byte>, off: nat, row: nat)
    requires |b| == PAGE_SIZE == |b'| && HEADER_SIZE <= off && SlotHolds(b, row)
    requires off + REC_HEADER_SIZE <= SlotOffset(HeaderOf(b).rows) && TouchesOnly(b, b', off)
    ensures HeaderOf(b') == HeaderOf(b) && SlotHolds(b', row)
  {
    SameHead(b, b');
    assert SlotOffset(row) >= SlotOffset(HeaderOf(b).rows);
  }

  lemma {:induction false} SameHead(b: seq<byte>, b': seq<byte>)
    requires |b| == PAGE_SIZE == |b'| && forall i :: 0 <= i < 30 ==> b'[i] == b[i]
    ensures HeaderOf(b') == HeaderOf(b)
  {
    assert b[0..2] == b'[0..2] && b[2..6] == b'[2..6] && b[6..14] == b'[6..14] && b[14..22] == b'[14..22]
        && b[22..30] == b'[22..30];
  }

  lemma {:induction false} HeadWritten(b: seq<byte>, h: PageHeader)
    requires |b| == PAGE_SIZE && HeaderFits(h)
    ensures HeaderOf(WriteHeader(b, h)) == h
  {
    Fields5(WriteHeader(b, h), Enc(h.version, 2), Enc(h.rows, 4), Enc(h.pageId, 8), Enc(h.next, 8), Enc(h.lsn, 8));
    DecEnc(h.version, 2);
    DecEnc(h.rows, 4);
    DecEnc(h.pageId, 8);
    DecEnc(h.next, 8);
    DecEnc(h.lsn, 8);
  }

  lemma {:induction false} HeadWrittenKeeps(b: seq<byte>, h: PageHeader, row: nat)
    requires |b| == PAGE_SIZE && HeaderFits(h) && h.rows == HeaderOf(b).rows && SlotHolds(b, row)
    ensures SlotHolds(WriteHeader(b, h), row)
  {
    HeadWritten(b, h);
    assert SlotOffset(row) >= SlotOffset(HeaderOf(b).rows) >= HEADER_SIZE + REC_HEADER_SIZE;
    SlotBytesKept(b, HeaderBytes(h), SlotOffset(row));
  }

  lemma {:induction false} SlotBytesKept(b: seq<byte>, head: seq<byte>, p: nat)
    requires |head| == 30 <= p && p + 2 <= |b|
    ensures U16(Splice(b, 0, head), p) == U16(b, p)
  {
  }

  lemma {:induction false} DeletedKeeps(b: seq<byte>, at: nat, trx: nat, row: nat)
    requires SlotHolds(b, at) && SlotHolds(b, row)
    ensures HeaderOf(MarkDeleted(b, at, trx, 0, 0)) == HeaderOf(b) && SlotHolds(MarkDeleted(b, at, trx, 0, 0), row)
  {
    var b' := MarkDeleted(b, at, trx, 0, 0);
    if b' != b {
      RecordEdit(b, b', U16(b, SlotOffset(at)), row);
    }
  }

  lemma {:induction false} FitsHeader(b: seq<byte>)
    requires |b| == PAGE_SIZE
    ensures HeaderFits(HeaderOf(b))
  {
  }

  /** A replayed page has the record's LSN and still has its slots. */
  lemma {:induction false} RedoPageLsn(b: seq<byte>, r: LogRec, row: nat)
    requires |b| == PAGE_SIZE && (r.kind == DELETE_ROW ==> SlotHolds(b, row)) && r.lsn < Range(8)
    ensures PageLsn(RedoPage(b, r, row)) == r.lsn
  {
    FitsHeader(b);
    HeadWritten(if r.kind == DELETE_ROW then MarkDeleted(b, row, r.tx, 0, 0) else b, HeaderOf(b).(lsn := r.lsn));
  }

  lemma {:induction false} RedoPageKeeps(b: seq<byte>, r: LogRec, at: nat, row: nat)
    requires |b| == PAGE_SIZE && (r.kind == DELETE_ROW ==> SlotHolds(b, at)) && r.lsn < Range(8) && SlotHolds(b, row)
    ensures SlotHolds(RedoPage(b, r, at), row)
  {
    FitsHeader(b);
    if r.kind == DELETE_ROW {
      DeletedKeeps(b, at, r.tx, row);
      HeadWrittenKeeps(MarkDeleted(b, at, r.tx, 0, 0), HeaderOf(b).(lsn := r.lsn), row);
    } else {
      HeadWrittenKeeps(b, HeaderOf(b).(lsn := r.lsn), row);
    }
  }

  /** Replaying one record leaves every other record addressed. */
  lemma {:induction false} StaysAddressed(s: Image, r: LogRec, q: LogRec)
    requires Addressed(s, r) && Addressed(s, q)
    ensures Addressed(RedoRec(s, r), q)
  {
    if IsData(q.kind) && RedoRec(s, r) != s {
      var p, at := DecodePayload(q.payload), DecodePayload(r.payload);
      if p.page == at.page && q.kind == DELETE_ROW {
        RedoPageKeeps(s.pages[p.page], r, at.row, p.row);
      }
    }
  }

  // ----- Whole replays ------------------------------------------------------------------------

  /** Redo of a whole log: of all but its last record, then of that one. */
  function RedoAll(s: Image, log: seq<LogRec>): (s': Image)
    requires AllAddressed(s, log)
    ensures s'.pages.Keys == s.pages.Keys
    ensures forall q :: Addressed(s, q) ==> Addressed(s', q)
  {
    if log == [] then s
    else
      var m := RedoAll(s, log[..|log| - 1]);
      assert forall q :: Addressed(s, q) ==> Addressed(RedoRec(m, log[|log| - 1]), q) by {
        forall q | Addressed(s, q) ensures Addressed(RedoRec(m, log[|log| - 1]), q) {
          StaysAddressed(m, log[|log| - 1], q);
        }
      }
      RedoRec(m, log[|log| - 1])
  }

  function Max(a: nat, b: nat): nat { if a < b then b else a }

  /** The highest LSN among the records addressed to page `id`, or `floor`. */
  function TopLsn(log: seq<LogRec>, id: nat, floor: nat): nat {
    if log == [] then floor
    else
      var r, m := log[|log| - 1], TopLsn(log[..|log| - 1], id, floor);
      if For(r, id) then Max(m, r.lsn) else m
  }

  ghost predicate PagesSized(s: Image) { forall id :: id in s.pages ==> |s.pages[id]| == PAGE_SIZE }

  lemma {:induction false} RedoRecLsn(s: Image, r: LogRec, id: nat)
    requires Addressed(s, r) && PagesSized(s) && id in s.pages && id != 0
    ensures PagesSized(RedoRec(s, r)) && id in RedoRec(s, r).pages
    ensures PageLsn(RedoRec(s, r).pages[id]) ==
            if For(r, id) then Max(PageLsn(s.pages[id]), r.lsn) else PageLsn(s.pages[id])
  {
    if For(r, id) && PageLsn(s.pages[id]) < r.lsn {
      RedoPageLsn(s.pages[id], r, DecodePayload(r.payload).row);
    }
  }

  /** Each page's LSN ends as the maximum of where it began and the LSNs addressed to it. */
  lemma {:induction false} PageLsnIsMax(s: Image, log: seq<LogRec>, id: nat)
    requires AllAddressed(s, log) && PagesSized(s) && id in s.pages && id != 0
    ensures PagesSized(RedoAll(s, log))
    ensures PageLsn(RedoAll(s, log).pages[id]) == TopLsn(log, id, PageLsn(s.pages[id]))
  {
    if log != [] {
      var l, r := log[..|log| - 1], log[|log| - 1];
      PageLsnIsMax(s, l, id);
      RedoRecLsn(RedoAll(s, l), r, id);
    }
  }

  /** Every record of the log is at or behind the page it addresses. */
  ghost predicate Behind(s: Image, log: seq<LogRec>) {
    forall i, id :: 0 <= i < |log| && Targets(s, log[i], id) && |s.pages[id]| == PAGE_SIZE ==>
        log[i].lsn <= PageLsn(s.pages[id])
  }

  lemma {:induction false} TopCovers(log: seq<LogRec>, id: nat, floor: nat, i: nat)
    requires i < |log| && For(log[i], id)
    ensures log[i].lsn <= TopLsn(log, id, floor)
  {
    if i < |log| - 1 {
      assert log[..|log| - 1][i] == log[i];
      TopCovers(log[..|log| - 1], id, floor, i);
    }
  }

  lemma {:induction false} ReplayedIsBehind(s: Image, log: seq<LogRec>)
    requires AllAddressed(s, log) && PagesSized(s)
    ensures Behind(RedoAll(s, log), log)
  {
    var e := RedoAll(s, log);
    forall i, id | 0 <= i < |log| && Targets(e, log[i], id) && |e.pages[id]| == PAGE_SIZE
      ensures log[i].lsn <= PageLsn(e.pages[id])
    {
      PageLsnIsMax(s, log, id);
      TopCovers(log, id, PageLsn(s.pages[id]), i);
    }
  }

  /** Replaying records that are all behind changes nothing. */
  lemma {:induction false} BehindIsSkipped(s: Image, log: seq<LogRec>)
    requires AllAddressed(s, log) && Behind(s, log)
    ensures RedoAll(s, log) == s
  {
    if log != [] {
      var l, r := log[..|log| - 1], log[|log| - 1];
      assert forall i :: 0 <= i < |l| ==> l[i] == log[i];
      BehindIsSkipped(s, l);
      assert IsData(r.kind) && Decodable(r.payload) && Targets(s, r, DecodePayload(r.payload).page) ==>
        log[|log| - 1].lsn <= PageLsn(s.pages[DecodePayload(r.payload).page]);
    }
  }

  lemma {:induction false} StillAllAddressed(s: Image, done: seq<LogRec>, log: seq<LogRec>)
    requires AllAddressed(s, done) && AllAddressed(s, log)
    ensures AllAddressed(RedoAll(s, done), log)
  {
  }

  /** Replaying a log is replaying its parts one after the other. */
  lemma {:induction false} RedoAppend(s: Image, a: seq<LogRec>, b: seq<LogRec>)
    requires AllAddressed(s, a + b)
    ensures AllAddressed(s, a) && AllAddressed(RedoAll(s, a), b)
    ensures RedoAll(s, a + b) == RedoAll(RedoAll(s, a), b)
  {
    assert AllAddressed(s, a) by { forall i | 0 <= i < |a| ensures Addressed(s, a[i]) { assert a[i] == (a + b)[i]; } }
    assert AllAddressed(s, b) by {
      forall i | 0 <= i < |b| ensures Addressed(s, b[i]) { assert b[i] == (a + b)[|a| + i]; }
    }
    StillAllAddressed(s, a, b);
    if b == [] {
      assert a + b == a;
    } else {
      var c := b[..|b| - 1];
      assert (a + b)[..|a + b| - 1] == a + c;
      RedoAppend(s, a, c);
    }
  }

  /** An interrupted replay started over ends as one uninterrupted replay. */
  lemma {:induction false} RedoRestartable(s: Image, log: seq<LogRec>, k: nat)
    requires AllAddressed(s, log) && PagesSized(s) && k <= |log|
    ensures AllAddressed(s, log[..k]) && AllAddressed(RedoAll(s, log[..k]), log)
    ensures RedoAll(RedoAll(s, log[..k]), log) == RedoAll(s, log)
  {
    var a, b := log[..k], log[k..];
    assert log == a + b;
    RedoAppend(s, a, b);
    var m := RedoAll(s, a);
    StillAllAddressed(s, a, log);
    RedoAppend(m, a, b);
    ReplayedIsBehind(s, a);
    BehindIsSkipped(m, a);
  }

  /** Restarted any number of times, each attempt cut short anywhere. */
  function Attempts(s: Image, log: seq<LogRec>, cuts: seq<nat>): (s': Image)
    requires AllAddressed(s, log) && (forall i :: 0 <= i < |cuts| ==> cuts[i] <= |log|)
    ensures AllAddressed(s', log)
  {
    if cuts == [] then s
    else
      var m := Attempts(s, log, cuts[..|cuts| - 1]);
      StillAllAddressed(m, log[..cuts[|cuts| - 1]], log);
      RedoAll(m, log[..cuts[|cuts| - 1]])
  }

  lemma {:induction false} AttemptsSized(s: Image, log: seq<LogRec>, cuts: seq<nat>)
    requires AllAddressed(s, log) && PagesSized(s) && (forall i :: 0 <= i < |cuts| ==> cuts[i] <= |log|)
    ensures PagesSized(Attempts(s, log, cuts))
  {
    if cuts != [] {
      var d := cuts[..|cuts| - 1];
      AttemptsSized(s, log, d);
      RedoSized(Attempts(s, log, d), log[..cuts[|cuts| - 1]]);
    }
  }

  lemma {:induction false} RedoSized(s: Image, log: seq<LogRec>)
    requires AllAddressed(s, log) && PagesSized(s)
    ensures PagesSized(RedoAll(s, log))
  {
    if log != [] { RedoSized(s, log[..|log| - 1]); }
  }

  lemma {:induction false} AttemptsThenRedo(s: Image, log: seq<LogRec>, cuts: seq<nat>)
    requires AllAddressed(s, log) && PagesSized(s) && (forall i :: 0 <= i < |cuts| ==> cuts[i] <= |log|)
    ensures RedoAll(Attempts(s, log, cuts), log) == RedoAll(s, log)
  {
    if cuts != [] {
      var d, k := cuts[..|cuts| - 1], cuts[|cuts| - 1];
      AttemptsThenRedo(s, log, d);
      AttemptsSized(s, log, d);
      RedoRestartable(Attempts(s, log, d), log, k);
    }
  }

  // ----- What is deleted afterwards -----------------------------------------------------------

  ghost predicate Headed(ts: seq<seq<byte>>) { forall i :: 0 <= i < |ts| ==> |ts[i]| >= REC_HEADER_SIZE }

  /** The stored pages are table pages whose tuples all carry a record header. */
  ghost predicate PageOk(b: seq<byte>) { exists h, ts :: Represents(b, h, ts) && Headed(ts) }

  ghost predicate PagesOk(s: Image) { forall id :: id in s.pages ==> PageOk(s.pages[id]) }

  /** What a page represents after MarkDelete. */
  lemma {:induction false} MarkedTuples(b: seq<byte>, at: nat, tx: TxId, h: PageHeader, ts: seq<seq<byte>>)
    requires Represents(b, h, ts) && Headed(ts) && 1 <= at <= |ts|
    ensures SlotHolds(b, at) && Represents(MarkDeleted(b, at, tx, 0, 0), h, ts[at - 1 := Deleted(ts[at - 1], tx, 0, 0)])
  {
    var f := RecOf(ts[at - 1]).flags;
    MarkedBytes(b, h, ts, at, tx, 0, 0, f);
    if HasDel(f) {
      assert ts[at - 1 := ts[at - 1]] == ts;
    } else {
      TupleEdited(b, h, ts, at - 1, 0, RecBytes(RecHeader(tx, 0, 0, SetDel(f))), Start(ts, at - 1));
    }
  }

  /** What a replayed page represents. */
  lemma {:induction false} RedoPageTuples(b: seq<byte>, r: LogRec, at: nat, h: PageHeader, ts: seq<seq<byte>>)
    requires Represents(b, h, ts) && Headed(ts) && r.lsn < Range(8)
    requires r.kind == DELETE_ROW ==> 1 <= at <= |ts| && SlotHolds(b, at)
    ensures var ts' := if r.kind == DELETE_ROW then ts[at - 1 := Deleted(ts[at - 1], r.tx, 0, 0)] else ts;
      Headed(ts') && Represents(RedoPage(b, r, at), h.(lsn := r.lsn), ts')
  {
    HeaderReads(b, h, ts);
    if r.kind == DELETE_ROW {
      MarkedTuples(b, at, r.tx, h, ts);
      HeaderWritten(MarkDeleted(b, at, r.tx, 0, 0), h, h.(lsn := r.lsn), ts[at - 1 := Deleted(ts[at - 1], r.tx, 0, 0)]);
    } else {
      HeaderWritten(b, h, h.(lsn := r.lsn), ts);
    }
  }

  lemma {:induction false} RedoPageOk(b: seq<byte>, r: LogRec, at: nat)
    requires PageOk(b) && |b| == PAGE_SIZE && r.lsn < Range(8) && (r.kind == DELETE_ROW ==> SlotHolds(b, at))
    ensures PageOk(RedoPage(b, r, at))
  {
    var h, ts :| Represents(b, h, ts) && Headed(ts);
    HeaderReads(b, h, ts);
    RedoPageTuples(b, r, at, h, ts);
  }

  /** Replaying a record on its page deletes the row it names and no other. */
  lemma {:induction false} RedoPageDeletes(b: seq<byte>, r: LogRec, at: nat, row: nat)
    requires PageOk(b) && |b| == PAGE_SIZE && r.lsn < Range(8) && r.tx < Range(8) && SlotHolds(b, row)
    requires r.kind == DELETE_ROW ==> SlotHolds(b, at)
    ensures SlotHolds(RedoPage(b, r, at), row)
    ensures HasDel(RecAt(RedoPage(b, r, at), row).flags) <==>
              HasDel(RecAt(b, row).flags) || (r.kind == DELETE_ROW && at == row)
  {
    var h, ts :| Represents(b, h, ts) && Headed(ts);
    HeaderReads(b, h, ts);
    RedoPageTuples(b, r, at, h, ts);
    var ts' := if r.kind == DELETE_ROW then ts[at - 1 := Deleted(ts[at - 1], r.tx, 0, 0)] else ts;
    SlotsHold(b, h, ts, row);
    SlotsHold(RedoPage(b, r, at), h.(lsn := r.lsn), ts', row);
    if r.kind == DELETE_ROW {
      Widths();
      DeletedReads(ts[at - 1], r.tx, 0, 0);
    }
  }

  /** Some DELETE record of the row was ahead of every earlier record of the page, and of the page. */
  ghost predicate DeleteRuns(log: seq<LogRec>, id: nat, row: nat, floor: nat) {
    exists i :: 0 <= i < |log| && DeleteRunsAt(log, id, row, floor, i)
  }

  ghost predicate DeleteRunsAt(log: seq<LogRec>, id: nat, row: nat, floor: nat, i: int)
    requires 0 <= i < |log|
  {
    && For(log[i], id) && log[i].kind == DELETE_ROW && DecodePayload(log[i].payload).row == row
    && log[i].lsn > TopLsn(log[..i], id, floor)
  }

  lemma {:induction false} DeleteRunsSnoc(l: seq<LogRec>, r: LogRec, id: nat, row: nat, floor: nat)
    ensures DeleteRuns(l + [r], id, row, floor) <==>
              DeleteRuns(l, id, row, floor)
              || (For(r, id) && r.kind == DELETE_ROW && DecodePayload(r.payload).row == row
                  && r.lsn > TopLsn(l, id, floor))
  {
    var log := l + [r];
    assert log[..|l|] == l;
    forall i | 0 <= i < |l| ensures DeleteRunsAt(log, id, row, floor, i) <==> DeleteRunsAt(l, id, row, floor, i) {
      assert log[..i] == l[..i];
    }
    assert DeleteRunsAt(log, id, row, floor, |l|) <==>
      For(r, id) && r.kind == DELETE_ROW && DecodePayload(r.payload).row == row && r.lsn > TopLsn(l, id, floor);
  }

  lemma {:induction false} RedoRecDeletes(s: Image, r: LogRec, id: nat, row: nat)
    requires Addressed(s, r) && PagesOk(s) && PagesSized(s) && id in s.pages && id != 0 && SlotHolds(s.pages[id], row)
    ensures PagesOk(RedoRec(s, r)) && id in RedoRec(s, r).pages && SlotHolds(RedoRec(s, r).pages[id], row)
    ensures HasDel(RecAt(RedoRec(s, r).pages[id], row).flags) <==>
              HasDel(RecAt(s.pages[id], row).flags)
              || (For(r, id) && r.kind == DELETE_ROW && DecodePayload(r.payload).row == row
                  && r.lsn > PageLsn(s.pages[id]))
  {
    if For(r, id) && r.lsn > PageLsn(s.pages[id]) {
      RedoPageDeletes(s.pages[id], r, DecodePayload(r.payload).row, row);
    }
    RedoRecOk(s, r);
  }

  lemma {:induction false} RedoRecOk(s: Image, r: LogRec)
    requires Addressed(s, r) && PagesOk(s) && PagesSized(s)
    ensures PagesOk(RedoRec(s, r)) && PagesSized(RedoRec(s, r))
  {
    if RedoRec(s, r) != s {
      var p := DecodePayload(r.payload);
      RedoPageOk(s.pages[p.page], r, p.row);
    }
  }

  /** After a replay a row is deleted exactly when it was, or when one of its DELETE records ran. */
  lemma {:induction false} RedoDeletesExactly(s: Image, log: seq<LogRec>, id: nat, row: nat)
    requires AllAddressed(s, log) && PagesOk(s) && PagesSized(s) && id in s.pages && id != 0
    requires SlotHolds(s.pages[id], row)
    ensures var e := RedoAll(s, log);
      && PagesOk(e) && SlotHolds(e.pages[id], row)
      && (HasDel(RecAt(e.pages[id], row).flags) <==>
          HasDel(RecAt(s.pages[id], row).flags) || DeleteRuns(log, id, row, PageLsn(s.pages[id])))
  {
    if log != [] {
      var l, r := log[..|log| - 1], log[|log| - 1];
      assert log == l + [r];
      RedoDeletesExactly(s, l, id, row);
      PageLsnIsMax(s, l, id);
      RedoRecDeletes(RedoAll(s, l), r, id, row);
      DeleteRunsSnoc(l, r, id, row, PageLsn(s.pages[id]));
    }
  }

  // ----- What a page holds afterwards ---------------------------------------------------------

  /** The transaction of the first DELETE record of the row that ran. */
  ghost function Deleter(log: seq<LogRec>, id: nat, row: nat, floor: nat): Option<TxId> {
    if log == [] then None
    else
      var d, n := Deleter(log[..|log| - 1], id, row, floor), |log| - 1;
      if d.None? && DeleteRunsAt(log, id, row, floor, n) then Some(log[n].tx) else d
  }

  /** A tuple deleted by `d`, unless it was deleted already. */
  ghost function DeletedBy(t: seq<byte>, d: Option<TxId>): (t': seq<byte>)
    requires |t| >= REC_HEADER_SIZE
    ensures |t'| == |t|
  {
    if d.None? || HasDel(RecOf(t).flags) then t
    else WithRec(t, RecHeader(d.value, 0, 0, SetDel(RecOf(t).flags)))
  }

  ghost function TuplesAfter(ts: seq<seq<byte>>, log: seq<LogRec>, id: nat, floor: nat): (r: seq<seq<byte>>)
    requires Headed(ts)
    ensures |r| == |ts| && Headed(r)
  {
    seq(|ts|, i requires 0 <= i < |ts| => DeletedBy(ts[i], Deleter(log, id, i + 1, floor)))
  }

  lemma {:induction false} DeleterSnoc(l: seq<LogRec>, r: LogRec, id: nat, row: nat, floor: nat)
    ensures Deleter(l + [r], id, row, floor) ==
            if Deleter(l, id, row, floor).None? && For(r, id) && r.kind == DELETE_ROW
               && DecodePayload(r.payload).row == row && r.lsn > TopLsn(l, id, floor)
            then Some(r.tx) else Deleter(l, id, row, floor)
  {
    assert (l + [r])[..|l|] == l;
  }

  /** Deleting a tuple that some record may have deleted before. */
  lemma {:induction false} DeletedAgain(t: seq<byte>, d: Option<TxId>, tx: TxId)
    requires |t| >= REC_HEADER_SIZE && tx < Range(8) && (d.Some? ==> d.value < Range(8))
    ensures Deleted(DeletedBy(t, d), tx, 0, 0) == DeletedBy(t, if d.None? then Some(tx) else d)
  {
    Widths();
    RecBytesOf(t);
    SetDelFits(RecOf(t).flags);
    if d.Some? { RecReads(t, RecHeader(d.value, 0, 0, SetDel(RecOf(t).flags))); }
  }

  lemma {:induction false} DeleterFits(s: Image, log: seq<LogRec>, id: nat, row: nat, floor: nat)
    requires AllAddressed(s, log)
    ensures Deleter(log, id, row, floor).Some? ==> Deleter(log, id, row, floor).value < Range(8)
  {
    if log != [] {
      assert Addressed(s, log[|log| - 1]);
      DeleterFits(s, log[..|log| - 1], id, row, floor);
    }
  }

  lemma {:induction false} TuplesSnoc(s: Image, ts: seq<seq<byte>>, l: seq<LogRec>, r: LogRec, id: nat, floor: nat)
    requires Headed(ts) && AllAddressed(s, l) && Addressed(s, r)
    ensures var done := TuplesAfter(ts, l, id, floor);
      TuplesAfter(ts, l + [r], id, floor) ==
      if For(r, id) && r.kind == DELETE_ROW && r.lsn > TopLsn(l, id, floor) && 1 <= DecodePayload(r.payload).row <= |ts|
      then var k := DecodePayload(r.payload).row - 1; done[k := Deleted(done[k], r.tx, 0, 0)]
      else done
  {
    var runs := For(r, id) && r.kind == DELETE_ROW && r.lsn > TopLsn(l, id, floor);
    var row := if For(r, id) then DecodePayload(r.payload).row else 0;
    forall i | 0 <= i < |ts|
      ensures DeletedBy(ts[i], Deleter(l + [r], id, i + 1, floor)) ==
              var t := DeletedBy(ts[i], Deleter(l, id, i + 1, floor));
              if runs && row == i + 1 then Deleted(t, r.tx, 0, 0) else t
    {
      TupleSnoc(s, ts[i], l, r, id, i + 1, floor);
    }
  }

  lemma {:induction false} TupleSnoc(s: Image, t: seq<byte>, l: seq<LogRec>, r: LogRec, id: nat, row: nat, floor: nat)
    requires |t| >= REC_HEADER_SIZE && AllAddressed(s, l) && Addressed(s, r)
    ensures DeletedBy(t, Deleter(l + [r], id, row, floor)) ==
            var t' := DeletedBy(t, Deleter(l, id, row, floor));
            if For(r, id) && r.kind == DELETE_ROW && r.lsn > TopLsn(l, id, floor) && DecodePayload(r.payload).row == row
            then Deleted(t', r.tx, 0, 0) else t'
  {
    DeleterSnoc(l, r, id, row, floor);
    DeleterFits(s, l, id, row, floor);
    if For(r, id) { DeletedAgain(t, Deleter(l, id, row, floor), r.tx); }
  }

  lemma {:induction false} RedoRecPage(s: Image, r: LogRec, id: nat, h: PageHeader, ts: seq<seq<byte>>)
    requires Addressed(s, r) && id in s.pages && id != 0 && Represents(s.pages[id], h, ts) && Headed(ts)
    ensures id in RedoRec(s, r).pages
    ensures For(r, id) && r.kind == DELETE_ROW ==> 1 <= DecodePayload(r.payload).row <= |ts|
    ensures var ts' := if For(r, id) && r.kind == DELETE_ROW && r.lsn > h.lsn
                       then var k := DecodePayload(r.payload).row - 1; ts[k := Deleted(ts[k], r.tx, 0, 0)] else ts;
      Represents(RedoRec(s, r).pages[id], if For(r, id) then h.(lsn := Max(h.lsn, r.lsn)) else h, ts')
  {
    HeaderReads(s.pages[id], h, ts);
    if For(r, id) && r.lsn > h.lsn { RedoPageTuples(s.pages[id], r, DecodePayload(r.payload).row, h, ts); }
  }

  /**
   A replayed page, whole: its header with the highest LSN addressed to it, and its tuples, of which
   those undeleted before whose DELETE record ran name that record's transaction and no undo record.
   */
  lemma {:induction false} RedoPageExact(s: Image, log: seq<LogRec>, id: nat, h: PageHeader, ts: seq<seq<byte>>)
    requires AllAddressed(s, log) && id in s.pages && id != 0 && Represents(s.pages[id], h, ts) && Headed(ts)
    ensures Represents(RedoAll(s, log).pages[id], h.(lsn := TopLsn(log, id, h.lsn)), TuplesAfter(ts, log, id, h.lsn))
  {
    if log == [] {
      assert TuplesAfter(ts, log, id, h.lsn) == ts;
    } else {
      var l, r := log[..|log| - 1], log[|log| - 1];
      assert log == l + [r];
      RedoPageExact(s, l, id, h, ts);
      RedoRecPage(RedoAll(s, l), r, id, h.(lsn := TopLsn(l, id, h.lsn)), TuplesAfter(ts, l, id, h.lsn));
      TuplesSnoc(s, ts, l, r, id, h.lsn);
    }
  }

  // ----- Row counts ---------------------------------------------------------------------------

  /** After the records `l`, record `r` deletes a row of `table` that was not deleted and that none of them did. */
  ghost predicate TakesRow(s: Image, l: seq<LogRec>, r: LogRec, table: nat) {
    && r.kind == DELETE_ROW && Decodable(r.payload)
    && var p := DecodePayload(r.payload);
       && p.table == table && p.page != 0 && p.page in s.pages && SlotHolds(s.pages[p.page], p.row)
       && !HasDel(RecAt(s.pages[p.page], p.row).flags)
       && r.lsn > TopLsn(l, p.page, PageLsn(s.pages[p.page]))
       && !DeleteRuns(l, p.page, p.row, PageLsn(s.pages[p.page]))
  }

  /** The rows of a table, by page and slot, that a replay newly deletes. */
  ghost function NewlyDeleted(s: Image, log: seq<LogRec>, table: nat): set<(nat, nat)> {
    if log == [] then {}
    else
      var l, r := log[..|log| - 1], log[|log| - 1];
      NewlyDeleted(s, l, table) +
      if TakesRow(s, l, r, table) then {(DecodePayload(r.payload).page, DecodePayload(r.payload).row)} else {}
  }

  /** They are rows undeleted before whose DELETE record ran. */
  lemma {:induction false} NewlyDeletedRan(s: Image, log: seq<LogRec>, table: nat, id: nat, row: nat)
    requires (id, row) in NewlyDeleted(s, log, table)
    ensures id != 0 && id in s.pages && SlotHolds(s.pages[id], row) && !HasDel(RecAt(s.pages[id], row).flags)
    ensures DeleteRuns(log, id, row, PageLsn(s.pages[id]))
  {
    var l, r := log[..|log| - 1], log[|log| - 1];
    assert log == l + [r];
    if (id, row) in NewlyDeleted(s, l, table) { NewlyDeletedRan(s, l, table, id, row); }
    DeleteRunsSnoc(l, r, id, row, PageLsn(s.pages[id]));
  }

  /** And every such row is among those of the table its record names. */
  lemma {:induction false} RanIsNewlyDeleted(s: Image, log: seq<LogRec>, id: nat, row: nat) returns (table: nat)
    requires id != 0 && id in s.pages && SlotHolds(s.pages[id], row) && !HasDel(RecAt(s.pages[id], row).flags)
    requires DeleteRuns(log, id, row, PageLsn(s.pages[id]))
    ensures (id, row) in NewlyDeleted(s, log, table)
  {
    var l, r := log[..|log| - 1], log[|log| - 1];
    assert log == l + [r];
    DeleteRunsSnoc(l, r, id, row, PageLsn(s.pages[id]));
    if DeleteRuns(l, id, row, PageLsn(s.pages[id])) {
      table := RanIsNewlyDeleted(s, l, id, row);
    } else {
      table := DecodePayload(r.payload).table;
    }
  }

  lemma {:induction false} NewIsNew(s: Image, l: seq<LogRec>, r: LogRec, table: nat)
    requires TakesRow(s, l, r, table)
    ensures (DecodePayload(r.payload).page, DecodePayload(r.payload).row) !in NewlyDeleted(s, l, table)
  {
    var p := DecodePayload(r.payload);
    if (p.page, p.row) in NewlyDeleted(s, l, table) { NewlyDeletedRan(s, l, table, p.page, p.row); }
  }

  /** `count` less `n`, not below zero. */
  function Less(count: nat, n: nat): nat { if n <= count then count - n else 0 }

  lemma {:induction false} RedoRecCount(s: Image, l: seq<LogRec>, r: LogRec, table: nat)
    requires AllAddressed(s, l) && Addressed(s, r) && PagesOk(s) && PagesSized(s)
    ensures table in RedoRec(RedoAll(s, l), r).rows <==> table in RedoAll(s, l).rows
    ensures table in RedoAll(s, l).rows ==>
              RedoRec(RedoAll(s, l), r).rows[table] ==
              Less(RedoAll(s, l).rows[table], if TakesRow(s, l, r, table) then 1 else 0)
  {
    var m := RedoAll(s, l);
    if IsData(r.kind) {
      var p := DecodePayload(r.payload);
      if p.page != 0 && p.page in s.pages {
        PageLsnIsMax(s, l, p.page);
        if r.kind == DELETE_ROW { RedoDeletesExactly(s, l, p.page, p.row); }
      }
    }
  }

  /** After a replay a table has as many rows less as the replay newly deleted of it, and never less than none. */
  lemma {:induction false} RedoCounts(s: Image, log: seq<LogRec>, table: nat)
    requires AllAddressed(s, log) && PagesOk(s) && PagesSized(s)
    ensures table in RedoAll(s, log).rows <==> table in s.rows
    ensures table in s.rows ==> RedoAll(s, log).rows[table] == Less(s.rows[table], |NewlyDeleted(s, log, table)|)
  {
    if log != [] {
      var l, r := log[..|log| - 1], log[|log| - 1];
      RedoCounts(s, l, table);
      RedoRecCount(s, l, r, table);
      OneMoreDeleted(s, log, table, l, r);
    }
  }

  lemma {:induction false} OneMoreDeleted(s: Image, log: seq<LogRec>, table: nat, l: seq<LogRec>, r: LogRec)
    requires log != [] && l == log[..|log| - 1] && r == log[|log| - 1]
    ensures |NewlyDeleted(s, log, table)| == |NewlyDeleted(s, l, table)| + if TakesRow(s, l, r, table) then 1 else 0
  {
    if TakesRow(s, l, r, table) { NewIsNew(s, l, r, table); }
  }

  // ----- The loop -----------------------------------------------------------------------------

  /** Mark, then advance the page's LSN. */
  method Apply(page: Page, r: LogRec, row: nat) returns (delta: int)
    requires page.Valid() && Headed(page.tuples) && r.lsn < Range(8) && r.tx < Range(8)
    requires r.kind == DELETE_ROW ==> SlotHolds(page.data[..], row)
    modifies page, page.data
    ensures page.Valid() && Headed(page.tuples) && page.data == old(page.data)
    ensures page.data[..] == RedoPage(old(page.data[..]), r, row)
    ensures delta == if r.kind == DELETE_ROW && old(!HasDel(RecAt(page.data[..], row).flags)) then -1 else 0
  {
    HeaderReads(page.data[..], page.header, page.tuples);
    delta := 0;
    if r.kind == DELETE_ROW {
      SlotsHold(page.data[..], page.header, page.tuples, row);
      Widths();
      delta := page.MarkDelete(row, r.tx, 0, 0);
    }
    page.SetLsn(r.lsn);
  }

  /** One record on the page object opened over the fetched bytes. */
  method RedoOnPage(bytes: seq<byte>, r: LogRec, row: nat) returns (done: bool, bytes': seq<byte>, delta: int)
    requires PageOk(bytes) && |bytes| == PAGE_SIZE && r.lsn < Range(8) && r.tx < Range(8)
    requires r.kind == DELETE_ROW ==> SlotHolds(bytes, row)
    ensures done <==> PageLsn(bytes) < r.lsn
    ensures done ==>
              && bytes' == RedoPage(bytes, r, row)
              && delta == if r.kind == DELETE_ROW && !HasDel(RecAt(bytes, row).flags) then -1 else 0
  {
    ghost var h, ts :| Represents(bytes, h, ts) && Headed(ts);
    HeaderReads(bytes, h, ts);
    var buffer := new byte[PAGE_SIZE](i requires 0 <= i < PAGE_SIZE => bytes[i]);
    assert buffer[..] == bytes;
    var page := new Page.Open(buffer, h, ts);
    done, bytes', delta := page.header.lsn < r.lsn, bytes, 0;
    if done {
      delta := Apply(page, r, row);
      bytes' := page.data[..];
    }
  }

  lemma {:induction false} OkIsSized(s: Image)
    requires PagesOk(s)
    ensures PagesSized(s)
  {
    forall id | id in s.pages ensures |s.pages[id]| == PAGE_SIZE { assert PageOk(s.pages[id]); }
  }

  method RedoStep(s: Image, r: LogRec) returns (s': Image)
    requires Addressed(s, r) && PagesOk(s)
    ensures s' == RedoRec(s, r)
  {
    s' := s;
    if IsData(r.kind) {
      var p := DecodePayload(r.payload);
      if p.page != 0 && p.page in s.pages {
        var done, b, delta := RedoOnPage(s.pages[p.page], r, p.row);
        if done {
          s' := Image(s.pages[p.page := b], if delta != 0 then AddRows(s.rows, p.table, delta) else s.rows);
        }
      }
    }
  }

  /** RecoveryManager::Redo. */
  method RedoLog(store: Image, log: seq<LogRec>) returns (s: Image)
    requires AllAddressed(store, log) && PagesOk(store)
    ensures s == RedoAll(store, log) && PagesOk(s)
  {
    s := store;
    for i := 0 to |log|
      invariant AllAddressed(store, log[..i]) && s == RedoAll(store, log[..i]) && PagesOk(s)
    {
      assert log[..i + 1][..i] == log[..i];
      OkIsSized(s);
      RedoRecOk(s, log[i]);
      s := RedoStep(s, log[i]);
    }
    assert log[..|log|] == log;
  }
}
