/** The write-ahead log's bytes: records, data payloads, and the scanner that reads them back. */
module LogCodec {
  import opened Bytes

  /** LogRecordType, one byte. */
  const BEGIN: byte := 0
  const COMMIT: byte := 1
  const ABORT: byte := 2
  const INSERT_ROW: byte := 3
  const UPDATE_ROW: byte := 4
  const DELETE_ROW: byte := 5

  /** The kinds that carry a data payload. */
  predicate IsData(kind: byte) { kind == INSERT_ROW || kind == DELETE_ROW || kind == UPDATE_ROW }

  /** lsn(8) | tx_id(8) | type(1) | payload_size(4). */
  const HEADER_BYTES := 21

  datatype LogRec = LogRec(lsn: nat, tx: nat, kind: byte, payload: seq<byte>)

  /** The field widths hold the values: ids and LSNs are 64-bit, payload sizes 32-bit. */
  predicate Fits(r: LogRec) {
    r.lsn < Range(8) && r.tx < Range(8) && |r.payload| < Range(4)
  }

  ghost predicate AllFit(rs: seq<LogRec>) {
    forall i :: 0 <= i < |rs| ==> Fits(rs[i])
  }

  function Encode(r: LogRec): (s: seq<byte>)
    ensures |s| == HEADER_BYTES + |r.payload|
  {
    Enc(r.lsn, 8) + Enc(r.tx, 8) + [r.kind] + Enc(|r.payload|, 4) + r.payload
  }

  function EncodeAll(rs: seq<LogRec>): seq<byte> {
    if rs == [] then [] else Encode(rs[0]) + EncodeAll(rs[1..])
  }

  /** The leading whole records of a log image; a torn record ends the scan. */
  function Parse(buf: seq<byte>): seq<LogRec>
    decreases |buf|
  {
    if |buf| < HEADER_BYTES then []
    else
      var size := Dec(buf[17..21]);
      if HEADER_BYTES + size > |buf| then []
      else [LogRec(Dec(buf[0..8]), Dec(buf[8..16]), buf[16], buf[21..21 + size])] + Parse(buf[21 + size..])
  }

  /** AppendLogRecord's buffer, filled field by field. */
  method EncodeRecord(r: LogRec) returns (record: array<byte>)
    ensures fresh(record) && record[..] == Encode(r)
  {
    record := new byte[HEADER_BYTES + |r.payload|];
    var offset := 0;
    Memcpy(record, offset, Enc(r.lsn, 8));
    offset := offset + 8;
    assert record[..8] == Enc(r.lsn, 8);
    Memcpy(record, offset, Enc(r.tx, 8));
    offset := offset + 8;
    assert record[..16] == Enc(r.lsn, 8) + Enc(r.tx, 8);
    Memcpy(record, offset, [r.kind]);
    offset := offset + 1;
    assert record[..17] == Enc(r.lsn, 8) + Enc(r.tx, 8) + [r.kind];
    Memcpy(record, offset, Enc(|r.payload|, 4));
    offset := offset + 4;
    assert record[..21] == Enc(r.lsn, 8) + Enc(r.tx, 8) + [r.kind] + Enc(|r.payload|, 4);
    if |r.payload| > 0 {
      Memcpy(record, offset, r.payload);
      assert record[..] == record[..21 + |r.payload|];
    } else {
      assert record[..] == record[..21];
    }
  }

  function SizeAt(buf: seq<byte>, off: nat): nat
    requires off + HEADER_BYTES <= |buf|
  {
    Dec(buf[off + 17..off + 21])
  }

  function RecordAt(buf: seq<byte>, off: nat): LogRec
    requires off + HEADER_BYTES <= |buf| && off + HEADER_BYTES + SizeAt(buf, off) <= |buf|
  {
    LogRec(Dec(buf[off..off + 8]), Dec(buf[off + 8..off + 16]), buf[off + 16],
           buf[off + 21..off + 21 + SizeAt(buf, off)])
  }

  /** The scan's next step, at an offset of the whole image: a torn record ends it, */
  lemma ParseEnds(buf: seq<byte>, off: nat)
    requires off + HEADER_BYTES <= |buf| && off + HEADER_BYTES + SizeAt(buf, off) > |buf|
    ensures Parse(buf[off..]) == []
  {
    DropSlice(buf, off, 17, 21);
  }

  /** a whole one is read. */
  lemma {:induction false} ParseOne(buf: seq<byte>, off: nat, size: nat, next: nat)
    requires off + HEADER_BYTES <= |buf| && size == SizeAt(buf, off) && next == off + 21 + size <= |buf|
    ensures Parse(buf[off..]) == [RecordAt(buf, off)] + Parse(buf[next..])
  {
    RestFields(buf, off, size, buf[off..]);
    ParseUnfolds(buf[off..], size, buf[next..]);
  }

  lemma {:induction false} RestFields(buf: seq<byte>, off: nat, size: nat, rest: seq<byte>)
    requires off + 21 + size <= |buf| && rest == buf[off..]
    ensures rest[0..8] == buf[off..off + 8] && rest[8..16] == buf[off + 8..off + 16] && rest[16] == buf[off + 16]
    ensures rest[17..21] == buf[off + 17..off + 21] && rest[21..21 + size] == buf[off + 21..off + 21 + size]
    ensures rest[21 + size..] == buf[off + 21 + size..]
  {
  }

  lemma {:induction false} ParseUnfolds(rest: seq<byte>, size: nat, more: seq<byte>)
    requires 21 + size <= |rest| && size == Dec(rest[17..21]) && more == rest[21 + size..]
    ensures Parse(rest) == [LogRec(Dec(rest[0..8]), Dec(rest[8..16]), rest[16], rest[21..21 + size])] + Parse(more)
  {
  }

  /** `out` holds the records before `off`. */
  ghost predicate Scanned(buf: seq<byte>, off: nat, out: seq<LogRec>)
    requires off <= |buf|
  {
    Parse(buf) == out + Parse(buf[off..])
  }

  lemma ScanOn(buf: seq<byte>, off: nat, out: seq<LogRec>, size: nat, next: nat)
    requires off + HEADER_BYTES <= |buf| && Scanned(buf, off, out) && size == SizeAt(buf, off)
    requires next == off + 21 + size <= |buf|
    ensures Scanned(buf, next, out + [RecordAt(buf, off)])
  {
    ParseOne(buf, off, size, next);
    Assoc(out, [RecordAt(buf, off)], Parse(buf[next..]));
  }

  /** The recovery scan over the whole log file. */
  method ReadLog(buf: seq<byte>) returns (out: seq<LogRec>)
    ensures out == Parse(buf)
  {
    out := [];
    var off := 0;
    assert buf[0..] == buf;
    while off + HEADER_BYTES <= |buf|
      invariant off <= |buf| && Scanned(buf, off, out)
    {
      var size := SizeAt(buf, off);
      var next := off + HEADER_BYTES + size;
      if next > |buf| {
        ParseEnds(buf, off);
        return;
      }
      ScanOn(buf, off, out, size, next);
      out := out + [RecordAt(buf, off)];
      off := next;
    }
  }

  // ----- Round trip and torn tail -------------------------------------------------------------

  lemma ThreeFields(l: seq<byte>, t: seq<byte>, k: byte, z: seq<byte>, p: seq<byte>, tail: seq<byte>)
    requires |l| == 8 && |t| == 8 && |z| == 4
    ensures var b := l + t + [k] + z + p + tail;
      && b[0..8] == l && b[8..16] == t && b[16] == k && b[17..21] == z
      && b[21..21 + |p|] == p && b[21 + |p|..] == tail
  {
  }

  lemma FieldsOf(r: LogRec, tail: seq<byte>)
    requires Fits(r)
    ensures var b := Encode(r) + tail;
      && Dec(b[0..8]) == r.lsn && Dec(b[8..16]) == r.tx && b[16] == r.kind
      && Dec(b[17..21]) == |r.payload|
      && b[21..21 + |r.payload|] == r.payload && b[21 + |r.payload|..] == tail
  {
    ThreeFields(Enc(r.lsn, 8), Enc(r.tx, 8), r.kind, Enc(|r.payload|, 4), r.payload, tail);
    DecEnc(r.lsn, 8); DecEnc(r.tx, 8); DecEnc(|r.payload|, 4);
  }

  /** A whole record is read back; nothing of a torn one is. */
  lemma ParseRecord(r: LogRec, tail: seq<byte>)
    requires Fits(r)
    ensures Parse(Encode(r) + tail) == [r] + Parse(tail)
  {
    FieldsOf(r, tail);
  }

  lemma ParseTorn(r: LogRec, tail: seq<byte>, n: nat)
    requires Fits(r) && n < |Encode(r)|
    ensures Parse((Encode(r) + tail)[..n]) == []
  {
    var b := Encode(r) + tail;
    FieldsOf(r, tail);
    if n >= HEADER_BYTES { assert b[..n][17..21] == b[17..21]; }
  }

  lemma ParseFirst(r: LogRec, rest: seq<byte>, n: nat, m: nat)
    requires Fits(r) && n == |Encode(r)| + m && m <= |rest|
    ensures Parse((Encode(r) + rest)[..n]) == [r] + Parse(rest[..m])
  {
    TakeCat(Encode(r), rest, n);
    ParseRecord(r, rest[..m]);
  }

  /** How many leading records lie wholly in the first `n` bytes. */
  function WholeBefore(rs: seq<LogRec>, n: nat): (k: nat)
    ensures k <= |rs|
  {
    if rs == [] || n < |Encode(rs[0])| then 0 else 1 + WholeBefore(rs[1..], n - |Encode(rs[0])|)
  }

  lemma {:induction false} WholeBeforeIs(rs: seq<LogRec>, n: nat)
    ensures var k := WholeBefore(rs, n);
      |EncodeAll(rs[..k])| <= n && (k < |rs| ==> n < |EncodeAll(rs[..k + 1])|)
  {
    if rs != [] && n < |Encode(rs[0])| {
      PrefixBytes(rs, 0);
    } else if rs != [] {
      var k := WholeBefore(rs[1..], n - |Encode(rs[0])|);
      WholeBeforeIs(rs[1..], n - |Encode(rs[0])|);
      PrefixBytes(rs, k);
      if k < |rs| - 1 { PrefixBytes(rs, k + 1); }
    }
  }

  lemma {:induction false} ParseCut(rs: seq<LogRec>, n: nat)
    requires AllFit(rs) && n <= |EncodeAll(rs)|
    ensures Parse(EncodeAll(rs)[..n]) == rs[..WholeBefore(rs, n)]
  {
    if rs != [] && n < |Encode(rs[0])| {
      ParseTorn(rs[0], EncodeAll(rs[1..]), n);
    } else if rs != [] {
      var m := n - |Encode(rs[0])|;
      ParseCut(rs[1..], m);
      ParseFirst(rs[0], EncodeAll(rs[1..]), n, m);
      PrefixBytes(rs, WholeBefore(rs[1..], m));
    }
  }

  /**
   Cut the log after any byte: the scan returns exactly the longest run of leading records that are
   wholly before the cut.
   */
  lemma {:induction false} TornTail(rs: seq<LogRec>, n: nat) returns (k: nat)
    requires AllFit(rs) && n <= |EncodeAll(rs)|
    ensures k <= |rs| && |EncodeAll(rs[..k])| <= n && (k < |rs| ==> n < |EncodeAll(rs[..k + 1])|)
    ensures Parse(EncodeAll(rs)[..n]) == rs[..k]
  {
    k := WholeBefore(rs, n);
    WholeBeforeIs(rs, n);
    ParseCut(rs, n);
  }

  lemma PrefixBytes(rs: seq<LogRec>, k: nat)
    requires k < |rs|
    ensures rs[..k + 1] == [rs[0]] + rs[1..][..k]
    ensures EncodeAll(rs[..k + 1]) == Encode(rs[0]) + EncodeAll(rs[1..][..k])
  {
    assert rs[..k + 1][1..] == rs[1..][..k];
  }

  lemma {:induction false} ParseInvertsEncode(rs: seq<LogRec>)
    requires AllFit(rs)
    ensures Parse(EncodeAll(rs)) == rs
  {
    if rs != [] {
      ParseInvertsEncode(rs[1..]);
      ParseRecord(rs[0], EncodeAll(rs[1..]));
    }
  }

  lemma {:induction false} EncodeAllAppend(rs: seq<LogRec>, ts: seq<LogRec>)
    ensures EncodeAll(rs + ts) == EncodeAll(rs) + EncodeAll(ts)
  {
    if rs == [] {
      assert rs + ts == ts && EncodeAll(rs) + EncodeAll(ts) == EncodeAll(ts);
    } else {
      EncodeAllAppend(rs[1..], ts);
      assert (rs + ts)[1..] == rs[1..] + ts;
      Assoc(Encode(rs[0]), EncodeAll(rs[1..]), EncodeAll(ts));
    }
  }

  // ----- Data payloads ------------------------------------------------------------------------

  /** table_id(8) | page_id(8) | row_id(8) | image_size(4) | image. */
  datatype DataPayload = DataPayload(table: nat, page: nat, row: nat, image: seq<byte>)

  const PAYLOAD_FIXED := 28

  predicate PayloadFits(p: DataPayload) {
    p.table < Range(8) && p.page < Range(8) && p.row < Range(8) && |p.image| < Range(4)
  }

  function PayloadBytes(p: DataPayload): (s: seq<byte>)
    ensures |s| == PAYLOAD_FIXED + |p.image|
  {
    Enc(p.table, 8) + Enc(p.page, 8) + Enc(p.row, 8) + Enc(|p.image|, 4) + p.image
  }

  /** Too short for the fixed part, or long enough for the image it announces. */
  predicate Decodable(data: seq<byte>) {
    |data| >= PAYLOAD_FIXED ==> PAYLOAD_FIXED + Dec(data[24..28]) <= |data|
  }

  method EncodePayload(p: DataPayload) returns (buf: array<byte>)
    ensures fresh(buf) && buf[..] == PayloadBytes(p)
  {
    buf := new byte[PAYLOAD_FIXED + |p.image|];
    var off := 0;
    Memcpy(buf, off, Enc(p.table, 8));
    off := off + 8;
    assert buf[..8] == Enc(p.table, 8);
    Memcpy(buf, off, Enc(p.page, 8));
    off := off + 8;
    assert buf[..16] == Enc(p.table, 8) + Enc(p.page, 8);
    Memcpy(buf, off, Enc(p.row, 8));
    off := off + 8;
    assert buf[..24] == Enc(p.table, 8) + Enc(p.page, 8) + Enc(p.row, 8);
    Memcpy(buf, off, Enc(|p.image|, 4));
    off := off + 4;
    assert buf[..28] == Enc(p.table, 8) + Enc(p.page, 8) + Enc(p.row, 8) + Enc(|p.image|, 4);
    if |p.image| > 0 {
      Memcpy(buf, off, p.image);
      assert buf[..] == buf[..28 + |p.image|];
    } else {
      assert buf[..] == buf[..28];
    }
  }

  function DecodePayload(data: seq<byte>): DataPayload
    requires Decodable(data)
  {
    if |data| < PAYLOAD_FIXED then DataPayload(0, 0, 0, [])
    else DataPayload(Dec(data[0..8]), Dec(data[8..16]), Dec(data[16..24]), data[28..28 + Dec(data[24..28])])
  }

  lemma PayloadFields(p: DataPayload)
    ensures var b := PayloadBytes(p);
      && b[0..8] == Enc(p.table, 8) && b[8..16] == Enc(p.page, 8) && b[16..24] == Enc(p.row, 8)
      && b[24..28] == Enc(|p.image|, 4) && b[28..28 + |p.image|] == p.image
  {
    var t, g, r, z := Enc(p.table, 8), Enc(p.page, 8), Enc(p.row, 8), Enc(|p.image|, 4);
    FourFields(t, g, r, z, p.image);
  }

  lemma FourFields(t: seq<byte>, g: seq<byte>, r: seq<byte>, z: seq<byte>, image: seq<byte>)
    requires |t| == 8 && |g| == 8 && |r| == 8 && |z| == 4
    ensures var b := t + g + r + z + image;
      b[0..8] == t && b[8..16] == g && b[16..24] == r && b[24..28] == z && b[28..28 + |image|] == image
  {
  }

  lemma PayloadRoundTrip(p: DataPayload)
    requires PayloadFits(p)
    ensures Decodable(PayloadBytes(p)) && DecodePayload(PayloadBytes(p)) == p
  {
    PayloadFields(p);
    DecEnc(p.table, 8); DecEnc(p.page, 8); DecEnc(p.row, 8); DecEnc(|p.image|, 4);
  }
}
