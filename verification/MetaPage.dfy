/**
 The catalogue page: table entries written one behind the other, their numeric fields patched in
 place, and the in-memory maps kept beside them.
 */
module MetaPage {
  import opened Common
  import opened Bytes

  /** version(8) | table_size(8) | last_point(8). */
  const ITEMS_BEGIN := 24
  /** What AddTable's guard counts per entry besides the table name. */
  const ITEM_FIXED_SIZE := 40

  datatype Column = Column(name: seq<byte>, kind: byte, flags: byte, id: nat)

  datatype Item = Item(name: seq<byte>, first: nat, rows: nat, id: nat, last: nat, offset: nat, columns: seq<Column>)

  predicate ColumnFits(c: Column) { |c.name| < Range(8) && c.id < Range(8) }

  predicate ItemFits(it: Item) {
    match it
    case Item(name, first, rows, id, last, offset, columns) =>
      && |name| < Range(8) && first < Range(8) && rows < Range(8) && id < Range(8) && last < Range(8)
      && offset < Range(8)
      && |columns| < Range(8) && forall c :: c in columns ==> ColumnFits(c)
  }

  function ColumnBytes(c: Column): (s: seq<byte>)
    ensures |s| == 18 + |c.name|
  {
    Enc(|c.name|, 8) + c.name + [c.kind] + [c.flags] + Enc(c.id, 8)
  }

  /** Name length, type, flags and id take 18 bytes besides the name. */
  function ColumnsSize(cs: seq<Column>): nat {
    if cs == [] then 0 else 18 + |cs[0].name| + ColumnsSize(cs[1..])
  }

  function ColumnsBytes(cs: seq<Column>): (s: seq<byte>)
    ensures |s| == ColumnsSize(cs)
  {
    if cs == [] then [] else ColumnBytes(cs[0]) + ColumnsBytes(cs[1..])
  }

  function ItemSize(it: Item): nat { 56 + |it.name| + ColumnsSize(it.columns) }

  /** table_name_len | table_name | first id | rows | table_id | last_id | offset | column count | columns. */
  function ItemBytes(it: Item): (s: seq<byte>)
    ensures |s| == ItemSize(it)
  {
    Enc(|it.name|, 8) + it.name + Enc(it.first, 8) + Enc(it.rows, 8) + Enc(it.id, 8) + Enc(it.last, 8)
    + Enc(it.offset, 8)
    + Enc(|it.columns|, 8) + ColumnsBytes(it.columns)
  }

  function HeadBytes(version: nat, tables: nat, lastPoint: nat): (s: seq<byte>)
    ensures |s| == ITEMS_BEGIN
  {
    Enc(version, 8) + Enc(tables, 8) + Enc(lastPoint, 8)
  }

  // ----- Layout -------------------------------------------------------------------------------

  /** Where entry `i` begins: entries are packed behind the header. */
  function Start(es: seq<Item>, i: nat): (o: nat)
    requires i <= |es|
    ensures o >= ITEMS_BEGIN
  {
    if i == 0 then ITEMS_BEGIN else Start(es, i - 1) + ItemSize(es[i - 1])
  }

  ghost predicate EntryOk(b: seq<byte>, es: seq<Item>, i: int)
    requires 0 <= i < |es|
  {
    es[i].offset == Start(es, i) && ItemFits(es[i]) && At(b, Start(es, i), ItemBytes(es[i]))
  }

  /** The first `n` entries stand where they should. */
  ghost predicate EntriesOk(b: seq<byte>, es: seq<Item>, n: nat)
    requires n <= |es|
  {
    n == 0 || (EntriesOk(b, es, n - 1) && EntryOk(b, es, n - 1))
  }

  lemma {:induction false} EntryAt(b: seq<byte>, es: seq<Item>, n: nat, i: nat)
    requires i < n <= |es| && EntriesOk(b, es, n)
    ensures EntryOk(b, es, i)
  {
    if i < n - 1 { EntryAt(b, es, n - 1, i); }
  }

  lemma {:induction false} EntriesAll(b: seq<byte>, es: seq<Item>, n: nat)
    requires n <= |es| && forall i {:trigger EntryOk(b, es, i)} :: 0 <= i < n ==> EntryOk(b, es, i)
    ensures EntriesOk(b, es, n)
  {
    if n > 0 { EntriesAll(b, es, n - 1); }
  }

  /** The bytes are a catalogue page with these entries. */
  ghost predicate Holds(b: seq<byte>, version: nat, es: seq<Item>) {
    && |b| == PAGE_SIZE && version < Range(8) && Start(es, |es|) <= PAGE_SIZE
    && At(b, 0, HeadBytes(version, |es|, Start(es, |es|)))
    && EntriesOk(b, es, |es|)
  }

  lemma {:induction false} StartGrows(es: seq<Item>, i: nat, j: nat)
    requires i <= j <= |es|
    ensures Start(es, i) <= Start(es, j)
    ensures i < j ==> Start(es, i) + ItemSize(es[i]) <= Start(es, j)
  {
    if i < j { StartGrows(es, i, j - 1); }
  }

  lemma {:induction false} StartAppend(es: seq<Item>, e: Item, i: nat)
    requires i <= |es|
    ensures Start(es + [e], i) == Start(es, i)
  {
    if i > 0 { StartAppend(es, e, i - 1); }
  }

  lemma {:induction false} StartUpdate(es: seq<Item>, k: nat, e: Item, i: nat)
    requires k < |es| && ItemSize(e) == ItemSize(es[k]) && i <= |es|
    ensures Start(es[k := e], i) == Start(es, i)
  {
    if i > 0 { StartUpdate(es, k, e, i - 1); }
  }

  lemma {:induction false} EntriesGrow(es: seq<Item>)
    ensures Start(es, |es|) >= |es|
  {
    if es != [] {
      var es' := es[..|es| - 1];
      assert es == es' + [es[|es| - 1]];
      StartAppend(es', es[|es| - 1], |es'|);
      EntriesGrow(es');
    }
  }

  // ----- Edits --------------------------------------------------------------------------------

  /** AddTable on the bytes: the entry behind the last one, then the header's two counters. */
  function Added(b: seq<byte>, off: nat, s: seq<byte>, head: seq<byte>): (b': seq<byte>)
    requires off + |s| <= |b| && |head| <= |b|
  {
    Splice(Splice(b, off, s), 0, head)
  }

  lemma {:induction false} AtWritten(b: seq<byte>, off: nat, s: seq<byte>)
    requires off + |s| <= |b|
    ensures At(Splice(b, off, s), off, s)
  {
  }

  lemma {:induction false} AddedAt(b: seq<byte>, off: nat, s: seq<byte>, head: seq<byte>)
    requires off + |s| <= |b| && |head| <= off
    ensures At(Added(b, off, s, head), off, s) && At(Added(b, off, s, head), 0, head)
  {
    AtWritten(b, off, s);
    AtKept(Splice(b, off, s), off, s, 0, head);
    AtWritten(Splice(b, off, s), 0, head);
  }

  lemma {:induction false} AddedKeeps(b: seq<byte>, off: nat, s: seq<byte>, head: seq<byte>, p: nat, t: seq<byte>)
    requires off + |s| <= |b| && At(b, p, t) && |head| <= p && p + |t| <= off
    ensures At(Added(b, off, s, head), p, t)
  {
    AtKept(b, p, t, off, s);
    AtKept(Splice(b, off, s), p, t, 0, head);
  }

  lemma {:induction false} EntriesAdded(b: seq<byte>, es: seq<Item>, e: Item, head: seq<byte>, b': seq<byte>,
      es': seq<Item>)
    requires EntriesOk(b, es, |es|) && ItemFits(e) && e.offset == Start(es, |es|) && e.offset + ItemSize(e) <= |b|
    requires |head| == ITEMS_BEGIN
    requires b' == Added(b, e.offset, ItemBytes(e), head) && es' == es + [e]
    ensures EntriesOk(b', es', |es'|) && At(b', 0, head)
  {
    AddedAt(b, e.offset, ItemBytes(e), head);
    forall i {:trigger EntryOk(b', es', i)} | 0 <= i < |es'| ensures EntryOk(b', es', i) {
      StartAppend(es, e, i);
      if i < |es| {
        EntryAt(b, es, |es|, i);
        StartGrows(es, i, |es|);
        AddedKeeps(b, e.offset, ItemBytes(e), head, Start(es, i), ItemBytes(es[i]));
      }
    }
    EntriesAll(b', es', |es'|);
  }

  lemma {:induction false} EntryAdded(b: seq<byte>, version: nat, es: seq<Item>, e: Item, b': seq<byte>,
      es': seq<Item>, n: nat, end: nat)
    requires Holds(b, version, es) && ItemFits(e) && e.offset == Start(es, |es|)
    requires end == e.offset + ItemSize(e) <= PAGE_SIZE
    requires es' == es + [e] && n == |es| + 1 && b' == Added(b, e.offset, ItemBytes(e), HeadBytes(version, n, end))
    ensures Holds(b', version, es') && Start(es', |es'|) == end && |es'| == n
  {
    StartAppend(es, e, |es|);
    assert n == |es'| && end == Start(es', |es'|);
    EntriesAdded(b, es, e, HeadBytes(version, n, end), b', es');
  }

  /** A write inside the bytes that stand at `off`. */
  lemma {:induction false} AtEdited(b: seq<byte>, off: nat, s: seq<byte>, o: nat, w: seq<byte>, p: nat, s': seq<byte>)
    requires At(b, off, s) && o + |w| <= |s| && p == off + o && s' == Splice(s, o, w)
    ensures p + |w| <= |b| && At(Splice(b, p, w), off, s')
  {
    var b' := Splice(b, p, w);
    forall j | 0 <= j < |s'| ensures b'[off + j] == s'[j] {
      assert b[off + j] == s[j];
    }
  }

  lemma {:induction false} FieldSplice(pre: seq<byte>, f: seq<byte>, post: seq<byte>, f': seq<byte>)
    requires |f| == |f'|
    ensures Splice(pre + f + post, |pre|, f') == pre + f' + post
  {
  }

  lemma {:induction false} FirstPatched(it: Item, v: nat)
    ensures ItemBytes(it.(first := v)) == Splice(ItemBytes(it), 8 + |it.name|, Enc(v, 8))
  {
    var p := Enc(|it.name|, 8) + it.name;
    var r, i, l, o := Enc(it.rows, 8), Enc(it.id, 8), Enc(it.last, 8), Enc(it.offset, 8);
    var c, cs := Enc(|it.columns|, 8), ColumnsBytes(it.columns);
    FieldSplice(p, Enc(it.first, 8), r + i + l + o + c + cs, Enc(v, 8));
    Nest6(p + Enc(it.first, 8), r, i, l, o, c, cs);
    Nest6(p + Enc(v, 8), r, i, l, o, c, cs);
  }

  lemma {:induction false} Nest6(p: seq<byte>, a: seq<byte>, b: seq<byte>, c: seq<byte>, d: seq<byte>, e: seq<byte>,
      f: seq<byte>)
    ensures p + a + b + c + d + e + f == p + (a + b + c + d + e + f)
  {
    Assoc(p, a, b);
    Assoc(p, a + b, c);
    Assoc(p, a + b + c, d);
    Assoc(p, a + b + c + d, e);
    Assoc(p, a + b + c + d + e, f);
  }

  lemma {:induction false} RowsPatched(it: Item, v: nat)
    ensures ItemBytes(it.(rows := v)) == Splice(ItemBytes(it), 16 + |it.name|, Enc(v, 8))
  {
    var p := Enc(|it.name|, 8) + it.name + Enc(it.first, 8);
    var i, l, o := Enc(it.id, 8), Enc(it.last, 8), Enc(it.offset, 8);
    var c, cs := Enc(|it.columns|, 8), ColumnsBytes(it.columns);
    FieldSplice(p, Enc(it.rows, 8), i + l + o + c + cs, Enc(v, 8));
    Nest5(p + Enc(it.rows, 8), i, l, o, c, cs);
    Nest5(p + Enc(v, 8), i, l, o, c, cs);
  }

  lemma {:induction false} Nest5(p: seq<byte>, a: seq<byte>, b: seq<byte>, c: seq<byte>, d: seq<byte>, e: seq<byte>)
    ensures p + a + b + c + d + e == p + (a + b + c + d + e)
  {
    Assoc(p, a, b);
    Assoc(p, a + b, c);
    Assoc(p, a + b + c, d);
    Assoc(p, a + b + c + d, e);
  }

  lemma {:induction false} LastPatched(it: Item, v: nat)
    ensures ItemBytes(it.(last := v)) == Splice(ItemBytes(it), 32 + |it.name|, Enc(v, 8))
  {
    var p := Enc(|it.name|, 8) + it.name + Enc(it.first, 8) + Enc(it.rows, 8) + Enc(it.id, 8);
    var d, e, f := Enc(it.offset, 8), Enc(|it.columns|, 8), ColumnsBytes(it.columns);
    FieldSplice(p, Enc(it.last, 8), d + e + f, Enc(v, 8));
    Assoc(p + Enc(it.last, 8), d, e);
    Assoc(p + Enc(it.last, 8), d + e, f);
    Assoc(p + Enc(v, 8), d, e);
    Assoc(p + Enc(v, 8), d + e, f);
  }

  // ----- Patches ------------------------------------------------------------------------------

  /** The fields that are patched in place. */
  datatype Field = First | Rows | Last

  function With(it: Item, f: Field, v: nat): (r: Item)
    ensures r.name == it.name && r.id == it.id && r.offset == it.offset && ItemSize(r) == ItemSize(it)
  {
    match f
    case First => it.(first := v)
    case Rows => it.(rows := v)
    case Last => it.(last := v)
  }

  /** How far behind the table name the field is. */
  function Past(f: Field): nat {
    match f
    case First => 0
    case Rows => 8
    case Last => 24
  }

  /** Where the field is on the page. */
  function FieldAt(it: Item, f: Field): nat { it.offset + 8 + |it.name| + Past(f) }

  lemma {:induction false} FieldPatched(it: Item, f: Field, v: nat)
    ensures ItemBytes(With(it, f, v)) == Splice(ItemBytes(it), 8 + |it.name| + Past(f), Enc(v, 8))
  {
    match f
    case First => FirstPatched(it, v);
    case Rows => RowsPatched(it, v);
    case Last => LastPatched(it, v);
  }

  lemma {:induction false} WithFits(it: Item, f: Field, v: nat)
    requires ItemFits(it) && v < Range(8)
    ensures ItemFits(With(it, f, v))
  {
  }

  lemma {:induction false} AtPatched(b: seq<byte>, it: Item, f: Field, v: nat, p: nat)
    requires At(b, it.offset, ItemBytes(it)) && p == FieldAt(it, f)
    ensures p + 8 <= |b| && At(Splice(b, p, Enc(v, 8)), it.offset, ItemBytes(With(it, f, v)))
  {
    FieldPatched(it, f, v);
    AtEdited(b, it.offset, ItemBytes(it), 8 + |it.name| + Past(f), Enc(v, 8), p, ItemBytes(With(it, f, v)));
  }

  lemma {:induction false} PatchedThis(b: seq<byte>, es: seq<Item>, k: nat, f: Field, v: nat, es': seq<Item>, p: nat)
    requires k < |es| && EntryOk(b, es, k) && v < Range(8) && es' == es[k := With(es[k], f, v)]
    requires p == FieldAt(es[k], f)
    ensures p + 8 <= |b| && EntryOk(Splice(b, p, Enc(v, 8)), es', k)
  {
    WithFits(es[k], f, v);
    StartUpdate(es, k, es'[k], k);
    AtPatched(b, es[k], f, v, p);
  }

  lemma {:induction false} PatchedOther(b: seq<byte>, es: seq<Item>, k: nat, p: nat, w: seq<byte>, es': seq<Item>,
      i: nat)
    requires k < |es| && i < |es| && i != k && EntryOk(b, es, i) && |es'| == |es| && es' == es[k := es'[k]]
    requires ItemSize(es'[k]) == ItemSize(es[k])
    requires Start(es, k) <= p && p + |w| <= Start(es, k) + ItemSize(es[k]) && p + |w| <= |b|
    ensures EntryOk(Splice(b, p, w), es', i)
  {
    StartUpdate(es, k, es'[k], i);
    if i < k { StartGrows(es, i, k); } else { StartGrows(es, k, i); }
    AtKept(b, Start(es, i), ItemBytes(es[i]), p, w);
  }

  lemma {:induction false} EntriesPatched(b: seq<byte>, es: seq<Item>, k: nat, f: Field, v: nat, es': seq<Item>, p: nat)
    requires EntriesOk(b, es, |es|) && k < |es| && v < Range(8) && es' == es[k := With(es[k], f, v)]
    requires p == FieldAt(es[k], f)
    ensures p + 8 <= |b| && EntriesOk(Splice(b, p, Enc(v, 8)), es', |es'|)
  {
    EntryAt(b, es, |es|, k);
    PatchedThis(b, es, k, f, v, es', p);
    var b' := Splice(b, p, Enc(v, 8));
    forall i {:trigger EntryOk(b', es', i)} | 0 <= i < |es'| ensures EntryOk(b', es', i) {
      if i != k {
        EntryAt(b, es, |es|, i);
        PatchedOther(b, es, k, p, Enc(v, 8), es', i);
      }
    }
    EntriesAll(b', es', |es'|);
  }

  /** A field of one entry overwritten in place: that entry changes and nothing else does. */
  lemma {:induction false} EntryPatched(b: seq<byte>, version: nat, es: seq<Item>, k: nat, f: Field, v: nat,
      es': seq<Item>, p: nat)
    requires Holds(b, version, es) && k < |es| && v < Range(8) && es' == es[k := With(es[k], f, v)]
    requires p == FieldAt(es[k], f)
    ensures p + 8 <= PAGE_SIZE && Holds(Splice(b, p, Enc(v, 8)), version, es')
    ensures f.First? ==> es'[k] == es[k].(first := v) && p == es[k].offset + 8 + |es[k].name|
    ensures f.Rows? ==> es'[k] == es[k].(rows := v) && p == es[k].offset + 8 + |es[k].name| + 8
    ensures f.Last? ==> es'[k] == es[k].(last := v) && p == es[k].offset + 8 + |es[k].name| + 24
  {
    StartUpdate(es, k, es'[k], |es|);
    EntriesPatched(b, es, k, f, v, es', p);
    EntryAt(b, es, |es|, k);
    AtKept(b, 0, HeadBytes(version, |es|, Start(es, |es|)), p, Enc(v, 8));
  }

  // ----- Reading entries back -----------------------------------------------------------------

  lemma {:induction false} AtSplit(b: seq<byte>, off: nat, s: seq<byte>, t: seq<byte>)
    requires At(b, off, s + t)
    ensures At(b, off, s) && At(b, off + |s|, t) && b[off..off + |s|] == s
  {
    var r := s + t;
    forall j | 0 <= j < |s| ensures b[off + j] == s[j] { assert r[j] == s[j]; }
    forall j | 0 <= j < |t| ensures b[off + |s| + j] == t[j] {
      assert r[|s| + j] == t[j] && b[off + (|s| + j)] == r[|s| + j];
    }
  }

  /** An integer field in front of more bytes. */
  lemma {:induction false} AtField(b: seq<byte>, off: nat, n: nat, t: seq<byte>)
    requires At(b, off, Enc(n, 8) + t) && n < Range(8)
    ensures off + 8 <= |b| && Dec(b[off..off + 8]) == n && At(b, off + 8, t)
  {
    AtSplit(b, off, Enc(n, 8), t);
    DecEnc(n, 8);
  }

  /** A column from its type on. */
  function ColumnTail(c: Column): seq<byte> { [c.kind] + ([c.flags] + (Enc(c.id, 8) + [])) }

  lemma {:induction false} ColumnNests(c: Column)
    ensures ColumnBytes(c) == Enc(|c.name|, 8) + (c.name + ColumnTail(c))
  {
    var n, k, f, i := Enc(|c.name|, 8), [c.kind], [c.flags], Enc(c.id, 8);
    assert i + [] == i;
    Assoc(n, c.name, k);
    Assoc(n, c.name + k, f);
    Assoc(n, c.name + k + f, i);
    Assoc(c.name, k, f);
    Assoc(c.name, k + f, i);
    Assoc(k, f, i);
  }

  lemma {:induction false} ColumnTailFields(b: seq<byte>, p: nat, c: Column)
    requires At(b, p, ColumnTail(c)) && ColumnFits(c)
    ensures p + 10 <= |b| && b[p] == c.kind && b[p + 1] == c.flags && Dec(b[p + 2..p + 10]) == c.id
  {
    AtSplit(b, p, [c.kind], [c.flags] + (Enc(c.id, 8) + []));
    AtSplit(b, p + 1, [c.flags], Enc(c.id, 8) + []);
    AtField(b, p + 2, c.id, []);
    assert [c.kind][0] == b[p + 0] && [c.flags][0] == b[p + 1 + 0];
  }

  lemma {:induction false} ColumnHead(b: seq<byte>, off: nat, c: Column, p: nat)
    requires At(b, off, ColumnBytes(c)) && ColumnFits(c) && p == off + 8 + |c.name|
    ensures p <= |b| && Dec(b[off..off + 8]) == |c.name| && b[off + 8..p] == c.name && At(b, p, ColumnTail(c))
  {
    ColumnNests(c);
    NamedTail(b, off, c.name, ColumnTail(c), p);
  }

  method ReadColumn(b: seq<byte>, off: nat, ghost c: Column) returns (r: Column, end: nat)
    requires At(b, off, ColumnBytes(c)) && ColumnFits(c)
    ensures r == c && end == off + 18 + |c.name|
  {
    ColumnHead(b, off, c, off + 8 + |c.name|);
    var size := Dec(b[off..off + 8]);
    end := off + 8;
    var name := b[end..end + size];
    end := end + size;
    ColumnTailFields(b, end, c);
    r := Column(name, b[end], b[end + 1], Dec(b[end + 2..end + 10]));
    end := end + 10;
  }

  method ReadColumns(b: seq<byte>, off: nat, n: nat, ghost cs: seq<Column>) returns (r: seq<Column>, end: nat)
    requires At(b, off, ColumnsBytes(cs)) && n == |cs| && forall c :: c in cs ==> ColumnFits(c)
    ensures r == cs && end == off + |ColumnsBytes(cs)|
  {
    r, end := [], off;
    for i := 0 to n
      invariant r == cs[..i] && end + |ColumnsBytes(cs[i..])| == off + |ColumnsBytes(cs)|
      invariant At(b, end, ColumnsBytes(cs[i..]))
    {
      assert cs[i..][0] == cs[i] && cs[i..][1..] == cs[i + 1..] && cs[i] in cs;
      AtSplit(b, end, ColumnBytes(cs[i]), ColumnsBytes(cs[i + 1..]));
      var c;
      c, end := ReadColumn(b, end, cs[i]);
      r := r + [c];
    }
  }

  lemma {:induction false} Nest7(a: seq<byte>, b: seq<byte>, c: seq<byte>, d: seq<byte>, e: seq<byte>, f: seq<byte>,
      g: seq<byte>)
    ensures a + b + c + d + e + f + g == a + (b + (c + (d + (e + (f + g)))))
  {
    Assoc(e, f, g);
    Assoc(d, e, f + g);
    Assoc(c, d, e + (f + g));
    Nest5(a, b, c, d, e, f + g);
    Assoc(a + b + c + d + e, f, g);
    Assoc(b + c + d, e, f + g);
    Assoc(b + c, d, e + (f + g));
    Assoc(b, c, d + (e + (f + g)));
  }

  /** An entry from its first-page field on. */
  function ItemTail(it: Item): seq<byte> {
    var columns := Enc(|it.columns|, 8) + ColumnsBytes(it.columns);
    Enc(it.first, 8) + (Enc(it.rows, 8) + (Enc(it.id, 8) + (Enc(it.last, 8) + (Enc(it.offset, 8) + columns))))
  }

  lemma {:induction false} ItemNests(it: Item)
    ensures ItemBytes(it) == Enc(|it.name|, 8) + (it.name + ItemTail(it))
  {
    var n, f, r, i := Enc(|it.name|, 8), Enc(it.first, 8), Enc(it.rows, 8), Enc(it.id, 8);
    var l, o, c, cs := Enc(it.last, 8), Enc(it.offset, 8), Enc(|it.columns|, 8), ColumnsBytes(it.columns);
    Nest7(n + it.name, f, r, i, l, o, c + cs);
    Assoc(n + it.name + f + r + i + l + o, c, cs);
    Assoc(n, it.name, ItemTail(it));
  }

  lemma {:induction false} SixFields(b: seq<byte>, p: nat, f: nat, r: nat, i: nat, l: nat, o: nat, c: nat,
      cs: seq<byte>)
    requires At(b, p, Enc(f, 8) + (Enc(r, 8) + (Enc(i, 8) + (Enc(l, 8) + (Enc(o, 8) + (Enc(c, 8) + cs))))))
    requires f < Range(8) && r < Range(8) && i < Range(8) && l < Range(8) && o < Range(8) && c < Range(8)
    ensures p + 48 <= |b| && Dec(b[p..p + 8]) == f && Dec(b[p + 8..p + 16]) == r && Dec(b[p + 16..p + 24]) == i
    ensures Dec(b[p + 24..p + 32]) == l && Dec(b[p + 40..p + 48]) == c && At(b, p + 48, cs)
  {
    var t5 := Enc(c, 8) + cs;
    var t4 := Enc(o, 8) + t5;
    var t3 := Enc(l, 8) + t4;
    var t2 := Enc(i, 8) + t3;
    AtField(b, p, f, Enc(r, 8) + t2);
    AtField(b, p + 8, r, t2);
    AtField(b, p + 16, i, t3);
    AtField(b, p + 24, l, t4);
    AtField(b, p + 32, o, t5);
    AtField(b, p + 40, c, cs);
  }

  lemma {:induction false} TailFields(b: seq<byte>, p: nat, it: Item)
    requires At(b, p, ItemTail(it)) && ItemFits(it)
    ensures p + 48 <= |b| && Dec(b[p..p + 8]) == it.first && Dec(b[p + 8..p + 16]) == it.rows
    ensures Dec(b[p + 16..p + 24]) == it.id
    ensures Dec(b[p + 24..p + 32]) == it.last && Dec(b[p + 40..p + 48]) == |it.columns|
    ensures At(b, p + 48, ColumnsBytes(it.columns)) && forall c :: c in it.columns ==> ColumnFits(c)
  {
    SixFields(b, p, it.first, it.rows, it.id, it.last, it.offset, |it.columns|, ColumnsBytes(it.columns));
  }

  lemma {:induction false} ItemHead(b: seq<byte>, off: nat, it: Item, p: nat)
    requires At(b, off, ItemBytes(it)) && ItemFits(it) && p == off + 8 + |it.name|
    ensures p <= |b| && Dec(b[off..off + 8]) == |it.name| && b[off + 8..p] == it.name && At(b, p, ItemTail(it))
  {
    ItemNests(it);
    NamedTail(b, off, it.name, ItemTail(it), p);
  }

  lemma {:induction false} NamedTail(b: seq<byte>, off: nat, name: seq<byte>, tail: seq<byte>, p: nat)
    requires At(b, off, Enc(|name|, 8) + (name + tail)) && |name| < Range(8) && p == off + 8 + |name|
    ensures p <= |b| && Dec(b[off..off + 8]) == |name| && b[off + 8..p] == name && At(b, p, tail)
  {
    AtField(b, off, |name|, name + tail);
    AtSplit(b, off + 8, name, tail);
  }

  /** One turn of ReadMata's loop; the stored offset field is skipped, the entry's place is used. */
  method ReadItem(b: seq<byte>, off: nat, ghost it: Item) returns (r: Item, end: nat)
    requires At(b, off, ItemBytes(it)) && ItemFits(it) && it.offset == off
    ensures r == it && end == off + ItemSize(it)
  {
    ItemHead(b, off, it, off + 8 + |it.name|);
    var p := off + 8 + Dec(b[off..off + 8]);
    TailFields(b, p, it);
    var columns;
    columns, end := ReadColumns(b, p + 48, Dec(b[p + 40..p + 48]), it.columns);
    r := Item(b[off + 8..p], Dec(b[p..p + 8]), Dec(b[p + 8..p + 16]), Dec(b[p + 16..p + 24]), Dec(b[p + 24..p + 32]),
              off, columns);
  }

  // ----- Writing entries ----------------------------------------------------------------------

  lemma {:induction false} SpliceOn(b: seq<byte>, off: nat, s: seq<byte>, w: seq<byte>)
    requires off + |s| + |w| <= |b|
    ensures Splice(Splice(b, off, s), off + |s|, w) == Splice(b, off, s + w)
  {
  }

  /**
   `d` is `b` with `s` written at `off`, if that stays inside the page; in any case nothing before
   `off` has changed.
   */
  ghost predicate Wrote(d: seq<byte>, b: seq<byte>, off: nat, s: seq<byte>) {
    && |d| == |b| && off <= |b| && d[..off] == b[..off]
    && (off + |s| <= |b| ==> d == Splice(b, off, s))
  }

  lemma {:induction false} WroteMore(d: seq<byte>, b: seq<byte>, off: nat, s: seq<byte>, w: seq<byte>, d': seq<byte>)
    requires Wrote(d, b, off, s) && off + |s| + |w| <= |b| && d' == Splice(d, off + |s|, w)
    ensures Wrote(d', b, off, s + w)
  {
    SpliceOn(b, off, s, w);
    assert d'[..off] == d[..off];
  }

  /**
   A memcpy at last_point_, which moves on; `s` is what was written since `off`. A copy that would leave
   the page is left out here, in the source it overwrites what lies behind the page.
   */
  method Put(data: array<byte>, point: nat, w: seq<byte>, ghost b: seq<byte>, ghost off: nat,
           ghost s: seq<byte>)
    returns (point': nat)
    requires Wrote(data[..], b, off, s) && point == off + |s|
    modifies data
    ensures Wrote(data[..], b, off, s + w) && point' == point + |w|
  {
    if point + |w| <= data.Length {
      WroteMore(data[..], b, off, s, w, Splice(data[..], point, w));
      Memcpy(data, point, w);
    }
    point' := point + |w|;
  }

  lemma {:induction false} ColumnsSnoc(cs: seq<Column>, i: nat)
    requires i < |cs|
    ensures ColumnsBytes(cs[..i + 1]) == ColumnsBytes(cs[..i]) + ColumnBytes(cs[i])
  {
    ColumnsAppend(cs[..i], [cs[i]]);
    assert ColumnsBytes([cs[i]]) == ColumnBytes(cs[i]) + ColumnsBytes([]) == ColumnBytes(cs[i]);
    assert cs[..i + 1] == cs[..i] + [cs[i]];
  }

  lemma {:induction false} ColumnsAppend(a: seq<Column>, b: seq<Column>)
    ensures ColumnsBytes(a + b) == ColumnsBytes(a) + ColumnsBytes(b)
  {
    if a == [] {
      assert a + b == b && ColumnsBytes(a) + ColumnsBytes(b) == ColumnsBytes(b);
    } else {
      ColumnsAppend(a[1..], b);
      assert (a + b)[1..] == a[1..] + b;
      Assoc(ColumnBytes(a[0]), ColumnsBytes(a[1..]), ColumnsBytes(b));
    }
  }

  method PutColumn(data: array<byte>, point: nat, c: Column, ghost b: seq<byte>, ghost off: nat,
           ghost s: seq<byte>)
    returns (p: nat)
    requires Wrote(data[..], b, off, s) && point == off + |s|
    modifies data
    ensures Wrote(data[..], b, off, s + ColumnBytes(c)) && p == point + 18 + |c.name|
  {
    ghost var t := Enc(|c.name|, 8);
    p := Put(data, point, Enc(|c.name|, 8), b, off, s);
    Assoc(s, t, c.name);
    p := Put(data, p, c.name, b, off, s + t);
    t := t + c.name;
    Assoc(s, t, [c.kind]);
    p := Put(data, p, [c.kind], b, off, s + t);
    t := t + [c.kind];
    Assoc(s, t, [c.flags]);
    p := Put(data, p, [c.flags], b, off, s + t);
    t := t + [c.flags];
    Assoc(s, t, Enc(c.id, 8));
    p := Put(data, p, Enc(c.id, 8), b, off, s + t);
  }

  method PutColumns(data: array<byte>, point: nat, cs: seq<Column>, ghost b: seq<byte>, ghost off: nat,
           ghost s: seq<byte>)
    returns (p: nat)
    requires Wrote(data[..], b, off, s) && point == off + |s|
    modifies data
    ensures Wrote(data[..], b, off, s + ColumnsBytes(cs)) && p == point + ColumnsSize(cs)
  {
    p := point;
    assert s + ColumnsBytes([]) == s && cs[..0] == [];
    for i := 0 to |cs|
      invariant Wrote(data[..], b, off, s + ColumnsBytes(cs[..i])) && p == point + |ColumnsBytes(cs[..i])|
    {
      ColumnsSnoc(cs, i);
      Assoc(s, ColumnsBytes(cs[..i]), ColumnBytes(cs[i]));
      p := PutColumn(data, p, cs[i], b, off, s + ColumnsBytes(cs[..i]));
    }
    assert cs[..|cs|] == cs;
  }

  /** `s` and the numeric fields behind it. */
  function WithNumbers(s: seq<byte>, it: Item): seq<byte> {
    s + Enc(it.first, 8) + Enc(it.rows, 8) + Enc(it.id, 8) + Enc(it.last, 8) + Enc(it.offset, 8) + Enc(|it.columns|, 8)
  }

  /** The numeric fields behind the table name. */
  method PutNumbers(data: array<byte>, point: nat, it: Item, ghost b: seq<byte>, ghost off: nat,
           ghost s: seq<byte>)
    returns (p: nat)
    requires Wrote(data[..], b, off, s) && point == off + |s|
    modifies data
    ensures Wrote(data[..], b, off, WithNumbers(s, it))
    ensures p == point + 48
  {
    p := Put(data, point, Enc(it.first, 8), b, off, s);
    ghost var t := s + Enc(it.first, 8);
    p := Put(data, p, Enc(it.rows, 8), b, off, t);
    t := t + Enc(it.rows, 8);
    p := Put(data, p, Enc(it.id, 8), b, off, t);
    t := t + Enc(it.id, 8);
    p := Put(data, p, Enc(it.last, 8), b, off, t);
    t := t + Enc(it.last, 8);
    p := Put(data, p, Enc(it.offset, 8), b, off, t);
    t := t + Enc(it.offset, 8);
    p := Put(data, p, Enc(|it.columns|, 8), b, off, t);
  }

  /** AddTable's writes of one entry. */
  method PutItem(data: array<byte>, off: nat, it: Item) returns (p: nat)
    requires off <= data.Length
    modifies data
    ensures Wrote(data[..], old(data[..]), off, ItemBytes(it)) && p == off + ItemSize(it)
  {
    ghost var b := data[..];
    assert Splice(b, off, []) == b;
    p := Put(data, off, Enc(|it.name|, 8), b, off, []);
    assert [] + Enc(|it.name|, 8) == Enc(|it.name|, 8);
    p := Put(data, p, it.name, b, off, Enc(|it.name|, 8));
    ghost var s := Enc(|it.name|, 8) + it.name;
    p := PutNumbers(data, p, it, b, off, s);
    s := WithNumbers(s, it);
    p := PutColumns(data, p, it.columns, b, off, s);
  }
}
