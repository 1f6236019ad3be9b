/** MetaPage as an object: the page bytes, and three maps that always say the same as the bytes. */
module Catalogue {
  import opened Common
  import opened Bytes
  import opened MetaPage

  /** name_tables_, id_tables_ and items_. */
  datatype Maps = Maps(names: map<seq<byte>, nat>, ids: map<nat, nat>, items: map<nat, Item>)

  function Noted(m: Maps, e: Item): Maps {
    Maps(m.names[e.name := e.first], m.ids[e.id := e.first], m.items[e.id := e])
  }

  function MapsOf(es: seq<Item>): Maps {
    if es == [] then Maps(map[], map[], map[]) else Noted(MapsOf(es[..|es| - 1]), es[|es| - 1])
  }

  ghost predicate NewKeys(es: seq<Item>, it: Item) { forall e :: e in es ==> e.id != it.id && e.name != it.name }

  /** No two tables share an id or a name. */
  ghost predicate DistinctKeys(es: seq<Item>) {
    es == [] || (NewKeys(es[..|es| - 1], es[|es| - 1]) && DistinctKeys(es[..|es| - 1]))
  }

  ghost predicate Knows(m: Maps, e: Item) {
    && e.id in m.items && m.items[e.id] == e && e.id in m.ids && m.ids[e.id] == e.first
    && e.name in m.names && m.names[e.name] == e.first
  }

  /** The maps hold every entry, */
  lemma {:induction false} MapsKnow(es: seq<Item>, k: nat)
    requires DistinctKeys(es) && k < |es|
    ensures Knows(MapsOf(es), es[k])
  {
    if k < |es| - 1 {
      MapsKnow(es[..|es| - 1], k);
      assert es[..|es| - 1][k] == es[k] && es[k] in es[..|es| - 1];
    }
  }

  /** and nothing but entries. */
  lemma {:induction false} MapsOnly(es: seq<Item>, id: nat) returns (k: nat)
    requires id in MapsOf(es).items
    ensures k < |es| && es[k].id == id
  {
    k := |es| - 1;
    if es[k].id != id { k := MapsOnly(es[..|es| - 1], id); }
  }

  lemma {:induction false} NoteTwice(m: Maps, e: Item, e': Item)
    requires e.id == e'.id && e.name == e'.name
    ensures Noted(Noted(m, e), e') == Noted(m, e')
  {
  }

  lemma {:induction false} MapSwap<K, V>(m: map<K, V>, a: K, x: V, b: K, y: V)
    requires a != b
    ensures m[a := x][b := y] == m[b := y][a := x]
  {
  }

  lemma {:induction false} NoteSwap(m: Maps, e: Item, f: Item)
    requires e.id != f.id && e.name != f.name
    ensures Noted(Noted(m, e), f) == Noted(Noted(m, f), e)
  {
    MapSwap(m.names, e.name, e.first, f.name, f.first);
    MapSwap(m.ids, e.id, e.first, f.id, f.first);
    MapSwap(m.items, e.id, e, f.id, f);
  }

  /** Changing one entry's fields is noting the changed entry. */
  lemma {:induction false} MapsPatched(es: seq<Item>, k: nat, e: Item)
    requires DistinctKeys(es) && k < |es| && e.id == es[k].id && e.name == es[k].name
    ensures MapsOf(es[k := e]) == Noted(MapsOf(es), e) && DistinctKeys(es[k := e])
  {
    var n := |es| - 1;
    var l := es[..n];
    if k == n {
      assert es[k := e][..n] == l;
      NoteTwice(MapsOf(l), es[n], e);
    } else {
      assert es[k := e][..n] == l[k := e] && l[k] in l;
      MapsPatched(l, k, e);
      NoteSwap(MapsOf(l), es[n], e);
      assert NewKeys(l[k := e], es[n]);
    }
  }

  lemma {:induction false} HeadCounters(b: seq<byte>, v: seq<byte>, t: seq<byte>, l: seq<byte>)
    requires |v| == 8 && |t| == 8 && |l| == 8 && |b| >= 24 && At(b, 0, v)
    ensures Splice(Splice(b, 16, l), 8, t) == Splice(b, 0, v + t + l)
  {
  }

  lemma {:induction false} HeadVersion(b: seq<byte>, version: nat, t: nat, l: nat)
    requires At(b, 0, HeadBytes(version, t, l)) && version < Range(8) && t < Range(8) && l < Range(8) && |b| >= 24
    ensures At(b, 0, Enc(version, 8)) && Dec(b[0..8]) == version && Dec(b[8..16]) == t && Dec(b[16..24]) == l
  {
    var v, u, w := Enc(version, 8), Enc(t, 8), Enc(l, 8);
    AtSplit(b, 0, v + u, w);
    AtSplit(b, 0, v, u);
    AtSplit3(b, v, u, w);
    DecEnc(version, 8);
    DecEnc(t, 8);
    DecEnc(l, 8);
  }

  lemma {:induction false} AtSplit3(b: seq<byte>, v: seq<byte>, u: seq<byte>, w: seq<byte>)
    requires |v| == 8 && |u| == 8 && |w| == 8 && At(b, 0, v + u + w)
    ensures b[0..8] == v && b[8..16] == u && b[16..24] == w
  {
    Cut(b, 0, v + u + w, 0, 8);
    Cut(b, 0, v + u + w, 8, 16);
    Cut(b, 0, v + u + w, 16, 24);
  }

  lemma {:induction false} EntryThere(b: seq<byte>, version: nat, es: seq<Item>, i: nat)
    requires Holds(b, version, es) && i < |es|
    ensures At(b, Start(es, i), ItemBytes(es[i])) && ItemFits(es[i]) && es[i].offset == Start(es, i)
  {
    EntryAt(b, es, |es|, i);
  }

  /** ReadMata's loop over the entries. */
  method ReadEntries(b: seq<byte>, n: nat, ghost version: nat, ghost es: seq<Item>) returns (maps: Maps, offset: nat)
    requires Holds(b, version, es) && n == |es|
    ensures maps == MapsOf(es) && offset == Start(es, |es|)
  {
    maps, offset := Maps(map[], map[], map[]), ITEMS_BEGIN;
    for i := 0 to n
      invariant maps == MapsOf(es[..i]) && offset == Start(es, i)
    {
      EntryThere(b, version, es, i);
      var it;
      it, offset := ReadItem(b, offset, es[i]);
      assert es[..i + 1][..i] == es[..i];
      maps := Noted(maps, it);
    }
    assert es[..n] == es;
  }

  lemma {:induction false} CountersFit(b: seq<byte>, version: nat, es: seq<Item>)
    requires Holds(b, version, es)
    ensures |es| < Range(8) && Start(es, |es|) < Range(8)
    ensures At(b, 0, Enc(version, 8)) && Dec(b[0..8]) == version && Dec(b[8..16]) == |es|
    ensures Dec(b[16..24]) == Start(es, |es|)
  {
    EntriesGrow(es);
    Widths();
    HeadVersion(b, version, |es|, Start(es, |es|));
  }

  // ----- Operations ---------------------------------------------------------------------------

  /** What the object knows beside the bytes: header fields, maps, and the entries in the order they were added. */
  datatype Cat = Cat(version: nat, tables: nat, lastPoint: nat, maps: Maps, entries: seq<Item>)

  /** AddTable's guard. It forgets the offset and column-count fields and the columns. */
  predicate GuardPasses(lastPoint: nat, it: Item) { lastPoint + ITEM_FIXED_SIZE + |it.name| < PAGE_SIZE }

  /** How AddTable ends; on Overrun the source has written past the end of the catalogue page. */
  datatype AddResult = Added | Thrown | Overrun

  function AddOutcome(lastPoint: nat, item: Item): AddResult {
    if !GuardPasses(lastPoint, item) then Thrown else if lastPoint + ItemSize(item) > PAGE_SIZE then Overrun else Added
  }

  /** AddTable of an entry that fits. */
  function WithTable(c: Cat, item: Item): Cat {
    var it := item.(offset := c.lastPoint);
    Cat(c.version, c.tables + 1, c.lastPoint + ItemSize(it), Noted(c.maps, it), c.entries + [it])
  }

  /** UpdateTableFirstId also tells the two maps that cache the first page. */
  function NotedField(m: Maps, e: Item, f: Field): Maps {
    if f.First? then Noted(m, e) else m.(items := m.items[e.id := e])
  }

  function IndexOf(es: seq<Item>, id: nat): (k: nat)
    ensures k <= |es| && (k < |es| ==> es[k].id == id)
  {
    if es == [] then 0 else if es[0].id == id then 0 else 1 + IndexOf(es[1..], id)
  }

  /** The three in-place updates of a known table. */
  function WithField(c: Cat, id: nat, f: Field, v: nat): Cat {
    var k := IndexOf(c.entries, id);
    if id in c.maps.items && k < |c.entries| then
      var e := With(c.maps.items[id], f, v);
      c.(maps := NotedField(c.maps, e, f), entries := c.entries[k := e])
    else c
  }

  datatype Event = Add(item: Item) | Set(id: nat, f: Field, v: nat)

  /** New ids and names, values that fit their fields. */
  ghost predicate Enabled(c: Cat, e: Event) {
    match e
    case Add(item) => ItemFits(item) && NewKeys(c.entries, item)
    case Set(_, _, v) => v < Range(8)
  }

  /** An AddTable that throws, or overruns the page, leaves the catalogue as it was. */
  function Apply(c: Cat, e: Event): Cat {
    match e
    case Add(item) => if AddOutcome(c.lastPoint, item) == AddResult.Added then WithTable(c, item) else c
    case Set(id, f, v) => WithField(c, id, f, v)
  }

  /** The maps and the end say what the entries say, and every entry fits its page. */
  ghost predicate CatOk(c: Cat) {
    && c.tables == |c.entries| && c.lastPoint == Start(c.entries, |c.entries|) <= PAGE_SIZE
    && DistinctKeys(c.entries) && c.maps == MapsOf(c.entries)
  }

  ghost predicate Reaches(c: Cat, es: seq<Event>, d: Cat)
    decreases |es|
  {
    if es == [] then d == c else Enabled(c, es[0]) && Reaches(Apply(c, es[0]), es[1..], d)
  }

  /** Some run of calls leads here from a page as Init or ReadMata took it over. */
  ghost predicate Reached(c: Cat) { exists c0, es :: CatOk(c0) && Reaches(c0, es, c) }

  // ----- Agreement ----------------------------------------------------------------------------

  /** The entry of a known table, */
  lemma {:induction false} Found(es: seq<Item>, id: nat) returns (k: nat)
    requires DistinctKeys(es) && id in MapsOf(es).items
    ensures k < |es| && es[k].id == id && Knows(MapsOf(es), es[k])
  {
    k := MapsOnly(es, id);
    MapsKnow(es, k);
  }

  /** and its name length on the page. */
  lemma {:induction false} NameLength(b: seq<byte>, version: nat, es: seq<Item>, k: nat)
    requires Holds(b, version, es) && k < |es|
    ensures es[k].offset + 8 <= |b| && Dec(b[es[k].offset..es[k].offset + 8]) == |es[k].name|
  {
    EntryThere(b, version, es, k);
    ItemHead(b, es[k].offset, es[k], es[k].offset + 8 + |es[k].name|);
  }

  /** Noting an entry whose first page did not change touches only items_. */
  lemma {:induction false} NotedItem(m: Maps, e: Item, e': Item)
    requires Knows(m, e) && e'.id == e.id && e'.name == e.name && e'.first == e.first
    ensures Noted(m, e') == m.(items := m.items[e.id := e'])
  {
  }

  /** The 8-byte field `past` bytes behind the name of entry `e` says `v`, and nothing else differs. */
  ghost predicate PatchedOnly(b: seq<byte>, b': seq<byte>, e: Item, past: nat, v: nat) {
    var p := e.offset + 8 + |e.name| + past;
    && |b'| == |b| && p + 8 <= |b| && b'[p..p + 8] == Enc(v, 8)
    && forall i :: 0 <= i < |b| && !(p <= i < p + 8) ==> b'[i] == b[i]
  }

  /** The entry of table `id` is now `e`; every other entry is as it was. */
  ghost predicate ItemSet(m: Maps, m': Maps, es: seq<Item>, es': seq<Item>, id: nat, e: Item) {
    && m'.items == m.items[id := e] && |es'| == |es|
    && forall k :: 0 <= k < |es| ==> es'[k] == if es[k].id == id then e else es[k]
  }

  lemma {:induction false} VersionKept(b: seq<byte>, version: nat, es: seq<Item>, it: Item, b': seq<byte>)
    requires Holds(b, version, es) && it.offset == Start(es, |es|) && it.offset + ItemSize(it) <= PAGE_SIZE
    requires b' == Splice(b, it.offset, ItemBytes(it))
    ensures At(b', 0, Enc(version, 8))
  {
    CountersFit(b, version, es);
    AtKept(b, 0, Enc(version, 8), it.offset, ItemBytes(it));
  }

  /** Bytes before the end of the entries are all that counts. */
  lemma {:induction false} HoldsBefore(b: seq<byte>, b': seq<byte>, version: nat, es: seq<Item>, end: nat)
    requires Holds(b, version, es) && |b'| == |b| && end == Start(es, |es|) && b'[..end] == b[..end]
    ensures Holds(b', version, es)
  {
    AtBefore(b, b', 0, HeadBytes(version, |es|, Start(es, |es|)), end);
    forall i {:trigger EntryOk(b', es, i)} | 0 <= i < |es| ensures EntryOk(b', es, i) {
      EntryAt(b, es, |es|, i);
      StartGrows(es, i, |es|);
      AtBefore(b, b', Start(es, i), ItemBytes(es[i]), end);
    }
    EntriesAll(b', es, |es|);
  }

  lemma {:induction false} AtBefore(b: seq<byte>, b': seq<byte>, off: nat, s: seq<byte>, end: nat)
    requires At(b, off, s) && off + |s| <= end <= |b| == |b'| && b'[..end] == b[..end]
    ensures At(b', off, s)
  {
    forall j | 0 <= j < |s| ensures b'[off + j] == s[j] {
      assert b'[..end][off + j] == b[..end][off + j];
    }
  }

  lemma {:induction false} AddedDistinct(es: seq<Item>, it: Item)
    requires DistinctKeys(es) && NewKeys(es, it)
    ensures DistinctKeys(es + [it]) && MapsOf(es + [it]) == Noted(MapsOf(es), it)
  {
    assert (es + [it])[..|es|] == es;
  }

  lemma {:induction false} AddKeeps(c: Cat, item: Item)
    requires CatOk(c) && NewKeys(c.entries, item) && AddOutcome(c.lastPoint, item) == AddResult.Added
    ensures CatOk(WithTable(c, item))
  {
    var it := item.(offset := c.lastPoint);
    AddedDistinct(c.entries, it);
    StartAppend(c.entries, it, |c.entries|);
  }

  lemma {:induction false} OffsetFits(item: Item, off: nat)
    requires ItemFits(item) && off < Range(8)
    ensures ItemFits(item.(offset := off))
  {
  }

  lemma {:induction false} IndexIs(es: seq<Item>, k: nat)
    requires DistinctKeys(es) && k < |es|
    ensures IndexOf(es, es[k].id) == k
  {
    if k > 0 {
      KeysApart(es, 0, k);
      TailDistinct(es);
      IndexIs(es[1..], k - 1);
    }
  }

  lemma {:induction false} KeysApart(es: seq<Item>, i: nat, j: nat)
    requires DistinctKeys(es) && i < j < |es|
    ensures es[i].id != es[j].id && es[i].name != es[j].name
  {
    var l := es[..|es| - 1];
    if j < |es| - 1 { KeysApart(l, i, j); } else { assert l[i] in l; }
  }

  lemma {:induction false} TailDistinct(es: seq<Item>)
    requires DistinctKeys(es) && es != []
    ensures DistinctKeys(es[1..])
  {
    var n := |es| - 1;
    if n > 0 {
      TailDistinct(es[..n]);
      assert es[1..][..n - 1] == es[..n][1..];
      forall e | e in es[1..][..n - 1] ensures e.id != es[n].id && e.name != es[n].name { assert e in es[..n]; }
    }
  }

  /** A known table's entry. */
  lemma {:induction false} KnownEntry(c: Cat, id: nat) returns (k: nat)
    requires CatOk(c) && id in c.maps.items
    ensures k == IndexOf(c.entries, id) < |c.entries| && c.maps.items[id] == c.entries[k] && Knows(c.maps, c.entries[k])
  {
    k := Found(c.entries, id);
    IndexIs(c.entries, k);
  }

  lemma {:induction false} SetKeeps(c: Cat, id: nat, f: Field, v: nat)
    requires CatOk(c)
    ensures CatOk(WithField(c, id, f, v))
  {
    if id in c.maps.items {
      var k := KnownEntry(c, id);
      var e := With(c.entries[k], f, v);
      SetMaps(c.entries, k, f, v, e, c.entries[k := e]);
    }
  }

  lemma {:induction false} SetMaps(es: seq<Item>, k: nat, f: Field, v: nat, e: Item, es': seq<Item>)
    requires DistinctKeys(es) && k < |es| && Knows(MapsOf(es), es[k]) && e == With(es[k], f, v) && es' == es[k := e]
    ensures DistinctKeys(es') && MapsOf(es') == NotedField(MapsOf(es), e, f) && Start(es', |es'|) == Start(es, |es|)
  {
    MapsPatched(es, k, e);
    StartUpdate(es, k, e, |es|);
    if !f.First? { NotedItem(MapsOf(es), es[k], e); }
  }

  lemma {:induction false} StepKeeps(c: Cat, e: Event)
    requires CatOk(c) && Enabled(c, e)
    ensures CatOk(Apply(c, e))
  {
    match e
    case Add(item) => if AddOutcome(c.lastPoint, item) == AddResult.Added { AddKeeps(c, item); }
    case Set(id, f, v) => SetKeeps(c, id, f, v);
  }

  lemma {:induction false} RunKeeps(c: Cat, es: seq<Event>, d: Cat)
    requires CatOk(c) && Reaches(c, es, d)
    ensures CatOk(d)
    decreases |es|
  {
    if es != [] {
      StepKeeps(c, es[0]);
      RunKeeps(Apply(c, es[0]), es[1..], d);
    }
  }

  /** After any sequence of AddTable and updates, entries, maps and end agree. */
  lemma ReachedOk(c: Cat)
    requires Reached(c)
    ensures CatOk(c)
  {
    var c0, es :| CatOk(c0) && Reaches(c0, es, c);
    RunKeeps(c0, es, c);
  }

  lemma {:induction false} ReachesSnoc(c: Cat, es: seq<Event>, d: Cat, e: Event)
    requires Reaches(c, es, d) && Enabled(d, e)
    ensures Reaches(c, es + [e], Apply(d, e))
    decreases |es|
  {
    var l := es + [e];
    if es == [] {
      assert l[1..] == [] && Reaches(Apply(d, e), [], Apply(d, e));
    } else {
      ReachesSnoc(Apply(c, es[0]), es[1..], d, e);
      assert l[0] == es[0] && l[1..] == es[1..] + [e];
    }
  }

  lemma ReachedStep(c: Cat, e: Event)
    requires Reached(c) && Enabled(c, e)
    ensures Reached(Apply(c, e))
  {
    var c0, es :| CatOk(c0) && Reaches(c0, es, c);
    ReachesSnoc(c0, es, c, e);
  }

  lemma ReachedStart(c: Cat)
    requires CatOk(c)
    ensures Reached(c)
  {
    assert Reaches(c, [], c);
  }

  lemma {:induction false} NamesOnly(es: seq<Item>, name: seq<byte>)
    requires name in MapsOf(es).names
    ensures exists e :: e in es && e.name == name
  {
    var l := es[|es| - 1];
    assert l in es;
    if l.name != name {
      NamesOnly(es[..|es| - 1], name);
      var e :| e in es[..|es| - 1] && e.name == name;
      assert e in es;
    }
  }

  // ----- The object ---------------------------------------------------------------------------

  /** WriteLastPoint and UpdateTableSize. */
  method WriteCounters(data: array<byte>, version: nat, tables: nat, lastPoint: nat)
    requires 24 <= data.Length && At(data[..], 0, Enc(version, 8))
    modifies data
    ensures data[..] == Splice(old(data[..]), 0, HeadBytes(version, tables, lastPoint))
  {
    HeadCounters(data[..], Enc(version, 8), Enc(tables, 8), Enc(lastPoint, 8));
    Memcpy(data, 16, Enc(lastPoint, 8));
    Memcpy(data, 8, Enc(tables, 8));
  }

  /** The object's state came about by calls, and the bytes say the same. */
  ghost predicate Sound(b: seq<byte>, c: Cat) {
    match c
    case Cat(version, _, _, _, entries) => Reached(c) && Holds(b, version, entries)
  }

  /**
   AddTable's writes: the entry, then, if the moving end stayed inside the page, the header's counters.
   The page holds one entry more, or, after an overrun, still the ones it held.
   */
  method WriteEntry(data: array<byte>, point: nat, item: Item, version: nat, tables: nat, ghost c: Cat) returns (p: nat)
    requires data.Length == PAGE_SIZE && Sound(data[..], c) && Enabled(c, Add(item)) && GuardPasses(point, item)
    requires point == c.lastPoint && version == c.version && tables == c.tables
    modifies data
    ensures p == point + ItemSize(item) && Sound(data[..], Apply(c, Add(item)))
  {
    AddFacts(c, item);
    var it := item.(offset := point);
    ghost var b := data[..];
    p := PutItem(data, point, it);
    if p <= PAGE_SIZE {
      VersionKept(b, version, c.entries, it, data[..]);
      WriteCounters(data, version, tables + 1, p);
      EntryAdded(b, version, c.entries, it, data[..], c.entries + [it], tables + 1, p);
    } else {
      HoldsBefore(b, data[..], version, c.entries, point);
    }
  }

  lemma {:induction false} OnlyThePatch(b: seq<byte>, e: Item, past: nat, v: nat, p: nat)
    requires p == e.offset + 8 + |e.name| + past && p + 8 <= |b|
    ensures PatchedOnly(b, Splice(b, p, Enc(v, 8)), e, past, v)
  {
  }

  /** An update's write, at the place computed from the name length on the page. */
  method PatchField(data: array<byte>, id: nat, off: nat, f: Field, v: nat, ghost c: Cat)
    requires data.Length == PAGE_SIZE && Sound(data[..], c) && id in c.maps.items && off == c.maps.items[id].offset
    requires v < Range(8)
    modifies data
    ensures Sound(data[..], Apply(c, Set(id, f, v)))
    ensures PatchedOnly(old(data[..]), data[..], c.maps.items[id], Past(f), v)
  {
    SetFacts(c, id, f, v);
    ghost var k := IndexOf(c.entries, id);
    ghost var p := FieldAt(c.entries[k], f);
    NameLength(data[..], c.version, c.entries, k);
    EntryPatched(data[..], c.version, c.entries, k, f, v, Apply(c, Set(id, f, v)).entries, p);
    var at := off + 8 + Dec(data[..][off..off + 8]) + Past(f);
    assert at == p;
    OnlyThePatch(data[..], c.entries[k], Past(f), v, p);
    Memcpy(data, at, Enc(v, 8));
  }

  /** What AddTable needs to know. */
  lemma {:induction false} AddFacts(c: Cat, item: Item)
    requires Reached(c) && Enabled(c, Add(item))
    ensures Reached(Apply(c, Add(item))) && c.tables == |c.entries| && c.lastPoint == Start(c.entries, |c.entries|)
    ensures ItemFits(item.(offset := c.lastPoint)) && ItemSize(item.(offset := c.lastPoint)) == ItemSize(item)
  {
    ReachedOk(c);
    ReachedStep(c, Add(item));
    Widths();
    OffsetFits(item, c.lastPoint);
  }

  /** What an update needs to know. */
  lemma {:induction false} SetFacts(c: Cat, id: nat, f: Field, v: nat)
    requires Reached(c) && v < Range(8) && id in c.maps.items
    ensures Reached(Apply(c, Set(id, f, v)))
    ensures IndexOf(c.entries, id) < |c.entries| && c.maps.items[id] == c.entries[IndexOf(c.entries, id)]
  {
    ReachedOk(c);
    var k := KnownEntry(c, id);
    ReachedStep(c, Set(id, f, v));
  }

  lemma {:induction false} KnownIndex(b: seq<byte>, c: Cat, id: nat)
    requires Sound(b, c) && id in c.maps.items
    ensures IndexOf(c.entries, id) < |c.entries| && c.maps.items[id].id == id
  {
    ReachedOk(c);
    var k := KnownEntry(c, id);
  }

  /** Setting the entry found is setting the only one with that id. */
  lemma {:induction false} OneEntry(c: Cat, id: nat, e: Item)
    requires Reached(c) && id in c.maps.items
    ensures var k := IndexOf(c.entries, id);
      k < |c.entries| && forall j :: 0 <= j < |c.entries| ==>
        c.entries[k := e][j] == if c.entries[j].id == id then e else c.entries[j]
  {
    ReachedOk(c);
    var k := KnownEntry(c, id);
    forall j | 0 <= j < |c.entries| ensures c.entries[j].id == id <==> j == k { OnlyThere(c.entries, k, j); }
  }

  lemma {:induction false} OnlyThere(es: seq<Item>, k: nat, j: nat)
    requires DistinctKeys(es) && k < |es| && j < |es|
    ensures es[j].id == es[k].id <==> j == k
  {
    if j < k { KeysApart(es, j, k); } else if k < j { KeysApart(es, k, j); }
  }

  class Catalogue {
    var data: array<byte>
    var version: nat
    var tables: nat
    var lastPoint: nat
    var maps: Maps
    /** The entries, in the order they were added. */
    ghost var entries: seq<Item>

    ghost function State(): Cat
      reads this
    {
      Cat(version, tables, lastPoint, maps, entries)
    }

    ghost predicate Valid()
      reads this, data
    {
      data.Length == PAGE_SIZE && Sound(data[..], State())
    }

    /** Init on a page without tables. */
    constructor Init(buffer: array<byte>)
      requires buffer.Length == PAGE_SIZE
      modifies buffer
      ensures Valid() && data == buffer && entries == [] && lastPoint == ITEMS_BEGIN
    {
      data := buffer;
      version := 0;
      tables := 0;
      lastPoint := ITEMS_BEGIN;
      maps := Maps(map[], map[], map[]);
      entries := [];
      new;
      Memcpy(data, 0, HeadBytes(0, 0, ITEMS_BEGIN));
      assert At(data[..], 0, HeadBytes(0, 0, ITEMS_BEGIN));
      Widths();
      ReachedStart(State());
    }

    /** ReadMata: whatever catalogue page the bytes are, this rebuilds it. */
    constructor ReadMata(buffer: array<byte>, ghost v: nat, ghost es: seq<Item>)
      requires buffer.Length == PAGE_SIZE && Holds(buffer[..], v, es) && DistinctKeys(es)
      ensures Valid() && data == buffer
      ensures version == v && entries == es && tables == |es| && maps == MapsOf(es) && lastPoint == Start(es, |es|)
    {
      data := buffer;
      var b := buffer[..];
      CountersFit(b, v, es);
      version := Dec(b[0..8]);
      tables := Dec(b[8..16]);
      var m, p := ReadEntries(b, Dec(b[8..16]), v, es);
      maps := m;
      lastPoint := p;
      entries := es;
      new;
      ReachedStart(State());
    }

    /**
     AddTable: throws exactly when its guard fails, and then nothing has changed. The guard is too weak:
     the entry runs over the page exactly when its 40 counted bytes and name end before the page does
     but the whole entry does not. There the model stops; what was in the catalogue still stands.
     */
    method AddTable(item: Item) returns (r: AddResult)
      requires Valid() && ItemFits(item) && NewKeys(entries, item)
      modifies this`tables, this`lastPoint, this`maps, this`entries, data
      ensures Valid()
      ensures r == Thrown <==> !old(GuardPasses(lastPoint, item))
      ensures r == Overrun <==>
                && old(lastPoint) + 40 + |item.name| < PAGE_SIZE
                && PAGE_SIZE < old(lastPoint) + 56 + |item.name| + ColumnsSize(item.columns)
      ensures r == AddResult.Added ==> entries == old(entries) + [item.(offset := old(lastPoint))]
      ensures State() == Apply(old(State()), Add(item)) && (r == Thrown ==> data[..] == old(data[..]))
    {
      ghost var c := State();
      if !GuardPasses(lastPoint, item) {
        r := Thrown;
        return;
      }
      var p := WriteEntry(data, lastPoint, item, version, tables, c);
      r := Overrun;
      if p <= PAGE_SIZE {
        Register(item, p);
        r := AddResult.Added;
      }
    }

    method Register(item: Item, p: nat)
      requires p == lastPoint + ItemSize(item)
      modifies this`tables, this`lastPoint, this`maps, this`entries
      ensures State() == WithTable(old(State()), item)
    {
      var it := item.(offset := lastPoint);
      lastPoint, maps, tables := p, Noted(maps, it), tables + 1;
      entries := entries + [it];
    }

    /** The common part of the three updates. */
    method SetField(id: nat, f: Field, v: nat)
      requires Valid() && id in maps.items && v < Range(8)
      modifies this`maps, this`entries, data
      ensures Valid() && State() == Apply(old(State()), Set(id, f, v))
      ensures maps == NotedField(old(maps), With(old(maps.items[id]), f, v), f) && old(maps.items[id]).id == id
      ensures ItemSet(old(maps), maps, old(entries), entries, id, With(old(maps.items[id]), f, v))
      ensures PatchedOnly(old(data[..]), data[..], old(maps.items[id]), Past(f), v)
    {
      ghost var c := State();
      KnownIndex(data[..], c, id);
      OneEntry(c, id, With(maps.items[id], f, v));
      var e := With(maps.items[id], f, v);
      PatchField(data, id, e.offset, f, v, c);
      Note(id, e, f);
    }

    method Note(id: nat, e: Item, f: Field)
      requires e.id == id && IndexOf(entries, id) < |entries|
      modifies this`maps, this`entries
      ensures maps == NotedField(old(maps), e, f) && entries == old(entries)[IndexOf(old(entries), id) := e]
    {
      maps := maps.(items := maps.items[e.id := e]);
      if f.First? {
        maps := maps.(names := maps.names[e.name := e.first], ids := maps.ids[e.id := e.first]);
      }
      entries := entries[IndexOf(entries, id) := e];
    }

    /** UpdateTableRows: throws exactly for an unknown table; a count never drops below zero. */
    method UpdateTableRows(id: nat, delta: int) returns (ok: bool)
      requires Valid() && (id in maps.items ==> maps.items[id].rows + delta < Range(8))
      modifies this`maps, this`entries, data
      ensures Valid() && ok == (id in old(maps.items))
      ensures ok ==> var v := ClampedSum(old(maps.items[id].rows), delta);
                     && State() == Apply(old(State()), Set(id, Rows, v))
                     && ItemSet(old(maps), maps, old(entries), entries, id, old(maps.items[id]).(rows := v))
                     && PatchedOnly(old(data[..]), data[..], old(maps.items[id]), 8, v)
      ensures maps.names == old(maps.names) && maps.ids == old(maps.ids)
      ensures !ok ==> State() == old(State())
    {
      ok := id in maps.items;
      if ok { SetField(id, Rows, ClampedSum(maps.items[id].rows, delta)); }
    }

    /** UpdateTableFirstId: the two maps that cache the first page follow. */
    method UpdateTableFirstId(id: nat, first: nat) returns (ok: bool)
      requires Valid() && first < Range(8)
      modifies this`maps, this`entries, data
      ensures Valid() && ok == (id in old(maps.items))
      ensures ok ==> State() == Apply(old(State()), Set(id, First, first))
      ensures ok ==> ItemSet(old(maps), maps, old(entries), entries, id, old(maps.items[id]).(first := first))
      ensures ok ==> maps.names == old(maps.names)[old(maps.items[id].name) := first]
      ensures ok ==> maps.ids == old(maps.ids)[id := first]
      ensures ok ==> PatchedOnly(old(data[..]), data[..], old(maps.items[id]), 0, first)
      ensures !ok ==> State() == old(State())
    {
      ok := id in maps.items;
      if ok { SetField(id, First, first); }
    }

    method UpdateTableLastId(id: nat, last: nat) returns (ok: bool)
      requires Valid() && last < Range(8)
      modifies this`maps, this`entries, data
      ensures Valid() && ok == (id in old(maps.items))
      ensures ok ==> State() == Apply(old(State()), Set(id, Last, last))
      ensures ok ==> ItemSet(old(maps), maps, old(entries), entries, id, old(maps.items[id]).(last := last))
      ensures maps.names == old(maps.names) && maps.ids == old(maps.ids)
      ensures ok ==> PatchedOnly(old(data[..]), data[..], old(maps.items[id]), 24, last)
      ensures !ok ==> State() == old(State())
    {
      ok := id in maps.items;
      if ok { SetField(id, Last, last); }
    }

    /** GetFirstPageId, by name: throws exactly for a name no table has. */
    method GetFirstPageId(name: seq<byte>) returns (ok: bool, first: nat)
      requires Valid()
      ensures ok <==> exists e :: e in entries && e.name == name
      ensures forall e :: e in entries && e.name == name ==> first == e.first
    {
      ReachedOk(State());
      ok := name in maps.names;
      first := if ok then maps.names[name] else 0;
      forall e | e in entries && e.name == name ensures ok && first == e.first {
        var k :| 0 <= k < |entries| && entries[k] == e;
        MapsKnow(entries, k);
      }
      if ok { NamesOnly(entries, name); }
    }
  }

  // ----- The guard is too weak ----------------------------------------------------------------

  /** A table "t" with 210 INTEGER columns aa, ab, ac, ... */
  function WideTable(): Item {
    Item([116], 0, 0, 1, 0, 0, seq(210, k requires 0 <= k < 210 => Column([97 + k / 26, 97 + k % 26], 1, 0, k)))
  }

  lemma {:induction false} TwoLetterColumns(cs: seq<Column>)
    requires forall c :: c in cs ==> |c.name| == 2
    ensures ColumnsSize(cs) == 20 * |cs|
  {
    if cs != [] { TwoLetterColumns(cs[1..]); }
  }

  /** On every page as Init leaves it, this table passes the guard although its entry ends past the page. */
  lemma {:induction false} GuardTooWeak(b: seq<byte>, version: nat)
    requires Holds(b, version, [])
    ensures ItemFits(WideTable()) && GuardPasses(Start([], 0), WideTable())
    ensures Start([], 0) + ItemSize(WideTable()) > PAGE_SIZE
  {
    var it := WideTable();
    TwoLetterColumns(it.columns);
    WideFits(it);
  }

  lemma {:induction false} WideFits(it: Item)
    requires it.name == [116] && it.first == 0 && it.rows == 0 && it.id == 1 && it.last == 0 && it.offset == 0
    requires |it.columns| == 210
    requires forall c :: c in it.columns ==> |c.name| == 2 && c.id < 210
    ensures ItemFits(it)
  {
    Widths();
  }

  /** So creating it as the first table of a database runs over the page. */
  method WideTableOverruns(buffer: array<byte>) returns (r: AddResult)
    requires buffer.Length == PAGE_SIZE
    modifies buffer
    ensures r == Overrun
  {
    var c := new Catalogue.Init(buffer);
    ReachedOk(c.State());
    GuardTooWeak(c.data[..], c.version);
    r := c.AddTable(WideTable());
  }
}
