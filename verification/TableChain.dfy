/**
 A table's pages as a linked chain: how inserts grow it, and the iterator that walks it. Pages are
 taken as what `TablePage.Represents` says their bytes are, a header and a list of tuples.
 */
module TableChain {
  import opened Common
  import opened Bytes
  import opened TablePage

  datatype PageVal = PageVal(h: PageHeader, tuples: seq<seq<byte>>)

  datatype Rid = Rid(page: nat, row: nat)

  type Pages = map<nat, PageVal>

  /** A table's pages, its first and last page id (0 while it has none), and the next page id. */
  datatype File = File(pages: Pages, chain: seq<nat>, first: nat, last: nat, next: nat)

  function Fresh(id: nat): PageVal { PageVal(PageHeader(0, 0, id, 0, 0), []) }

  function PageOf(pages: Pages, id: nat): PageVal { if id in pages then pages[id] else Fresh(id) }

  function Put(p: PageVal, t: seq<byte>): PageVal { PageVal(p.h.(rows := p.h.rows + 1), p.tuples + [t]) }

  predicate HasSpace(p: PageVal, t: seq<byte>) { |t| + SLOT_SIZE <= Free(p.tuples) }

  // ----- Operations ---------------------------------------------------------------------------

  function SetNext(p: PageVal, id: nat): PageVal { p.(h := p.h.(next := id)) }

  /** A fresh page behind the last one, or the first page of the table. */
  function Linked(f: File): File {
    var pages := if f.last == 0 then f.pages else f.pages[f.last := SetNext(PageOf(f.pages, f.last), f.next)];
    var first := if f.first == 0 then f.next else f.first;
    File(pages[f.next := Fresh(f.next)], f.chain + [f.next], first, f.next, f.next + 1)
  }

  function LastPage(f: File): PageVal { PageOf(f.pages, f.last) }

  function Placed(f: File, t: seq<byte>): File { f.(pages := f.pages[f.last := Put(LastPage(f), t)]) }

  /** ExecutorInsert::Open: the first page is allocated when the first row comes. */
  function Opened(f: File): File { if f.last == 0 then Linked(f) else f }

  /** A last page with room for the tuple, if a page can have it. */
  function Roomy(f: File, t: seq<byte>): File {
    var o := Opened(f);
    if HasSpace(LastPage(o), t) then o else Linked(o)
  }

  /** One turn of ExecutorInsert::Next. */
  function Inserted(f: File, t: seq<byte>): File {
    var r := Roomy(f, t);
    if HasSpace(LastPage(r), t) then Placed(r, t) else r
  }

  /** Inserts and new versions of updates; other tables and the undo store take page ids too. */
  datatype Event = Insert(t: seq<byte>) | Elsewhere(n: nat)

  function Apply(f: File, e: Event): File {
    match e
    case Insert(t) => Inserted(f, t)
    case Elsewhere(n) => f.(next := f.next + n)
  }

  function Run(es: seq<Event>): File {
    if es == [] then File(map[], [], 0, 0, 1) else Apply(Run(es[..|es| - 1]), es[|es| - 1])
  }

  ghost predicate Reached(f: File) { exists es :: Run(es) == f }

  lemma ReachedStep(f: File, e: Event)
    requires Reached(f)
    ensures Reached(Apply(f, e))
  {
    var es :| Run(es) == f;
    assert (es + [e])[..|es|] == es && Run(es + [e]) == Apply(f, e);
  }

  // ----- The chain ----------------------------------------------------------------------------

  ghost predicate LinkOk(f: File, i: int)
    requires 0 <= i < |f.chain|
  {
    var id := f.chain[i];
    && 1 <= id < f.next && id in f.pages && f.pages[id].h.pageId == id && f.pages[id].h.rows == |f.pages[id].tuples|
    && f.pages[id].h.next == if i + 1 < |f.chain| then f.chain[i + 1] else 0
  }

  ghost predicate Increasing(chain: seq<nat>) {
    |chain| <= 1 || (chain[|chain| - 2] < chain[|chain| - 1] && Increasing(chain[..|chain| - 1]))
  }

  lemma {:induction false} IncreasingAt(chain: seq<nat>, i: nat, j: nat)
    requires Increasing(chain) && i < j < |chain|
    ensures chain[i] < chain[j]
  {
    var c := chain[..|chain| - 1];
    if j < |chain| - 1 {
      IncreasingAt(c, i, j);
    } else if i < j - 1 {
      IncreasingAt(c, i, j - 1);
    }
  }

  /** From first to last by next-page links; ids only ever grow along it, so it has no cycle. */
  ghost predicate ChainOk(f: File) {
    && f.next >= 1 && Increasing(f.chain) && (forall i :: 0 <= i < |f.chain| ==> LinkOk(f, i))
    && f.first == (if f.chain == [] then 0 else f.chain[0])
    && f.last == (if f.chain == [] then 0 else f.chain[|f.chain| - 1])
  }

  lemma Ends(f: File)
    requires ChainOk(f)
    ensures (f.chain == [] <==> f.first == 0) && (f.chain == [] <==> f.last == 0)
    ensures f.chain != [] ==> f.last in f.pages && f.last < f.next && LastPage(f).h.rows == |LastPage(f).tuples|
  {
    if f.chain != [] { assert LinkOk(f, |f.chain| - 1) && LinkOk(f, 0); }
  }

  lemma LinkedOk(f: File)
    requires ChainOk(f)
    ensures ChainOk(Linked(f))
  {
    var g := Linked(f);
    Ends(f);
    assert g.chain[..|f.chain|] == f.chain;
    forall i | 0 <= i < |g.chain| ensures LinkOk(g, i) {
      if i < |f.chain| {
        assert LinkOk(f, i);
        if i < |f.chain| - 1 { IncreasingAt(f.chain, i, |f.chain| - 1); }
      }
    }
  }

  lemma PlacedOk(f: File, t: seq<byte>)
    requires ChainOk(f) && f.chain != []
    ensures ChainOk(Placed(f, t))
  {
    var g := Placed(f, t);
    Ends(f);
    forall i | 0 <= i < |g.chain| ensures LinkOk(g, i) {
      assert LinkOk(f, i);
      if i < |f.chain| - 1 { IncreasingAt(f.chain, i, |f.chain| - 1); }
    }
  }

  lemma RoomyOk(f: File, t: seq<byte>)
    requires ChainOk(f)
    ensures ChainOk(Opened(f)) && Opened(f).chain != [] && ChainOk(Roomy(f, t)) && Roomy(f, t).chain != []
  {
    Ends(f);
    LinkedOk(f);
    LinkedOk(Opened(f));
  }

  lemma InsertedOk(f: File, t: seq<byte>)
    requires ChainOk(f)
    ensures ChainOk(Inserted(f, t))
  {
    RoomyOk(f, t);
    PlacedOk(Roomy(f, t), t);
  }

  /** In every run of inserts the links run acyclically from the first page to the last. */
  lemma {:induction false} RunOk(es: seq<Event>)
    ensures ChainOk(Run(es))
  {
    if es != [] {
      var f, e := Run(es[..|es| - 1]), es[|es| - 1];
      RunOk(es[..|es| - 1]);
      if e.Insert? { InsertedOk(f, e.t); } else { ElsewhereOk(f, e.n); }
    }
  }

  lemma ElsewhereOk(f: File, n: nat)
    requires ChainOk(f)
    ensures ChainOk(f.(next := f.next + n))
  {
    var g := f.(next := f.next + n);
    forall i | 0 <= i < |g.chain| ensures LinkOk(g, i) { assert LinkOk(f, i); }
  }

  lemma ReachedOk(f: File)
    requires Reached(f)
    ensures ChainOk(f)
  {
    var es :| Run(es) == f;
    RunOk(es);
  }

  // ----- Rows ---------------------------------------------------------------------------------

  /** The tuples of the first `n` pages, in chain order. */
  ghost function Tuples(pages: Pages, chain: seq<nat>, n: nat): seq<seq<byte>>
    requires n <= |chain|
  {
    if n == 0 then [] else Tuples(pages, chain, n - 1) + PageOf(pages, chain[n - 1]).tuples
  }

  function PageRids(id: nat, rows: nat): (s: seq<Rid>)
    ensures |s| == rows && forall k :: 0 <= k < rows ==> s[k] == Rid(id, k + 1)
  {
    seq(rows, k requires 0 <= k => Rid(id, k + 1))
  }

  /** The slots of the first `n` pages, in chain order. */
  ghost function Rids(pages: Pages, chain: seq<nat>, n: nat): (s: seq<Rid>)
    requires n <= |chain|
    ensures |s| == |Tuples(pages, chain, n)|
  {
    if n == 0 then [] else Rids(pages, chain, n - 1) + PageRids(chain[n - 1], |PageOf(pages, chain[n - 1]).tuples|)
  }

  ghost function AllTuples(f: File): seq<seq<byte>> { Tuples(f.pages, f.chain, |f.chain|) }

  ghost function AllRids(f: File): (s: seq<Rid>)
    ensures |s| == |AllTuples(f)|
  {
    Rids(f.pages, f.chain, |f.chain|)
  }

  lemma {:induction false} SamePrefix(f: File, g: File, n: nat)
    requires n <= |f.chain| && n <= |g.chain|
    requires forall i :: 0 <= i < n ==>
              f.chain[i] == g.chain[i] && PageOf(f.pages, f.chain[i]).tuples == PageOf(g.pages, f.chain[i]).tuples
    ensures Tuples(f.pages, f.chain, n) == Tuples(g.pages, g.chain, n)
    ensures Rids(f.pages, f.chain, n) == Rids(g.pages, g.chain, n)
  {
    if n > 0 { SamePrefix(f, g, n - 1); }
  }

  /** Every slot of every page is listed, */
  lemma {:induction false} RidsComplete(pages: Pages, chain: seq<nat>, n: nat, i: nat, row: nat) returns (k: nat)
    requires i < n <= |chain| && 1 <= row <= |PageOf(pages, chain[i]).tuples|
    ensures k < |Rids(pages, chain, n)| && Rids(pages, chain, n)[k] == Rid(chain[i], row)
    ensures Tuples(pages, chain, n)[k] == PageOf(pages, chain[i]).tuples[row - 1]
  {
    if i == n - 1 {
      k := |Rids(pages, chain, n - 1)| + row - 1;
    } else {
      k := RidsComplete(pages, chain, n - 1, i, row);
    }
  }

  /** nothing else is, */
  lemma {:induction false} RidsSound(pages: Pages, chain: seq<nat>, n: nat, k: nat) returns (i: nat)
    requires n <= |chain| && k < |Rids(pages, chain, n)|
    ensures i < n && var r := Rids(pages, chain, n)[k];
      && r.page == chain[i] && 1 <= r.row <= |PageOf(pages, chain[i]).tuples|
      && Tuples(pages, chain, n)[k] == PageOf(pages, chain[i]).tuples[r.row - 1]
  {
    if k >= |Rids(pages, chain, n - 1)| {
      i := n - 1;
    } else {
      i := RidsSound(pages, chain, n - 1, k);
    }
  }

  /** and none twice. */
  lemma {:induction false} RidsOnce(pages: Pages, chain: seq<nat>, n: nat, j: nat, k: nat)
    requires n <= |chain| && j < k < |Rids(pages, chain, n)| && Increasing(chain)
    ensures Rids(pages, chain, n)[j] != Rids(pages, chain, n)[k]
  {
    var m := |Rids(pages, chain, n - 1)|;
    if k < m {
      RidsOnce(pages, chain, n - 1, j, k);
    } else {
      LastRid(pages, chain, n, k);
      if j < m { EarlierRid(pages, chain, n, j); } else { LastRid(pages, chain, n, j); }
    }
  }

  lemma {:induction false} EarlierRid(pages: Pages, chain: seq<nat>, n: nat, j: nat)
    requires 0 < n <= |chain| && j < |Rids(pages, chain, n - 1)| && Increasing(chain)
    ensures j < |Rids(pages, chain, n)| && Rids(pages, chain, n)[j].page < chain[n - 1]
  {
    var i := RidsSound(pages, chain, n - 1, j);
    IncreasingAt(chain, i, n - 1);
  }

  lemma {:induction false} LastRid(pages: Pages, chain: seq<nat>, n: nat, k: nat)
    requires 0 < n <= |chain| && |Rids(pages, chain, n - 1)| <= k < |Rids(pages, chain, n)|
    ensures Rids(pages, chain, n)[k] == Rid(chain[n - 1], k - |Rids(pages, chain, n - 1)| + 1)
  {
  }

  /** Linking a fresh page adds no row. */
  lemma LinkedRows(f: File)
    requires ChainOk(f)
    ensures AllTuples(Linked(f)) == AllTuples(f) && AllRids(Linked(f)) == AllRids(f)
  {
    var g := Linked(f);
    Ends(f);
    forall i | 0 <= i < |f.chain|
      ensures f.chain[i] == g.chain[i] && PageOf(f.pages, f.chain[i]).tuples == PageOf(g.pages, f.chain[i]).tuples
    {
      assert LinkOk(f, i);
    }
    SamePrefix(f, g, |f.chain|);
    assert PageRids(f.next, 0) == [];
  }

  /** A tuple put on the last page is the last one of the chain. */
  lemma PlacedRows(f: File, t: seq<byte>, rid: Rid)
    requires ChainOk(f) && f.chain != [] && rid == Rid(f.last, |LastPage(f).tuples| + 1)
    ensures AllTuples(Placed(f, t)) == AllTuples(f) + [t] && AllRids(Placed(f, t)) == AllRids(f) + [rid]
  {
    var g, n, rows := Placed(f, t), |f.chain| - 1, |LastPage(f).tuples|;
    forall i | 0 <= i < n
      ensures f.chain[i] == g.chain[i] && PageOf(f.pages, f.chain[i]).tuples == PageOf(g.pages, f.chain[i]).tuples
    {
      IncreasingAt(f.chain, i, n);
    }
    SamePrefix(f, g, n);
    Assoc(Tuples(f.pages, f.chain, n), LastPage(f).tuples, [t]);
    assert PageRids(f.last, rows + 1) == PageRids(f.last, rows) + [rid];
    Assoc(Rids(f.pages, f.chain, n), PageRids(f.last, rows), [rid]);
  }

  lemma RoomyRows(f: File, t: seq<byte>)
    requires ChainOk(f)
    ensures AllTuples(Roomy(f, t)) == AllTuples(f) && AllRids(Roomy(f, t)) == AllRids(f)
  {
    RoomyOk(f, t);
    LinkedRows(f);
    LinkedRows(Opened(f));
  }

  /** There is room exactly if the tuple fits on an empty page. */
  lemma RoomIffSmall(f: File, t: seq<byte>)
    ensures HasSpace(LastPage(Roomy(f, t)), t) <==> HEADER_SIZE + |t| + SLOT_SIZE <= PAGE_SIZE
  {
    assert Start([], 0) == HEADER_SIZE;
  }

  /** An insert appends one row, or none if the tuple is too large for an empty page. */
  lemma InsertedRows(f: File, t: seq<byte>)
    requires ChainOk(f)
    ensures var r, g := Roomy(f, t), Inserted(f, t);
      if HEADER_SIZE + |t| + SLOT_SIZE <= PAGE_SIZE
      then AllTuples(g) == AllTuples(f) + [t] && AllRids(g) == AllRids(f) + [Rid(r.last, |LastPage(r).tuples| + 1)]
      else AllTuples(g) == AllTuples(f) && AllRids(g) == AllRids(f)
  {
    var r := Roomy(f, t);
    RoomIffSmall(f, t);
    RoomyRows(f, t);
    RoomyOk(f, t);
    if HasSpace(LastPage(r), t) { PlacedRows(r, t, Rid(r.last, |LastPage(r).tuples| + 1)); }
  }

  /**
   An insert fills the last page as long as it has room and links a page exactly when it has none: the
   pages before stay as they are, and the new one begins with the tuple, if it takes it at all.
   */
  lemma InsertShape(f: File, t: seq<byte>)
    requires ChainOk(f) && f.chain != []
    ensures f.last in f.pages
    ensures var g, fits := Inserted(f, t), HEADER_SIZE + |t| + SLOT_SIZE <= PAGE_SIZE;
      && g.first == f.first
      && (if |t| + SLOT_SIZE <= Free(f.pages[f.last].tuples) then
            && g.chain == f.chain && g.last == f.last && g.next == f.next && g.pages.Keys == f.pages.Keys
            && g.pages[f.last].tuples == f.pages[f.last].tuples + [t]
            && forall id :: id in f.pages && id != f.last ==> g.pages[id] == f.pages[id]
          else
            && g.chain == f.chain + [f.next] && g.last == f.next && f.next in g.pages && g.next == f.next + 1
            && g.pages[f.next].tuples == (if fits then [t] else [])
            && forall id :: id in f.pages && id != f.next ==> id in g.pages && g.pages[id].tuples == f.pages[id].tuples)
  {
    Ends(f);
    RoomIffSmall(f, t);
    assert Start([], 0) == HEADER_SIZE;
  }

  /** The first insert into a table gives it its first page. */
  lemma FirstInsert(f: File, t: seq<byte>)
    requires ChainOk(f) && f.chain == [] && HEADER_SIZE + |t| + SLOT_SIZE <= PAGE_SIZE
    ensures var g := Inserted(f, t);
      && g.chain == [f.next] && g.first == g.last == f.next && g.next == f.next + 1
      && f.next in g.pages && g.pages[f.next].tuples == [t]
  {
    assert Start([], 0) == HEADER_SIZE;
    assert [] + [t] == [t];
  }

  // ----- The objects --------------------------------------------------------------------------

  class HeapFile {
    var pages: Pages
    /** MetaItem's first_page_id and last_page_id; 0 while the table has no page. */
    var first: nat
    var last: nat
    var nextPageId: nat
    ghost var chain: seq<nat>

    ghost function State(): File
      reads this
    {
      File(pages, chain, first, last, nextPageId)
    }

    ghost predicate Valid()
      reads this
    {
      Reached(State())
    }

    constructor ()
      ensures Valid() && State() == Run([])
    {
      pages := map[];
      first := 0;
      last := 0;
      nextPageId := 1;
      chain := [];
      new;
      assert Run([]) == State();
    }

    /** Other tables and the undo store take page ids too. */
    method AllocatedElsewhere(n: nat)
      requires Valid()
      modifies this`nextPageId
      ensures Valid() && State() == Apply(old(State()), Elsewhere(n))
    {
      ReachedStep(State(), Elsewhere(n));
      nextPageId := nextPageId + n;
    }

    /** AllocateAndLinkNewPage; on the first page, Open's lazy allocation. */
    method LinkNewPage()
      requires last != 0 ==> last in pages
      modifies this
      ensures State() == Linked(old(State()))
    {
      var id := nextPageId;
      nextPageId := nextPageId + 1;
      if last != 0 {
        pages := pages[last := SetNext(pages[last], id)];
      }
      pages := pages[id := Fresh(id)];
      if first == 0 { first := id; }
      last := id;
      chain := chain + [id];
    }

    /** Open, then one turn of Next: false stands for the tuple-too-large exception. */
    method Insert(t: seq<byte>) returns (ok: bool, rid: Rid)
      requires Valid()
      modifies this
      ensures Valid() && State() == Apply(old(State()), Event.Insert(t))
      ensures ok <==> HEADER_SIZE + |t| + SLOT_SIZE <= PAGE_SIZE
      ensures ok ==> AllTuples(State()) == old(AllTuples(State())) + [t]
      ensures ok ==> AllRids(State()) == old(AllRids(State())) + [rid]
      ensures !ok ==> AllTuples(State()) == old(AllTuples(State())) && AllRids(State()) == old(AllRids(State()))
    {
      ghost var f := State();
      ReachedStep(f, Event.Insert(t));
      InsertFacts(f, t);
      InsertAdds(f, t);
      if last == 0 { LinkNewPage(); }
      if !HasSpace(pages[last], t) { LinkNewPage(); }
      ok := HasSpace(pages[last], t);
      rid := Rid(last, pages[last].h.rows + 1);
      if ok { pages := pages[last := Put(pages[last], t)]; }
    }
  }

  /** What Insert needs of its file, at each of its turns. */
  lemma InsertFacts(f: File, t: seq<byte>)
    requires Reached(f)
    ensures f.last != 0 ==> f.last in f.pages
    ensures Opened(f).last != 0 && Opened(f).last in Opened(f).pages
    ensures var r := Roomy(f, t);
      && r.last in r.pages && LastPage(r).h.rows == |LastPage(r).tuples|
      && (HasSpace(LastPage(r), t) <==> HEADER_SIZE + |t| + SLOT_SIZE <= PAGE_SIZE)
  {
    ReachedOk(f);
    Ends(f);
    RoomyOk(f, t);
    Ends(Opened(f));
    Ends(Roomy(f, t));
    RoomIffSmall(f, t);
  }

  lemma InsertAdds(f: File, t: seq<byte>)
    requires Reached(f)
    ensures var r, g := Roomy(f, t), Inserted(f, t);
      if HEADER_SIZE + |t| + SLOT_SIZE <= PAGE_SIZE
      then AllTuples(g) == AllTuples(f) + [t] && AllRids(g) == AllRids(f) + [Rid(r.last, |LastPage(r).tuples| + 1)]
      else AllTuples(g) == AllTuples(f) && AllRids(g) == AllRids(f)
  {
    ReachedOk(f);
    InsertedRows(f, t);
  }

  // ----- The iterator -------------------------------------------------------------------------

  lemma {:induction false} RidsGrow(pages: Pages, chain: seq<nat>, m: nat, n: nat)
    requires m <= n <= |chain|
    ensures Rids(pages, chain, m) <= Rids(pages, chain, n) && Tuples(pages, chain, m) <= Tuples(pages, chain, n)
  {
    if m < n { RidsGrow(pages, chain, m, n - 1); }
  }

  /** How many slots lie before page `at`. */
  ghost function Before(f: File, at: nat): nat
    requires at <= |f.chain|
  {
    |Rids(f.pages, f.chain, at)|
  }

  /** The slot that is row `row` of page `at`. */
  lemma RidHere(f: File, at: nat, row: nat)
    requires at < |f.chain| && 1 <= row <= |PageOf(f.pages, f.chain[at]).tuples|
    ensures var k := Before(f, at) + row - 1;
      && k < |AllRids(f)| && AllRids(f)[k] == Rid(f.chain[at], row)
      && AllTuples(f)[k] == PageOf(f.pages, f.chain[at]).tuples[row - 1]
  {
    RidsGrow(f.pages, f.chain, at + 1, |f.chain|);
  }

  /** What the iterator reads off page `at`: its row count, and a link that is 0 exactly on the last page. */
  lemma PageFacts(f: File, at: nat)
    requires Reached(f) && at < |f.chain|
    ensures f.chain[at] in f.pages && f.pages[f.chain[at]].h.rows == |f.pages[f.chain[at]].tuples|
    ensures Before(f, at + 1) == Before(f, at) + |f.pages[f.chain[at]].tuples|
    ensures var next := f.pages[f.chain[at]].h.next;
      (next == 0 <==> at + 1 == |f.chain|) && (next != 0 ==> next == f.chain[at + 1])
  {
    ReachedOk(f);
    assert LinkOk(f, at) && (at + 1 < |f.chain| ==> LinkOk(f, at + 1));
  }

  lemma FirstFacts(f: File)
    requires Reached(f)
    ensures (f.first == 0 <==> f.chain == []) && (f.chain != [] ==> f.first == f.chain[0])
  {
    ReachedOk(f);
    Ends(f);
  }

  class Iterator {
    const file: HeapFile
    var cur: nat
    var row: nat
    var numRows: nat
    var isEnd: bool
    /** The pins this iterator holds in the buffer pool. */
    var pins: multiset<nat>
    /** Which page of the chain it stands on. */
    ghost var at: nat

    /** On page `at`, whose rows it has counted, with exactly that page pinned; or at the end with none. */
    ghost predicate OnPage()
      reads this, file
    {
      var f := file.State();
      if isEnd then pins == multiset{} && at == |f.chain|
      else at < |f.chain| && cur == f.chain[at] && numRows == |PageOf(f.pages, cur).tuples| && pins == multiset{cur}
    }

    ghost predicate Valid()
      reads this, file
    {
      file.Valid() && OnPage() && (!isEnd ==> 1 <= row <= numRows)
    }

    /** How many slots lie behind it. */
    ghost function Position(): nat
      requires Valid()
      reads this, file
    {
      Before(file.State(), at) + if isEnd then 0 else row - 1
    }

    method LoadPage()
      requires file.Valid() && !isEnd && at < |file.chain| && cur == file.chain[at] && pins == multiset{}
      modifies this`numRows, this`pins
      ensures OnPage()
    {
      PageFacts(file.State(), at);
      pins := pins + multiset{cur};
      numRows := file.pages[cur].h.rows;
    }

    /** Leaves a used-up page: releases it and follows its link, or ends. */
    method Leave()
      requires file.Valid() && OnPage() && !isEnd
      modifies this`cur, this`row, this`numRows, this`isEnd, this`pins, this`at
      ensures OnPage() && at == old(at) + 1 && (!isEnd ==> row == 1)
      ensures at <= |file.chain| && Before(file.State(), at) == old(Before(file.State(), at) + numRows)
    {
      PageFacts(file.State(), at);
      var next := file.pages[cur].h.next;
      pins := pins - multiset{cur};
      at := at + 1;
      if next == 0 {
        isEnd := true;
      } else {
        cur := next;
        LoadPage();
        row := 1;
      }
    }

    /** Skips pages without rows. */
    method SkipEmpty()
      requires file.Valid() && OnPage() && (!isEnd ==> row == 1)
      modifies this`cur, this`row, this`numRows, this`isEnd, this`pins, this`at
      ensures Valid() && Position() == old(Before(file.State(), at))
    {
      while !isEnd && numRows == 0
        invariant OnPage() && (!isEnd ==> row == 1)
        invariant at <= |file.chain| && Before(file.State(), at) == old(Before(file.State(), at))
        decreases |file.chain| - at
      {
        Leave();
      }
    }

    constructor (file: HeapFile)
      requires file.Valid()
      ensures Valid() && this.file == file && Position() == 0
    {
      this.file := file;
      cur := file.first;
      row := 1;
      numRows := 0;
      isEnd := file.first == 0;
      pins := multiset{};
      at := 0;
      new;
      FirstFacts(file.State());
      if !isEnd {
        LoadPage();
        SkipEmpty();
      }
    }

    /** operator++; at the end it stays there. */
    method Advance()
      requires Valid()
      modifies this`cur, this`row, this`numRows, this`isEnd, this`pins, this`at
      ensures Valid() && Position() == old(Position()) + if old(isEnd) then 0 else 1
    {
      if isEnd { return; }
      row := row + 1;
      if row > numRows {
        Leave();
        SkipEmpty();
      }
    }

    /** These are the slots that lie behind it. */
    ghost predicate Passed(rids: seq<Rid>, tuples: seq<seq<byte>>)
      requires Valid()
      reads this, file
    {
      var f := file.State();
      && Position() == |rids| <= |AllRids(f)| && (isEnd <==> |rids| == |AllRids(f)|)
      && rids == AllRids(f)[..|rids|] && tuples == AllTuples(f)[..|rids|]
    }

    /** One turn of a scan. */
    method Take(rids: seq<Rid>, tuples: seq<seq<byte>>) returns (rids': seq<Rid>, tuples': seq<seq<byte>>)
      requires Valid() && !isEnd && Passed(rids, tuples)
      modifies this`cur, this`row, this`numRows, this`isEnd, this`pins, this`at
      ensures Valid() && Passed(rids', tuples') && |rids'| == |rids| + 1
    {
      ghost var k := |rids|;
      var rid, t := Current();
      rids', tuples' := rids + [rid], tuples + [t];
      PrefixSnoc(AllRids(file.State()), k, rids, rid);
      PrefixSnoc(AllTuples(file.State()), k, tuples, t);
      Advance();
      Standing();
    }

    /** GetRID and operator*. */
    method Current() returns (rid: Rid, t: seq<byte>)
      requires Valid() && !isEnd
      ensures Position() < |AllRids(file.State())|
      ensures rid == AllRids(file.State())[Position()] && t == AllTuples(file.State())[Position()]
    {
      Standing();
      PageFacts(file.State(), at);
      rid := Rid(cur, row);
      t := file.pages[cur].tuples[row - 1];
    }

    /** It is at the end exactly when every slot lies behind it; before that it stands on the next one. */
    lemma Standing()
      requires Valid()
      ensures isEnd <==> Position() == |AllRids(file.State())|
      ensures !isEnd ==> Position() < |AllRids(file.State())| && AllRids(file.State())[Position()] == Rid(cur, row)
      ensures !isEnd ==> AllTuples(file.State())[Position()] == PageOf(file.pages, cur).tuples[row - 1]
    {
      if !isEnd { RidHere(file.State(), at, row); }
    }
  }

  lemma {:induction false} PrefixSnoc<T>(s: seq<T>, k: nat, p: seq<T>, x: T)
    requires k < |s| && p == s[..k] && x == s[k]
    ensures |p + [x]| == k + 1 && s[..k + 1] == p + [x]
  {
  }

  /** A whole scan: every slot once, in chain order, and no pin left. */
  method ScanAll(file: HeapFile) returns (rids: seq<Rid>, tuples: seq<seq<byte>>)
    requires file.Valid()
    ensures rids == AllRids(file.State()) && tuples == AllTuples(file.State())
  {
    var it := new Iterator(file);
    rids, tuples := [], [];
    it.Standing();
    while !it.isEnd
      invariant it.Valid() && it.file == file && fresh(it) && it.Passed(rids, tuples)
      decreases |AllRids(file.State())| - |rids|
    {
      rids, tuples := it.Take(rids, tuples);
    }
    assert it.pins == multiset{};
  }
}
