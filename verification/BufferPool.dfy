/**
 The buffer pool: frames, free list, LRU list and pin counts behaving together as one plain map from
 page id to bytes. The pool's operations as functions, the invariant of every run of them, and the
 objects that carry them out.
 */
module BufferPool {
  import opened Common
  import opened Bytes

  datatype Frame = Frame(id: nat, dirty: bool, data: seq<byte>)

  /** The data file, as a total map: what was never written reads as zeros. */
  type Disk = map<nat, seq<byte>>

  function Zeros(): seq<byte> { seq(PAGE_SIZE, _ => 0) }

  function Read(d: Disk, id: nat): seq<byte> { if id in d then d[id] else Zeros() }

  function WriteIfDirty(d: Disk, f: Frame): Disk { if f.dirty then d[f.id := f.data] else d }

  predicate Distinct(s: seq<int>) { s == [] || (s[0] !in s[1..] && Distinct(s[1..])) }

  lemma {:induction false} DistinctInit(s: seq<int>)
    requires Distinct(s) && s != []
    ensures Distinct(s[..|s| - 1]) && s[|s| - 1] !in s[..|s| - 1]
  {
    if |s| > 1 {
      var t := s[1..];
      DistinctInit(t);
      assert s[..|s| - 1] == [s[0]] + t[..|t| - 1];
      assert t[|t| - 1] in t && s[|s| - 1] == t[|t| - 1];
    }
  }

  lemma {:induction false} DistinctSnoc(s: seq<int>, x: int)
    requires Distinct(s) && x !in s
    ensures Distinct(s + [x])
  {
    if s != [] {
      DistinctSnoc(s[1..], x);
      assert (s + [x])[1..] == s[1..] + [x];
    }
  }

  lemma {:induction false} DistinctCons(x: int, s: seq<int>)
    requires Distinct(s) && x !in s
    ensures Distinct([x] + s)
  {
    assert ([x] + s)[1..] == s;
  }

  /** list_.erase. */
  function Without(s: seq<int>, x: int): (r: seq<int>)
    ensures forall y :: y in r <==> y in s && y != x
    ensures x !in s ==> r == s
  {
    if s == [] then []
    else if s[0] == x then Without(s[1..], x)
    else [s[0]] + Without(s[1..], x)
  }

  lemma {:induction false} WithoutDistinct(s: seq<int>, x: int)
    requires Distinct(s)
    ensures Distinct(Without(s, x))
  {
    if s != [] {
      WithoutDistinct(s[1..], x);
      if s[0] != x { DistinctCons(s[0], Without(s[1..], x)); }
    }
  }

  function PinsOf(pins: map<int, int>, f: int): int { if f in pins then pins[f] else 0 }

  // ----- Operations ---------------------------------------------------------------------------

  /** The pool's fields; `contents` is what its users last made of every page. */
  datatype Pool = Pool(
    frames: seq<Frame>, free: seq<int>, resident: map<nat, int>, pins: map<int, int>, list: seq<int>,
    disk: Disk, contents: Disk, next: nat)

  function FrameAt(frames: seq<Frame>, f: int): Frame {
    if 0 <= f < |frames| then frames[f] else Frame(0, false, [])
  }

  function SetFrame(frames: seq<Frame>, f: int, x: Frame): (r: seq<Frame>)
    ensures |r| == |frames|
  {
    if 0 <= f < |frames| then frames[f := x] else frames
  }

  /** NewPage with a free frame: the one at the back of the list, under the next id. */
  function Started(p: Pool): Pool
    requires p.free != []
  {
    var n := |p.free| - 1;
    var f := p.free[n];
    Pool(SetFrame(p.frames, f, Frame(p.next, false, Zeros())), p.free[..n], p.resident[p.next := f],
         p.pins[f := PinsOf(p.pins, f) + 1], Without(p.list, f), WriteIfDirty(p.disk, FrameAt(p.frames, f)),
         p.contents[p.next := Zeros()], p.next + 1)
  }

  /** FetchPage from disk into the frame at the back of the list; its dirty flag is left alone. */
  function Loaded(p: Pool, id: nat): Pool
    requires p.free != []
  {
    var n := |p.free| - 1;
    var f := p.free[n];
    var disk := WriteIfDirty(p.disk, FrameAt(p.frames, f));
    p.(frames := SetFrame(p.frames, f, Frame(id, FrameAt(p.frames, f).dirty, Read(disk, id))), free := p.free[..n],
       resident := p.resident[id := f], pins := p.pins[f := PinsOf(p.pins, f) + 1], list := Without(p.list, f),
       disk := disk)
  }

  /** FetchPage of a resident page. */
  function Pinned(p: Pool, id: nat): Pool
    requires id in p.resident
  {
    var f := p.resident[id];
    p.(frames := SetFrame(p.frames, f, FrameAt(p.frames, f).(id := id)),
       pins := p.pins[f := PinsOf(p.pins, f) + 1], list := Without(p.list, f))
  }

  /** A dirty page written out. */
  function Cleaned(p: Pool, id: nat): Pool
    requires id in p.resident
  {
    var f := p.resident[id];
    var x := FrameAt(p.frames, f);
    p.(disk := WriteIfDirty(p.disk, x), frames := SetFrame(p.frames, f, x.(dirty := false)))
  }

  /** Release: one pin less and the page written out; with the last pin the frame goes to the front of the free list. */
  function Released(p: Pool, id: nat): Pool
    requires id in p.resident
  {
    var f, q := p.resident[id], Cleaned(p, id);
    var k := PinsOf(p.pins, f) - 1;
    var r := q.(pins := q.pins[f := k]);
    if k == 0 then r.(list := [f] + r.list, free := [f] + r.free, resident := r.resident - {id}) else r
  }

  function Touched(p: Pool, id: nat): Pool
    requires id in p.resident
  {
    var f := p.resident[id];
    p.(list := if f in p.list then [f] + Without(p.list, f) else p.list)
  }

  /** A user who holds the page changes its bytes and marks it dirty. */
  function Edited(p: Pool, id: nat, data: seq<byte>): Pool
    requires id in p.resident
  {
    var f := p.resident[id];
    p.(frames := SetFrame(p.frames, f, Frame(id, true, data)), contents := p.contents[id := data])
  }

  datatype Event =
    | New | Fetch(id: nat) | Release(id: nat) | Flush(id: nat) | Touch(id: nat) | Edit(id: nat, data: seq<byte>)

  /** Ids are fetched after they were handed out (0 is the catalogue page); only resident pages are edited. */
  predicate Enabled(p: Pool, e: Event) {
    match e
    case Fetch(id) => id < p.next
    case Edit(id, _) => id in p.resident
    case _ => true
  }

  /** A call that throws leaves the pool as it was. */
  function Apply(p: Pool, e: Event): Pool
    requires Enabled(p, e)
  {
    match e
    case New => if p.free != [] then Started(p) else p
    case Fetch(id) => if id in p.resident then Pinned(p, id) else if p.free != [] then Loaded(p, id) else p
    case Release(id) => if id in p.resident then Released(p, id) else p
    case Flush(id) => if id in p.resident then Cleaned(p, id) else p
    case Touch(id) => if id in p.resident then Touched(p, id) else p
    case Edit(id, data) => Edited(p, id, data)
  }

  ghost predicate Init(p: Pool) {
    && Distinct(p.free) && |p.free| == |p.frames| && (forall f :: f in p.free <==> 0 <= f < |p.frames|)
    && (forall f :: f in p.free ==> !FrameAt(p.frames, f).dirty)
    && p.resident == map[] && p.pins == map[] && p.list == [] && p.contents == p.disk
    && p.next >= 1 && forall id :: id in p.disk ==> id < p.next
  }

  ghost predicate Reaches(p: Pool, es: seq<Event>, q: Pool)
    decreases |es|
  {
    if es == [] then q == p else Enabled(p, es[0]) && Reaches(Apply(p, es[0]), es[1..], q)
  }

  /** Some run of calls leads from a fresh pool to this one. */
  ghost predicate Reached(p: Pool) { exists q, es :: Init(q) && Reaches(q, es, p) }

  // ----- Invariant ----------------------------------------------------------------------------

  /** A resident page is in a frame of its own, which is pinned. */
  ghost predicate HomeOk(p: Pool, id: nat)
    requires id in p.resident
  {
    var f := p.resident[id];
    0 <= f < |p.frames| && p.frames[f].id == id && PinsOf(p.pins, f) > 0
  }

  /** A frame is free, unpinned and clean, or it is some page's home. */
  ghost predicate FrameOk(p: Pool, f: int)
    requires 0 <= f < |p.frames|
  {
    if f in p.free then !p.frames[f].dirty && PinsOf(p.pins, f) == 0
    else p.frames[f].id in p.resident && p.resident[p.frames[f].id] == f
  }

  ghost predicate FramesOk(p: Pool) {
    && Distinct(p.free) && (forall f :: f in p.free ==> 0 <= f < |p.frames|)
    && (forall id :: id in p.resident ==> HomeOk(p, id))
    && (forall f :: 0 <= f < |p.frames| ==> FrameOk(p, f))
  }

  ghost predicate LruOk(list: seq<int>, free: seq<int>) { Distinct(list) && forall f :: f in list ==> f in free }

  /** Memory and disk together hold the page's contents; a clean frame equals its page on disk. */
  ghost predicate PageOk(p: Pool, id: nat) {
    if id in p.resident then
      && FrameAt(p.frames, p.resident[id]).data == Read(p.contents, id)
      && (!FrameAt(p.frames, p.resident[id]).dirty ==> Read(p.disk, id) == Read(p.contents, id))
    else Read(p.disk, id) == Read(p.contents, id)
  }

  ghost predicate DataOk(p: Pool) { forall id :: PageOk(p, id) }

  /** Ids not handed out yet are unused everywhere. */
  ghost predicate IdsOk(p: Pool) {
    p.next >= 1 && (forall id :: id in p.resident ==> id < p.next) && forall id :: id in p.disk ==> id < p.next
  }

  ghost predicate PoolOk(p: Pool) { FramesOk(p) && LruOk(p.list, p.free) && DataOk(p) && IdsOk(p) }

  lemma InitOk(p: Pool)
    requires Init(p)
    ensures PoolOk(p)
  {
  }

  /** Two resident pages never share a frame. */
  lemma NoSharing(p: Pool, i: nat, j: nat)
    requires FramesOk(p) && i in p.resident && j in p.resident && i != j
    ensures p.resident[i] != p.resident[j]
  {
    assert HomeOk(p, i) && HomeOk(p, j);
  }

  /** A resident page's frame is not free. */
  lemma HomeNotFree(p: Pool, id: nat)
    requires FramesOk(p) && id in p.resident
    ensures 0 <= p.resident[id] < |p.frames| && p.resident[id] !in p.free && p.frames[p.resident[id]].id == id
  {
    assert HomeOk(p, id) && FrameOk(p, p.resident[id]);
  }

  /** The frame at the back of the free list is clean, unpinned and nobody's home. */
  lemma BackIsFree(p: Pool)
    requires FramesOk(p) && p.free != []
    ensures var f := p.free[|p.free| - 1];
      && 0 <= f < |p.frames| && !p.frames[f].dirty && PinsOf(p.pins, f) == 0 && f !in p.free[..|p.free| - 1]
      && (forall id :: id in p.resident ==> p.resident[id] != f)
      && Distinct(p.free[..|p.free| - 1]) && forall g :: g in p.free <==> g == f || g in p.free[..|p.free| - 1]
  {
    var n := |p.free| - 1;
    var f := p.free[n];
    DistinctInit(p.free);
    assert p.free == p.free[..n] + [f] && f in p.free;
    assert FrameOk(p, f);
    forall id | id in p.resident ensures p.resident[id] != f { HomeNotFree(p, id); }
  }

  /** The back frame becomes the home of page `id`. */
  lemma FrameTaken(p: Pool, q: Pool, id: nat, x: Frame)
    requires FramesOk(p) && p.free != [] && id !in p.resident && x.id == id
    requires var f := p.free[|p.free| - 1];
      && q.frames == SetFrame(p.frames, f, x) && q.free == p.free[..|p.free| - 1]
      && q.resident == p.resident[id := f] && q.pins == p.pins[f := PinsOf(p.pins, f) + 1]
    ensures FramesOk(q)
  {
    BackIsFree(p);
    assert forall g :: g in q.free ==> g in p.free;
    forall i | i in q.resident ensures HomeOk(q, i) { assert i in p.resident ==> HomeOk(p, i); }
    forall g | 0 <= g < |q.frames| ensures FrameOk(q, g) { assert FrameOk(p, g); }
  }

  lemma LruTaken(list: seq<int>, free: seq<int>)
    requires LruOk(list, free) && free != []
    ensures LruOk(Without(list, free[|free| - 1]), free[..|free| - 1])
  {
    var f := free[|free| - 1];
    WithoutDistinct(list, f);
    assert free == free[..|free| - 1] + [f];
  }

  /** A page comes into the back frame with the bytes it has. */
  lemma DataTaken(p: Pool, q: Pool, id: nat)
    requires FramesOk(p) && DataOk(p) && p.free != [] && id !in p.resident
    requires var f := p.free[|p.free| - 1];
      && q.frames == SetFrame(p.frames, f, Frame(id, false, Read(p.disk, id))) && q.resident == p.resident[id := f]
      && q.disk == p.disk
    requires forall i :: Read(q.contents, i) == if i == id then Read(p.disk, id) else Read(p.contents, i)
    ensures DataOk(q)
  {
    BackIsFree(p);
    forall i ensures PageOk(q, i) { assert PageOk(p, i); }
  }

  lemma StartedKeeps(p: Pool)
    requires PoolOk(p) && p.free != []
    ensures PoolOk(Started(p))
  {
    var q := Started(p);
    BackIsFree(p);
    assert p.next !in p.resident && p.next !in p.disk;
    FrameTaken(p, q, p.next, Frame(p.next, false, Zeros()));
    LruTaken(p.list, p.free);
    assert forall i :: Read(q.contents, i) == if i == p.next then Zeros() else Read(p.contents, i);
    DataTaken(p, q, p.next);
  }

  lemma LoadedKeeps(p: Pool, id: nat)
    requires PoolOk(p) && p.free != [] && id !in p.resident && id < p.next
    ensures PoolOk(Loaded(p, id))
  {
    var q := Loaded(p, id);
    BackIsFree(p);
    FrameTaken(p, q, id, Frame(id, false, Read(p.disk, id)));
    LruTaken(p.list, p.free);
    assert PageOk(p, id);
    DataTaken(p, q, id);
  }

  lemma PinnedKeeps(p: Pool, id: nat)
    requires PoolOk(p) && id in p.resident
    ensures PoolOk(Pinned(p, id)) && Pinned(p, id).frames == p.frames
  {
    var q := Pinned(p, id);
    HomeNotFree(p, id);
    assert q.frames == p.frames && Without(p.list, p.resident[id]) == p.list;
    forall i | i in q.resident ensures HomeOk(q, i) { assert HomeOk(p, i); }
    forall g | 0 <= g < |q.frames| ensures FrameOk(q, g) { assert FrameOk(p, g); }
    forall i ensures PageOk(q, i) { assert PageOk(p, i); }
  }

  lemma CleanedKeeps(p: Pool, id: nat)
    requires PoolOk(p) && id in p.resident
    ensures PoolOk(Cleaned(p, id)) && Read(Cleaned(p, id).disk, id) == Read(p.contents, id)
    ensures !FrameAt(Cleaned(p, id).frames, p.resident[id]).dirty
  {
    var q := Cleaned(p, id);
    HomeNotFree(p, id);
    forall i | i in q.resident ensures HomeOk(q, i) { assert HomeOk(p, i); }
    forall g | 0 <= g < |q.frames| ensures FrameOk(q, g) { assert FrameOk(p, g); }
    forall i ensures PageOk(q, i) {
      assert PageOk(p, i);
      if i in p.resident && i != id { NoSharing(p, i, id); }
    }
    assert PageOk(q, id);
  }

  /** Another pin count that is still positive. */
  lemma CountKeeps(p: Pool, id: nat, k: int)
    requires PoolOk(p) && id in p.resident && k > 0
    ensures PoolOk(p.(pins := p.pins[p.resident[id] := k]))
  {
    var q := p.(pins := p.pins[p.resident[id] := k]);
    HomeNotFree(p, id);
    forall i | i in q.resident ensures HomeOk(q, i) { assert HomeOk(p, i); }
    forall g | 0 <= g < |q.frames| ensures FrameOk(q, g) { assert FrameOk(p, g); }
    forall i ensures PageOk(q, i) { assert PageOk(p, i); }
  }

  /** The last pin given up on a clean page. */
  lemma DroppedKeeps(p: Pool, id: nat, q: Pool)
    requires PoolOk(p) && id in p.resident && !FrameAt(p.frames, p.resident[id]).dirty
    requires var f := p.resident[id];
      q == p.(pins := p.pins[f := 0], list := [f] + p.list, free := [f] + p.free, resident := p.resident - {id})
    ensures PoolOk(q)
  {
    var f := p.resident[id];
    HomeNotFree(p, id);
    DistinctCons(f, p.free);
    DistinctCons(f, p.list);
    forall i | i in q.resident ensures HomeOk(q, i) { assert HomeOk(p, i); NoSharing(p, i, id); }
    forall g | 0 <= g < |q.frames| ensures FrameOk(q, g) { assert FrameOk(p, g); }
    forall i ensures PageOk(q, i) { assert PageOk(p, i); }
  }

  lemma ReleasedKeeps(p: Pool, id: nat)
    requires PoolOk(p) && id in p.resident
    ensures PoolOk(Released(p, id)) && Read(Released(p, id).disk, id) == Read(p.contents, id)
  {
    CleanedKeeps(p, id);
    assert HomeOk(p, id);
    var q := Cleaned(p, id);
    if PinsOf(p.pins, p.resident[id]) > 1 {
      CountKeeps(q, id, PinsOf(p.pins, p.resident[id]) - 1);
    } else {
      DroppedKeeps(q, id, Released(p, id));
    }
  }

  /** A resident page is pinned, so it is not on the list, and touching it moves nothing. */
  lemma TouchedKeeps(p: Pool, id: nat)
    requires PoolOk(p) && id in p.resident
    ensures Touched(p, id) == p
  {
    HomeNotFree(p, id);
  }

  lemma EditedKeeps(p: Pool, id: nat, data: seq<byte>)
    requires PoolOk(p) && id in p.resident
    ensures PoolOk(Edited(p, id, data))
  {
    var q := Edited(p, id, data);
    HomeNotFree(p, id);
    forall i | i in q.resident ensures HomeOk(q, i) { assert HomeOk(p, i); }
    forall g | 0 <= g < |q.frames| ensures FrameOk(q, g) { assert FrameOk(p, g); }
    forall i ensures PageOk(q, i) {
      assert PageOk(p, i);
      if i in p.resident && i != id { NoSharing(p, i, id); }
    }
  }

  lemma StepKeeps(p: Pool, e: Event)
    requires PoolOk(p) && Enabled(p, e)
    ensures PoolOk(Apply(p, e))
  {
    match e
    case New => if p.free != [] { StartedKeeps(p); }
    case Fetch(id) => if id in p.resident { PinnedKeeps(p, id); } else if p.free != [] { LoadedKeeps(p, id); }
    case Release(id) => if id in p.resident { ReleasedKeeps(p, id); }
    case Flush(id) => if id in p.resident { CleanedKeeps(p, id); }
    case Touch(id) => if id in p.resident { TouchedKeeps(p, id); }
    case Edit(id, data) => EditedKeeps(p, id, data);
  }

  lemma {:induction false} RunKeeps(p: Pool, es: seq<Event>, q: Pool)
    requires PoolOk(p) && Reaches(p, es, q)
    ensures PoolOk(q)
    decreases |es|
  {
    if es != [] {
      StepKeeps(p, es[0]);
      RunKeeps(Apply(p, es[0]), es[1..], q);
    }
  }

  lemma ReachedOk(p: Pool)
    requires Reached(p)
    ensures PoolOk(p)
  {
    var q, es :| Init(q) && Reaches(q, es, p);
    InitOk(q);
    RunKeeps(q, es, p);
  }

  lemma {:induction false} ReachesSnoc(p: Pool, es: seq<Event>, q: Pool, e: Event)
    requires Reaches(p, es, q) && Enabled(q, e)
    ensures Reaches(p, es + [e], Apply(q, e))
    decreases |es|
  {
    var l := es + [e];
    if es == [] {
      assert l[1..] == [] && Reaches(Apply(q, e), [], Apply(q, e));
    } else {
      ReachesSnoc(Apply(p, es[0]), es[1..], q, e);
      assert l[0] == es[0] && l[1..] == es[1..] + [e];
    }
  }

  lemma ReachedStep(p: Pool, e: Event)
    requires Reached(p) && Enabled(p, e)
    ensures Reached(Apply(p, e))
  {
    var q, es :| Init(q) && Reaches(q, es, p);
    ReachesSnoc(q, es, p, e);
  }

  // ----- What every run of calls keeps --------------------------------------------------------

  ghost predicate EachPinned(n: nat, pins: map<int, int>) { forall f :: 0 <= f < n ==> PinsOf(pins, f) > 0 }

  /** Every page reads as its last contents: from its frame if resident, else from disk. */
  lemma ReadsLastContents(p: Pool, id: nat)
    requires Reached(p)
    ensures id in p.resident ==>
              0 <= p.resident[id] < |p.frames| && p.frames[p.resident[id]].data == Read(p.contents, id)
    ensures id !in p.resident ==> Read(p.disk, id) == Read(p.contents, id)
  {
    ReachedOk(p);
    assert PageOk(p, id) && (id in p.resident ==> HomeOk(p, id));
  }

  /** The free list is exactly the unpinned frames, without duplicates, all clean. */
  lemma FreeIsUnpinned(p: Pool, f: int)
    requires Reached(p) && 0 <= f < |p.frames|
    ensures Distinct(p.free) && (f in p.free <==> PinsOf(p.pins, f) == 0) && PinsOf(p.pins, f) >= 0
    ensures f in p.free ==> !p.frames[f].dirty
  {
    ReachedOk(p);
    assert FrameOk(p, f);
    if f !in p.free { assert HomeOk(p, p.frames[f].id); }
  }

  /** The LRU list stays inside the free list: with no frame free, Evict throws, and every frame is pinned. */
  lemma EvictOnlyThrows(p: Pool)
    requires Reached(p)
    ensures p.free == [] ==> p.list == []
    ensures p.free == [] <==> EachPinned(|p.frames|, p.pins)
  {
    ReachedOk(p);
    if p.list != [] { InFree(p.list, p.free); }
    if p.free == [] {
      forall f | 0 <= f < |p.frames| ensures PinsOf(p.pins, f) > 0 { FreeIsUnpinned(p, f); }
    } else {
      BackIsFree(p);
      assert PinsOf(p.pins, p.free[|p.free| - 1]) == 0;
    }
  }

  lemma InFree(list: seq<int>, free: seq<int>)
    requires LruOk(list, free) && list != []
    ensures free != []
  {
    var f := list[0];
    assert f in list;
  }

  // ----- Who holds what -----------------------------------------------------------------------

  /**
   The pool as its users see it: how many frames there are, the next page id, and for every page that
   someone holds how often it was handed out and not yet given back.
   */
  datatype Ledger = Ledger(size: nat, next: nat, held: map<nat, int>)

  /** What a call does to it: a page not held needs a frame, and every page held has one. */
  function Booked(l: Ledger, e: Event): Ledger {
    match e
    case New => if |l.held| < l.size then l.(next := l.next + 1, held := l.held[l.next := 1]) else l
    case Fetch(id) =>
      if id in l.held then l.(held := l.held[id := l.held[id] + 1])
      else if |l.held| < l.size then l.(held := l.held[id := 1])
      else l
    case Release(id) =>
      if id !in l.held then l
      else if l.held[id] == 1 then l.(held := l.held - {id})
      else l.(held := l.held[id := l.held[id] - 1])
    case _ => l
  }

  function BookedAll(l: Ledger, es: seq<Event>): Ledger
    decreases |es|
  {
    if es == [] then l else BookedAll(Booked(l, es[0]), es[1..])
  }

  /** The pool holds exactly the pages held, each pinned as often as it is held. */
  ghost predicate Balanced(p: Pool, l: Ledger) {
    && l.size == |p.frames| == |p.free| + |p.resident| && l.next == p.next && l.held.Keys == p.resident.Keys
    && forall id :: id in l.held ==> l.held[id] == PinsOf(p.pins, p.resident[id])
  }

  lemma TakenBalances(p: Pool, l: Ledger, q: Pool, m: Ledger, id: nat)
    requires PoolOk(p) && Balanced(p, l) && p.free != [] && id !in p.resident
    requires var f := p.free[|p.free| - 1];
      && |q.frames| == |p.frames| && q.free == p.free[..|p.free| - 1] && q.resident == p.resident[id := f]
      && q.pins == p.pins[f := PinsOf(p.pins, f) + 1]
    requires m.size == l.size && m.next == q.next && m.held == l.held[id := 1]
    ensures Balanced(q, m)
  {
    BackIsFree(p);
    BalancedPut(p, l, q, m, id, p.free[|p.free| - 1]);
  }

  lemma BalancedPut(p: Pool, l: Ledger, q: Pool, m: Ledger, id: nat, f: int)
    requires Balanced(p, l) && id !in p.resident && PinsOf(p.pins, f) == 0
    requires forall i :: i in p.resident ==> p.resident[i] != f
    requires |q.frames| == |p.frames| && |q.free| == |p.free| - 1 && q.resident == p.resident[id := f]
    requires q.pins == p.pins[f := 1] && m.size == l.size && m.next == q.next && m.held == l.held[id := 1]
    ensures Balanced(q, m)
  {
    KeysPut(p.resident, id, f);
  }

  lemma KeysPut(m: map<nat, int>, id: nat, f: int)
    requires id !in m
    ensures m[id := f].Keys == m.Keys + {id} && |m[id := f]| == |m| + 1
  {
    var m' := m[id := f];
    assert |m'| == |m'.Keys| && |m| == |m.Keys| && m'.Keys == m.Keys + {id};
  }

  lemma KeysCut(m: map<nat, int>, id: nat)
    requires id in m
    ensures (m - {id}).Keys == m.Keys - {id} && |m - {id}| == |m| - 1
  {
    var m' := m - {id};
    assert |m'| == |m'.Keys| && |m| == |m.Keys| && m'.Keys == m.Keys - {id};
  }

  lemma RepinnedBalances(p: Pool, l: Ledger, q: Pool, id: nat, k: int)
    requires PoolOk(p) && Balanced(p, l) && id in p.resident && |q.frames| == |p.frames| && q.next == p.next
    requires q.free == p.free && q.resident == p.resident && q.pins == p.pins[p.resident[id] := k]
    ensures Balanced(q, l.(held := l.held[id := k]))
  {
    forall i | i in p.resident && i != id ensures p.resident[i] != p.resident[id] { NoSharing(p, i, id); }
  }

  lemma DroppedBalances(p: Pool, l: Ledger, q: Pool, id: nat)
    requires PoolOk(p) && Balanced(p, l) && id in p.resident && |q.frames| == |p.frames| && q.next == p.next
    requires |q.free| == |p.free| + 1 && q.resident == p.resident - {id} && q.pins == p.pins[p.resident[id] := 0]
    ensures Balanced(q, l.(held := l.held - {id}))
  {
    KeysCut(p.resident, id);
    forall i | i in p.resident && i != id ensures p.resident[i] != p.resident[id] { NoSharing(p, i, id); }
  }

  lemma FreeIsRoom(p: Pool, l: Ledger)
    requires Balanced(p, l)
    ensures p.free != [] <==> |l.held| < l.size
  {
    assert |l.held| == |l.held.Keys| && |p.resident| == |p.resident.Keys|;
  }

  lemma NewBalances(p: Pool, l: Ledger)
    requires PoolOk(p) && Balanced(p, l)
    ensures Balanced(Apply(p, New), Booked(l, New))
  {
    FreeIsRoom(p, l);
    assert p.next !in p.resident;
    if p.free != [] { TakenBalances(p, l, Apply(p, New), Booked(l, New), p.next); }
  }

  lemma FetchBalances(p: Pool, l: Ledger, id: nat)
    requires PoolOk(p) && Balanced(p, l) && id < p.next
    ensures Balanced(Apply(p, Fetch(id)), Booked(l, Fetch(id)))
  {
    FreeIsRoom(p, l);
    if id in p.resident {
      RepinnedBalances(p, l, Apply(p, Fetch(id)), id, PinsOf(p.pins, p.resident[id]) + 1);
    } else if p.free != [] {
      TakenBalances(p, l, Apply(p, Fetch(id)), Booked(l, Fetch(id)), id);
    }
  }

  lemma ReleaseBalances(p: Pool, l: Ledger, id: nat)
    requires PoolOk(p) && Balanced(p, l)
    ensures Balanced(Apply(p, Release(id)), Booked(l, Release(id)))
  {
    if id in p.resident {
      var q := Apply(p, Release(id));
      if PinsOf(p.pins, p.resident[id]) == 1 {
        DroppedBalances(p, l, q, id);
      } else {
        RepinnedBalances(p, l, q, id, PinsOf(p.pins, p.resident[id]) - 1);
      }
    }
  }

  /** Every call does to the pool what it does to the ledger. */
  lemma StepBalances(p: Pool, l: Ledger, e: Event)
    requires PoolOk(p) && Balanced(p, l) && Enabled(p, e)
    ensures Balanced(Apply(p, e), Booked(l, e))
  {
    match e
    case New => NewBalances(p, l);
    case Fetch(id) => FetchBalances(p, l, id);
    case Release(id) => ReleaseBalances(p, l, id);
    case _ =>
  }

  lemma {:induction false} RunBalances(p: Pool, l: Ledger, es: seq<Event>, q: Pool)
    requires PoolOk(p) && Balanced(p, l) && Reaches(p, es, q)
    ensures Balanced(q, BookedAll(l, es))
    decreases |es|
  {
    if es != [] {
      StepKeeps(p, es[0]);
      StepBalances(p, l, es[0]);
      RunBalances(Apply(p, es[0]), Booked(l, es[0]), es[1..], q);
    }
  }

  /**
   Every page is in memory if and only if it was handed out more often than it was given back since it
   last left, and its frame has as many pins as that.
   */
  lemma PinsAreHolders(p: Pool, es: seq<Event>, q: Pool, id: nat)
    requires Init(p) && Reaches(p, es, q)
    ensures var held := BookedAll(Ledger(|p.frames|, p.next, map[]), es).held;
      && (id in q.resident <==> id in held)
      && (id in held ==> held[id] == PinsOf(q.pins, q.resident[id]) > 0)
  {
    InitOk(p);
    RunBalances(p, Ledger(|p.frames|, p.next, map[]), es, q);
    RunKeeps(p, es, q);
    assert id in q.resident ==> HomeOk(q, id);
  }

  function Fetches(es: seq<Event>, id: nat): nat {
    if es == [] then 0 else (if es[0] == Fetch(id) then 1 else 0) + Fetches(es[1..], id)
  }

  function Releases(es: seq<Event>, id: nat): nat {
    if es == [] then 0 else (if es[0] == Release(id) then 1 else 0) + Releases(es[1..], id)
  }

  lemma HeldStep(p: Pool, e: Event, id: nat)
    requires PoolOk(p) && Enabled(p, e) && id in p.resident
    requires e == Release(id) ==> PinsOf(p.pins, p.resident[id]) > 1
    ensures var q := Apply(p, e);
      && id in q.resident && q.resident[id] == p.resident[id]
      && PinsOf(q.pins, q.resident[id]) ==
         PinsOf(p.pins, p.resident[id]) + (if e == Fetch(id) then 1 else 0) - (if e == Release(id) then 1 else 0)
  {
    HomeNotFree(p, id);
    if p.free != [] { BackIsFree(p); }
    assert p.next !in p.resident;
    match e
    case Fetch(i) => if i in p.resident && i != id { NoSharing(p, i, id); }
    case Release(i) => if i in p.resident && i != id { NoSharing(p, i, id); }
    case _ =>
  }

  /** A page in memory stays there, in its frame, until it is released as often as it is held. */
  lemma {:induction false} HeldStays(p: Pool, es: seq<Event>, q: Pool, id: nat)
    requires PoolOk(p) && Reaches(p, es, q) && id in p.resident && Releases(es, id) < PinsOf(p.pins, p.resident[id])
    ensures id in q.resident && q.resident[id] == p.resident[id]
    ensures PinsOf(q.pins, q.resident[id]) == PinsOf(p.pins, p.resident[id]) + Fetches(es, id) - Releases(es, id)
    decreases |es|
  {
    if es != [] {
      StepKeeps(p, es[0]);
      HeldStep(p, es[0], id);
      HeldStays(Apply(p, es[0]), es[1..], q, id);
    }
  }

  // ----- The objects --------------------------------------------------------------------------

  /** LRUManager: pin counts, and the list of unpinned frames, most recently used first. */
  class Lru {
    var pins: map<int, int>
    var list: seq<int>

    constructor ()
      ensures pins == map[] && list == []
    {
      pins := map[];
      list := [];
    }

    function Count(f: int): int
      reads this
    {
      PinsOf(pins, f)
    }

    method Pin(f: int)
      modifies this
      ensures pins == old(pins)[f := old(Count(f)) + 1]
      ensures list == Without(old(list), f)
    {
      pins := pins[f := Count(f) + 1];
      if f in list { list := Without(list, f); }
    }

    method UnPin(f: int)
      modifies this
      ensures pins == old(pins)[f := old(Count(f)) - 1]
      ensures list == if Count(f) == 0 then [f] + old(list) else old(list)
    {
      pins := pins[f := Count(f) - 1];
      if Count(f) == 0 { list := [f] + list; }
    }

    method Touch(f: int)
      modifies this`list
      ensures list == if f in old(list) then [f] + Without(old(list), f) else old(list)
    {
      if f in list { list := [f] + Without(list, f); }
    }

    /** None stands for the exception. */
    function Evict(): (r: Option<int>)
      reads this
      ensures r.None? <==> list == []
      ensures r.Some? ==> r.value in list
    {
      if list == [] then None else Some(list[|list| - 1])
    }
  }

  class Manager {
    var frames: seq<Frame>
    /** free_pages_. */
    var free: seq<int>
    /** buffer_pages_: page id to frame. */
    var resident: map<nat, int>
    var disk: Disk
    /** PageIdUtil's counter. */
    var nextPageId: nat
    const lru: Lru
    /** What every page holds: the last contents its users gave it. */
    ghost var contents: Disk

    ghost function State(): Pool
      reads this, lru
    {
      Pool(frames, free, resident, lru.pins, lru.list, disk, contents, nextPageId)
    }

    ghost predicate Valid()
      reads this, lru
    {
      Reached(State())
    }

    ghost predicate AllPinned()
      reads this, lru
    {
      EachPinned(|frames|, lru.pins)
    }

    constructor (n: nat, disk: Disk, next: nat)
      requires next >= 1 && forall id :: id in disk ==> id < next
      ensures Valid() && fresh(lru) && contents == disk && resident == map[] && |frames| == n && nextPageId == next
    {
      frames := seq(n, _ => Frame(0, false, Zeros()));
      resident := map[];
      this.disk := disk;
      nextPageId := next;
      contents := disk;
      lru := new Lru();
      free := [];
      new;
      for i := 0 to n
        invariant |free| == i && (forall k :: 0 <= k < i ==> free[k] == k) && Distinct(free)
        invariant lru.pins == map[] && lru.list == [] && |frames| == n && (forall k :: 0 <= k < n ==> !frames[k].dirty)
        invariant resident == map[] && this.disk == disk == contents && nextPageId == next && fresh(lru)
      {
        DistinctSnoc(free, i);
        free := free + [i];
      }
      forall f | 0 <= f < n ensures f in free { assert free[f] == f; }
      assert Init(State()) && Reaches(State(), [], State());
    }

    /** NewPage: throws exactly when every frame is pinned; nothing is ever evicted. */
    method NewPage() returns (r: Option<int>)
      requires Valid()
      modifies this`frames, this`free, this`resident, this`disk, this`nextPageId, this`contents, lru
      ensures Valid() && State() == Apply(old(State()), New)
      ensures r.None? <==> old(AllPinned())
      ensures r.Some? ==>
                old(nextPageId) in resident && r.value == resident[old(nextPageId)] && old(nextPageId) !in old(resident)
      ensures r.Some? ==>
                FrameAt(frames, r.value).data == Zeros() && contents == old(contents)[old(nextPageId) := Zeros()]
      ensures r.Some? ==> nextPageId == old(nextPageId) + 1 && lru.Count(r.value) == 1
      ensures r.Some? ==> old(free) != [] && r.value == old(free[|free| - 1]) && free == old(free[..|free| - 1])
    {
      ghost var p := State();
      EvictOnlyThrows(p);
      ReachedStep(p, New);
      ReachedOk(p);
      if free == [] {
        r := lru.Evict();
        return;
      }
      BackIsFree(p);
      var f := free[|free| - 1];
      StartPage(f);
      r := Some(f);
    }

    method StartPage(f: int)
      requires free != [] && f == free[|free| - 1] && 0 <= f < |frames|
      modifies this`frames, this`free, this`resident, this`disk, this`nextPageId, this`contents, lru
      ensures State() == Started(old(State()))
    {
      free := free[..|free| - 1];
      lru.Pin(f);
      disk := WriteIfDirty(disk, frames[f]);
      frames := frames[f := Frame(nextPageId, false, Zeros())];
      resident := resident[nextPageId := f];
      contents := contents[nextPageId := Zeros()];
      nextPageId := nextPageId + 1;
    }

    /** FetchPage: throws exactly when the page is not in memory and every frame is pinned. */
    method FetchPage(id: nat) returns (r: Option<int>)
      requires Valid() && id < nextPageId
      modifies this`frames, this`free, this`resident, this`disk, lru
      ensures Valid() && State() == Apply(old(State()), Fetch(id))
      ensures r.None? <==> id !in old(resident) && old(AllPinned())
      ensures r.Some? ==>
                id in resident && r.value == resident[id] && FrameAt(frames, r.value).data == Read(contents, id)
      ensures r.Some? ==> lru.Count(r.value) == 1 + if id in old(resident) then old(lru.Count(resident[id])) else 0
      ensures r.Some? && id !in old(resident) ==>
                old(free) != [] && r.value == old(free[|free| - 1]) && free == old(free[..|free| - 1])
      ensures id in old(resident) ==> free == old(free)
    {
      ghost var p := State();
      EvictOnlyThrows(p);
      if id in resident || free != [] { HeldMore(p, id); }
      ReachedStep(p, Fetch(id));
      ReadsLastContents(Apply(p, Fetch(id)), id);
      InRange(p, id);
      if id in resident {
        var f := resident[id];
        lru.Pin(f);
        frames := frames[f := frames[f].(id := id)];
        r := Some(f);
      } else if free == [] {
        r := lru.Evict();
      } else {
        var f := free[|free| - 1];
        ReadIn(f, id);
        r := Some(f);
      }
    }

    method ReadIn(f: int, id: nat)
      requires free != [] && f == free[|free| - 1] && 0 <= f < |frames|
      modifies this`frames, this`free, this`resident, this`disk, lru
      ensures State() == Loaded(old(State()), id)
    {
      free := free[..|free| - 1];
      disk := WriteIfDirty(disk, frames[f]);
      frames := frames[f := frames[f].(data := Read(disk, id))];
      lru.Pin(f);
      resident := resident[id := f];
      frames := frames[f := frames[f].(id := id)];
    }

    /** Release: throws exactly when the page is not in memory; then the page is on disk. */
    method Release(id: nat) returns (ok: bool)
      requires Valid()
      modifies this`frames, this`free, this`resident, this`disk, lru
      ensures Valid() && State() == Apply(old(State()), Event.Release(id)) && ok == (id in old(resident))
      ensures ok ==> Read(disk, id) == Read(contents, id)
      ensures ok ==> lru.Count(old(resident[id])) == old(lru.Count(resident[id])) - 1
      ensures ok ==> (id in resident <==> old(lru.Count(resident[id])) > 1)
      ensures ok ==> free == (if id in resident then old(free) else [old(resident[id])] + old(free))
    {
      ghost var p := State();
      ReachedStep(p, Event.Release(id));
      InRange(p, id);
      ok := id in resident;
      if !ok { return; }
      ReleasedIsOnDisk(p, id);
      HeldOnce(p, id);
      GiveBack(id);
    }

    method GiveBack(id: nat)
      requires id in resident && 0 <= resident[id] < |frames|
      modifies this`frames, this`free, this`resident, this`disk, lru
      ensures State() == Released(old(State()), id)
    {
      var f := resident[id];
      lru.UnPin(f);
      if frames[f].dirty {
        disk := disk[frames[f].id := frames[f].data];
        frames := frames[f := frames[f].(dirty := false)];
      }
      assert frames == SetFrame(old(frames), f, old(frames)[f].(dirty := false));
      if lru.Count(f) == 0 {
        free := [f] + free;
        resident := resident - {id};
      }
    }

    /** Flush: throws exactly when the page is not in memory; then the page is on disk. */
    method Flush(id: nat) returns (ok: bool)
      requires Valid()
      modifies this`frames, this`disk
      ensures Valid() && State() == Apply(old(State()), Event.Flush(id)) && ok == (id in resident)
      ensures ok ==> Read(disk, id) == Read(contents, id)
    {
      ghost var p := State();
      ReachedStep(p, Event.Flush(id));
      InRange(p, id);
      ok := id in resident;
      if ok {
        FlushedIsOnDisk(p, id);
        var f := resident[id];
        if frames[f].dirty {
          disk := disk[frames[f].id := frames[f].data];
          frames := frames[f := frames[f].(dirty := false)];
        }
      }
    }

    /** TouchPage: throws exactly when the page is not in memory; it never moves anything. */
    method TouchPage(id: nat) returns (ok: bool)
      requires Valid()
      modifies lru`list
      ensures Valid() && ok == (id in resident) && State() == old(State())
    {
      ok := id in resident;
      if ok {
        ReachedOk(State());
        TouchedKeeps(State(), id);
        lru.Touch(resident[id]);
      }
    }

    /** What a user does to a page it holds: change its bytes and mark it dirty. */
    method EditPage(id: nat, data: seq<byte>)
      requires Valid() && id in resident
      modifies this`frames, this`contents
      ensures Valid() && State() == Apply(old(State()), Edit(id, data))
      ensures contents == old(contents)[id := data]
    {
      ghost var p := State();
      ReachedStep(p, Edit(id, data));
      InRange(p, id);
      frames := frames[resident[id] := frames[resident[id]].(dirty := true, data := data)];
      contents := contents[id := data];
    }
  }

  lemma InRange(p: Pool, id: nat)
    requires Reached(p)
    ensures id in p.resident ==> 0 <= p.resident[id] < |p.frames| && p.frames[p.resident[id]].id == id
    ensures p.free != [] ==> 0 <= p.free[|p.free| - 1] < |p.frames|
  {
    ReachedOk(p);
    assert id in p.resident ==> HomeOk(p, id);
    if p.free != [] { BackIsFree(p); }
  }

  lemma ReleasedIsOnDisk(p: Pool, id: nat)
    requires Reached(p) && id in p.resident
    ensures Read(Released(p, id).disk, id) == Read(p.contents, id) && PinsOf(p.pins, p.resident[id]) > 0
  {
    ReachedOk(p);
    ReleasedKeeps(p, id);
    assert HomeOk(p, id);
  }

  /** What a release does to a page's pins. */
  lemma HeldOnce(p: Pool, id: nat)
    requires Reached(p) && id in p.resident
    ensures var q, f := Apply(p, Release(id)), p.resident[id];
      PinsOf(q.pins, f) == PinsOf(p.pins, f) - 1 && (id in q.resident <==> PinsOf(p.pins, f) > 1)
  {
    ReachedOk(p);
    assert HomeOk(p, id);
  }

  /** What a fetch does to them: one more, or the first. */
  lemma HeldMore(p: Pool, id: nat)
    requires Reached(p) && id < p.next && (id in p.resident || p.free != [])
    ensures var q := Apply(p, Fetch(id));
      id in q.resident &&
      PinsOf(q.pins, q.resident[id]) == 1 + if id in p.resident then PinsOf(p.pins, p.resident[id]) else 0
  {
    ReachedOk(p);
    if id !in p.resident { BackIsFree(p); }
  }

  lemma FlushedIsOnDisk(p: Pool, id: nat)
    requires Reached(p) && id in p.resident
    ensures Read(Cleaned(p, id).disk, id) == Read(p.contents, id)
  {
    ReachedOk(p);
    CleanedKeeps(p, id);
  }
}
