/**
 The double-buffered log with its flusher thread: one client and the backend, interleaved at every
 point where the lock is free. The disk is an append-only sequence of bytes.
 */
module LogBuffer {
  import opened Bytes

  /** Where the client stands; `WriteWait` holds the bytes it still has to copy. */
  datatype ClientPc = Idle | WriteWait(data: seq<byte>) | FlushWait | CloseWait | Joining | Closed

  /** Where the backend stands; `ToWrite` and `Wrote` run without the lock. */
  datatype BackendPc = Waiting | ToWrite(size: nat) | Wrote | Exited

  /** `written` is what the client's finished writes handed over, in order; no step reads it. */
  datatype State = State(
    cap: nat, active: seq<byte>, pending: seq<byte>, cur: nat, flushSize: nat,
    isFlush: bool, stop: bool, client: ClientPc, backend: BackendPc,
    disk: seq<byte>, written: seq<byte>)

  datatype Event =
    | Write(data: seq<byte>) | WriteResume | Flush | FlushResume | Close | CloseResume | Join
    | Take | DiskWrite | FlushDone | Stop

  /** SwapBuffers, then is_flush_ set. */
  function Swap(s: State, pc: ClientPc): State {
    s.(active := s.pending, pending := s.active, flushSize := s.cur, cur := 0, isFlush := true, client := pc)
  }

  predicate Sized(s: State) {
    |s.active| == s.cap && |s.pending| == s.cap && s.cur <= s.cap && s.flushSize <= s.cap
  }

  /** memcpy behind the bytes already buffered. */
  function Copy(s: State, data: seq<byte>): State
    requires Sized(s) && s.cur + |data| <= s.cap
  {
    s.(active := Splice(s.active, s.cur, data), cur := s.cur + |data|, written := s.written + data, client := Idle)
  }

  predicate Enabled(s: State, e: Event) {
    match e
    case Write(_) => s.client.Idle?
    case WriteResume => s.client.WriteWait? && !s.isFlush
    case Flush => s.client.Idle?
    case FlushResume => s.client.FlushWait? && !s.isFlush
    case Close => s.client.Idle?
    case CloseResume => s.client.CloseWait? && !s.isFlush
    case Join => s.client.Joining? && s.backend.Exited?
    case Take => s.backend.Waiting? && s.isFlush
    case DiskWrite => s.backend.ToWrite?
    case FlushDone => s.backend.Wrote?
    case Stop => s.backend.Waiting? && !s.isFlush && s.stop
  }

  /** The resumed copy does not test for room again. */
  predicate Safe(s: State, e: Event) {
    && Sized(s)
    && (e.WriteResume? && s.client.WriteWait? ==> s.cur + |s.client.data| <= s.cap)
    && (e.DiskWrite? && s.backend.ToWrite? ==> s.backend.size <= s.cap)
  }

  /** A record larger than the buffer throws and changes nothing. */
  function Apply(s: State, e: Event): State
    requires Enabled(s, e) && Safe(s, e)
  {
    match e
    case Write(data) =>
      if |data| > s.cap then s
      else if s.cur + |data| > s.cap then Swap(s, WriteWait(data))
      else Copy(s, data)
    case WriteResume => Copy(s, s.client.data)
    case Flush => if s.cur == 0 then s else Swap(s, FlushWait)
    case FlushResume => s.(client := Idle)
    case Close => if s.cur == 0 then s.(stop := true, client := Joining) else Swap(s, CloseWait)
    case CloseResume => s.(stop := true, client := Joining)
    case Join => s.(client := Closed)
    case Take => s.(backend := ToWrite(s.flushSize))
    case DiskWrite => s.(disk := s.disk + s.pending[..s.backend.size], backend := Wrote)
    case FlushDone => s.(isFlush := false, backend := if s.stop then Exited else Waiting)
    case Stop => s.(backend := Exited)
  }

  ghost predicate Init(s: State) {
    && Sized(s) && s.cur == 0 && s.flushSize == 0 && !s.isFlush && !s.stop
    && s.client == Idle && s.backend == Waiting && s.written == s.disk
  }

  /** What the flush under way still has to write. */
  function InFlight(s: State): seq<byte>
    requires Sized(s)
  {
    if s.isFlush && (s.backend.Waiting? || s.backend.ToWrite?) then s.pending[..s.flushSize] else []
  }

  ghost predicate Inv(s: State) {
    && Sized(s)
    && s.disk + InFlight(s) + s.active[..s.cur] == s.written
    && (s.client.WriteWait? ==> s.cur == 0 && |s.client.data| <= s.cap)
    && (s.isFlush ==> s.cur == 0 && (s.client.WriteWait? || s.client.FlushWait? || s.client.CloseWait?))
    && (s.client.FlushWait? || s.client.CloseWait? || s.client.Joining? || s.client.Closed? ==> s.cur == 0)
    && (s.stop <==> s.client.Joining? || s.client.Closed?)
    && (s.backend.ToWrite? ==> s.isFlush && s.backend.size == s.flushSize)
    && (s.backend.Wrote? ==> s.isFlush)
    && (s.backend.Exited? ==> s.stop)
    && (s.client.Closed? ==> s.backend.Exited?)
  }

  lemma InitInv(s: State)
    requires Init(s)
    ensures Inv(s)
  {
    assert s.disk + [] + [] == s.written;
  }

  /** Every step is safe (no buffer is overrun) and keeps the bytes in order. */
  lemma StepKeeps(s: State, e: Event)
    requires Inv(s) && Enabled(s, e)
    ensures Safe(s, e) && Inv(Apply(s, e))
  {
    match e {
      case Write(data) =>
        if s.cur + |data| > s.cap { SwapKeeps(s, WriteWait(data)); } else { CopyKeeps(s, data); }
      case WriteResume => CopyKeeps(s, s.client.data);
      case Flush => if s.cur > 0 { SwapKeeps(s, FlushWait); }
      case Close => if s.cur > 0 { SwapKeeps(s, CloseWait); }
      case _ =>
    }
  }

  lemma SwapKeeps(s: State, pc: ClientPc)
    requires Inv(s) && s.client.Idle?
    ensures Sized(Swap(s, pc)) && var t := Swap(s, pc); t.disk + InFlight(t) + t.active[..t.cur] == t.written
  {
  }

  lemma CopyKeeps(s: State, data: seq<byte>)
    requires Inv(s) && !s.isFlush && s.cur + |data| <= s.cap
    ensures var t := Copy(s, data); Sized(t) && t.disk + InFlight(t) + t.active[..t.cur] == t.written
  {
    var t := Copy(s, data);
    assert t.active[..t.cur] == s.active[..s.cur] + data;
    Assoc(s.disk, s.active[..s.cur], data);
  }

  ghost predicate Reaches(s: State, es: seq<Event>, t: State)
    decreases |es|
  {
    if es == [] then t == s
    else Enabled(s, es[0]) && Safe(s, es[0]) && Reaches(Apply(s, es[0]), es[1..], t)
  }

  lemma {:induction false} RunKeeps(s: State, es: seq<Event>, t: State)
    requires Inv(s) && Reaches(s, es, t)
    ensures Inv(t)
    decreases |es|
  {
    if es != [] {
      StepKeeps(s, es[0]);
      RunKeeps(Apply(s, es[0]), es[1..], t);
    }
  }

  /**
   In every interleaving: disk, then the flush under way, then the buffered prefix are all bytes
   written, in order; offsets stay within capacity; the disk is a prefix of what was written.
   */
  lemma NothingIsLost(s: State, es: seq<Event>, t: State)
    requires Init(s) && Reaches(s, es, t)
    ensures t.cur <= t.cap && t.flushSize <= t.cap && |t.active| == t.cap && |t.pending| == t.cap
    ensures t.disk + InFlight(t) + t.active[..t.cur] == t.written && t.disk <= t.written
  {
    InitInv(s);
    RunKeeps(s, es, t);
    Assoc(t.disk, InFlight(t), t.active[..t.cur]);
  }

  /** Flush returns only when everything written is on disk; so does the destructor. */
  lemma FlushIsDurable(s: State, es: seq<Event>, t: State)
    requires Init(s) && Reaches(s, es, t)
    ensures t.client.FlushWait? && Enabled(t, FlushResume) ==> t.disk == t.written
    ensures t.client.Idle? && t.cur == 0 ==> t.disk == t.written
    ensures t.client.Closed? ==> t.disk == t.written && t.backend.Exited?
  {
    InitInv(s);
    RunKeeps(s, es, t);
    assert t.disk + [] + [] == t.disk;
  }

  // ----- What a caller hands over -------------------------------------------------------------

  /** The bytes of a write that waits for room. */
  function Held(c: ClientPc): seq<byte> { if c.WriteWait? then c.data else [] }

  /** Everything handed to Write so far. */
  function Handed(s: State): seq<byte> { s.written + Held(s.client) }

  /** Write takes the bytes over; nothing reaches the disk yet. */
  lemma WriteTakes(s: State, data: seq<byte>)
    requires Inv(s) && s.client.Idle? && |data| <= s.cap
    ensures Safe(s, Write(data)) && Inv(Apply(s, Write(data)))
    ensures var t := Apply(s, Write(data));
      Handed(t) == Handed(s) + data && t.disk == s.disk && t.cap == s.cap
  {
    StepKeeps(s, Write(data));
    assert s.written + [] == s.written;
    assert s.written + data + [] == s.written + data;
  }

  /** Write waits exactly when the buffer has no room left; otherwise it only copies. */
  lemma WriteWaitsExactly(s: State, data: seq<byte>)
    requires Inv(s) && s.client.Idle? && |data| <= s.cap
    ensures var t := Apply(s, Write(data));
      && (t.client.WriteWait? <==> s.cur + |data| > s.cap) && t.backend == s.backend && t.disk == s.disk
      && (t.client.WriteWait? ==> t.isFlush && t.cur == 0 && t.flushSize == s.cur && t.pending == s.active)
      && (!t.client.WriteWait? ==>
            && t.client.Idle? && !t.isFlush && t.cur == s.cur + |data|
            && t.active[..t.cur] == s.active[..s.cur] + data && t.pending == s.pending)
  {
  }

  /** Flush waits exactly when something is buffered, and hands all of it to the backend. */
  lemma FlushWaitsExactly(s: State)
    requires Inv(s) && s.client.Idle?
    ensures var t := Apply(s, Flush);
      && (t.client.FlushWait? <==> s.cur > 0) && (s.cur == 0 ==> t == s)
      && (s.cur > 0 ==> t.isFlush && t.cur == 0 && t.flushSize == s.cur && t.pending == s.active && t.disk == s.disk)
  {
  }

  /** Every other step keeps what was handed over, and the disk only grows. */
  lemma StepHands(s: State, e: Event)
    requires Inv(s) && Enabled(s, e) && !e.Write?
    ensures Safe(s, e) && Inv(Apply(s, e))
    ensures var t := Apply(s, e); Handed(t) == Handed(s) && |s.disk| <= |t.disk| && t.cap == s.cap
  {
    StepKeeps(s, e);
    if e.WriteResume? { assert s.written + s.client.data + [] == s.written + s.client.data; }
  }

  // ----- Progress -----------------------------------------------------------------------------

  /** Backend steps left before a waiting client can go on. */
  function Rank(s: State): nat {
    if !s.isFlush && !(s.stop && s.backend.Waiting?) then 0
    else match s.backend case Waiting => 3 case ToWrite(_) => 2 case Wrote => 1 case Exited => 0
  }

  predicate ClientWaits(s: State) {
    s.client.WriteWait? || s.client.FlushWait? || s.client.CloseWait? || s.client.Joining?
  }

  predicate BackendEvent(e: Event) { e.Take? || e.DiskWrite? || e.FlushDone? || e.Stop? }

  predicate Resumes(s: State, e: Event) {
    Enabled(s, e) && !BackendEvent(e)
  }

  /** No deadlock: a waiting client can resume at once, or the backend can step, at most three times. */
  lemma WaitingEnds(s: State) returns (e: Event)
    requires Inv(s) && ClientWaits(s)
    ensures Enabled(s, e) && Safe(s, e)
    ensures Rank(s) == 0 ==> Resumes(s, e)
    ensures Rank(s) > 0 ==> BackendEvent(e) && Rank(Apply(s, e)) < Rank(s) && Apply(s, e).client == s.client
  {
    if s.isFlush {
      e := match s.backend case Waiting => Take case ToWrite(_) => DiskWrite case _ => FlushDone;
    } else if s.client.Joining? {
      e := if s.backend.Waiting? then Stop else Join;
    } else {
      e := match s.client case WriteWait(_) => WriteResume case FlushWait => FlushResume case _ => CloseResume;
    }
  }

  // ----- The object ---------------------------------------------------------------------------

  /**
   The buffer object: two arrays swapped by reference. Each method is what one thread does between
   taking the lock and giving it up; `client` and `backend` remember where each thread stands.
   */
  class Buffer {
    const capacity: nat
    var logBuffer: array<byte>
    var flushBuffer: array<byte>
    var curOffset: nat
    var flushSize: nat
    var isFlush: bool
    var stop: bool
    var client: ClientPc
    var backend: BackendPc
    var disk: seq<byte>
    ghost var written: seq<byte>

    ghost function Abs(): State
      reads this, logBuffer, flushBuffer
    {
      State(capacity, logBuffer[..], flushBuffer[..], curOffset, flushSize,
            isFlush, stop, client, backend, disk, written)
    }

    ghost predicate Valid()
      reads this, logBuffer, flushBuffer
    {
      logBuffer != flushBuffer && Inv(Abs())
    }

    constructor (size: nat, onDisk: seq<byte>)
      ensures Valid() && Init(Abs()) && disk == onDisk && capacity == size
    {
      capacity := size;
      logBuffer := new byte[size];
      flushBuffer := new byte[size];
      curOffset, flushSize, isFlush, stop := 0, 0, false, false;
      client, backend, disk, written := Idle, Waiting, onDisk, onDisk;
      new;
      InitInv(Abs());
    }

    method SwapBuffers()
      modifies this`logBuffer, this`flushBuffer, this`flushSize, this`curOffset
      ensures logBuffer == old(flushBuffer) && flushBuffer == old(logBuffer)
      ensures flushSize == old(curOffset) && curOffset == 0
    {
      logBuffer, flushBuffer := flushBuffer, logBuffer;
      flushSize := curOffset;
      curOffset := 0;
    }

    /** Write up to its copy, or up to its wait for room; `thrown` when the record cannot fit. */
    method StartWrite(data: seq<byte>) returns (thrown: bool)
      requires Valid() && client.Idle?
      modifies this, logBuffer
      ensures Valid() && {logBuffer, flushBuffer} == old({logBuffer, flushBuffer}) && thrown == (|data| > capacity)
      ensures Safe(old(Abs()), Write(data)) && Abs() == Apply(old(Abs()), Write(data))
    {
      StepKeeps(Abs(), Write(data));
      thrown := |data| > capacity;
      if !thrown {
        if curOffset + |data| > capacity {
          SwapBuffers();
          isFlush, client := true, WriteWait(data);
        } else {
          Memcpy(logBuffer, curOffset, data);
          curOffset, written := curOffset + |data|, written + data;
        }
      }
    }

    /** Write after its wait. */
    method ResumeWrite()
      requires Valid() && client.WriteWait? && !isFlush
      modifies this, logBuffer
      ensures Valid() && {logBuffer, flushBuffer} == old({logBuffer, flushBuffer})
      ensures Safe(old(Abs()), WriteResume) && Abs() == Apply(old(Abs()), WriteResume)
    {
      StepKeeps(Abs(), WriteResume);
      var data := client.data;
      Memcpy(logBuffer, curOffset, data);
      curOffset, written, client := curOffset + |data|, written + data, Idle;
    }

    method StartFlush()
      requires Valid() && client.Idle?
      modifies this
      ensures Valid() && {logBuffer, flushBuffer} == old({logBuffer, flushBuffer})
      ensures Safe(old(Abs()), Flush) && Abs() == Apply(old(Abs()), Flush)
    {
      StepKeeps(Abs(), Flush);
      if curOffset != 0 {
        SwapBuffers();
        isFlush, client := true, FlushWait;
      }
    }

    /** Flush after its wait: it returns with everything written on disk. */
    method ResumeFlush()
      requires Valid() && client.FlushWait? && !isFlush
      modifies this
      ensures Valid() && logBuffer == old(logBuffer) && flushBuffer == old(flushBuffer)
      ensures Abs() == Apply(old(Abs()), FlushResume) && disk == written
    {
      client := Idle;
      assert disk + [] + [] == disk;
    }

    /** One turn of the backend loop, up to the next point without the lock. */
    method BackendTurn()
      requires Valid()
      requires Enabled(Abs(), Take) || Enabled(Abs(), DiskWrite) || Enabled(Abs(), FlushDone) || Enabled(Abs(), Stop)
      modifies this
      ensures Valid() && logBuffer == old(logBuffer) && flushBuffer == old(flushBuffer)
      ensures exists e ::
              BackendEvent(e) && Enabled(old(Abs()), e) && Safe(old(Abs()), e) && Abs() == Apply(old(Abs()), e)
    {
      ghost var s := Abs();
      ghost var e: Event;
      if backend.Waiting? {
        if isFlush { backend := ToWrite(flushSize); e := Take; } else { backend := Exited; e := Stop; }
      } else if backend.ToWrite? {
        if backend.size > 0 { disk := disk + flushBuffer[..backend.size]; }
        backend := Wrote;
        e := DiskWrite;
      } else {
        isFlush := false;
        backend := if stop then Exited else Waiting;
        e := FlushDone;
      }
      StepKeeps(s, e);
      assert BackendEvent(e) && Enabled(s, e) && Safe(s, e) && Abs() == Apply(s, e);
    }
  }
}
