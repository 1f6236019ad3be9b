/**
 One session over the log: begins, data records, commits and aborts of one client, with the log
 buffer's threads interleaved underneath, a crash after any byte, and the Analysis of what survived.
 */
module Durability {
  import opened Common
  import opened Bytes
  import opened LogCodec
  import opened Recovery
  import LB = LogBuffer

  /** The client's call under way: an append, or a commit or abort in its append or its flush. */
  datatype Call = NoCall | Appending | EndAppending(t: TxId, commit: bool) | EndFlushing(t: TxId, commit: bool)

  /** `recs` are the records appended so far, `returned` the transactions whose Commit returned. */
  datatype Session = Session(
    next: TxId, active: set<TxId>, lsn: nat, log: LB.State, call: Call,
    recs: seq<LogRec>, returned: set<TxId>)

  datatype Event =
    | Begin | Data(t: TxId, kind: byte, payload: seq<byte>) | AppendDone
    | End(t: TxId, commit: bool) | StartFlush | Return
    | Log(e: LB.Event)

  function NextRec(s: Session, t: TxId, kind: byte, payload: seq<byte>): LogRec {
    LogRec(s.lsn, t, kind, payload)
  }

  predicate Loggable(s: Session, r: LogRec) {
    Fits(r) && |Encode(r)| <= s.log.cap
  }

  predicate Free(s: Session) { s.call.NoCall? && s.log.client.Idle? && LB.Sized(s.log) }

  function EndKind(commit: bool): byte { if commit then COMMIT else ABORT }

  predicate Enabled(s: Session, e: Event) {
    match e
    case Begin => Free(s)
    case Data(t, kind, p) => Free(s) && (t in s.active || t == 0) && IsData(kind) && Loggable(s, NextRec(s, t, kind, p))
    case AppendDone => s.call.Appending? && s.log.client.Idle?
    case End(t, c) => Free(s) && t in s.active && Loggable(s, NextRec(s, t, EndKind(c), []))
    case StartFlush => s.call.EndAppending? && s.log.client.Idle? && LB.Sized(s.log)
    case Return => s.call.EndFlushing? && s.log.client.Idle?
    case Log(e) => (LB.BackendEvent(e) || e.WriteResume? || e.FlushResume?) && LB.Enabled(s.log, e) && LB.Safe(s.log, e)
  }

  function AppendRec(s: Session, r: LogRec, call: Call): Session
    requires s.log.client.Idle? && LB.Sized(s.log)
  {
    s.(lsn := s.lsn + 1, recs := s.recs + [r], log := LB.Apply(s.log, LB.Write(Encode(r))), call := call)
  }

  function Apply(s: Session, e: Event): Session
    requires Enabled(s, e)
  {
    match e
    case Begin => s.(next := s.next + 1, active := s.active + {s.next})
    case Data(t, kind, p) => AppendRec(s, NextRec(s, t, kind, p), Appending)
    case AppendDone => s.(call := NoCall)
    case End(t, c) => AppendRec(s, NextRec(s, t, EndKind(c), []), EndAppending(t, c)).(active := s.active - {t})
    case StartFlush => s.(log := LB.Apply(s.log, LB.Flush), call := EndFlushing(s.call.t, s.call.commit))
    case Return => s.(returned := if s.call.commit then s.returned + {s.call.t} else s.returned, call := NoCall)
    case Log(e) => s.(log := LB.Apply(s.log, e))
  }

  ghost predicate Init(s: Session) {
    && s.next >= 1 && s.active == {} && s.lsn == 1 && s.call == NoCall && s.recs == [] && s.returned == {}
    && LB.Init(s.log) && s.log.disk == []
  }

  // ----- Invariant ----------------------------------------------------------------------------

  /** The buffer holds the encodings of the records, in order. */
  ghost predicate BytesOk(s: Session) {
    LB.Inv(s.log) && AllFit(s.recs) && LB.Handed(s.log) == EncodeAll(s.recs)
  }

  /** Nothing follows a transaction's end, and only unfinished transactions are active. */
  ghost predicate EndsOk(s: Session) {
    && 1 <= s.next && (forall t :: t in s.active ==> 1 <= t < s.next)
    && (forall i :: 0 <= i < |s.recs| ==> s.recs[i].tx < s.next)
    && (forall i :: 0 <= i < |s.recs| && IsEnd(s.recs[i]) ==> s.recs[i].tx !in s.active && s.recs[i].tx != 0)
    && (forall i, j :: 0 <= i < j < |s.recs| && IsEnd(s.recs[i]) ==> s.recs[j].tx != s.recs[i].tx)
  }

  predicate IsEnd(r: LogRec) { r.kind == COMMIT || r.kind == ABORT }

  predicate IsCommit(r: LogRec, t: TxId) { r.tx == t && r.kind == COMMIT }

  /** Record `i` lies wholly within the first `n` bytes of the log. */
  ghost predicate Whole(recs: seq<LogRec>, n: nat, i: int) {
    0 <= i < |recs| && |EncodeAll(recs[..i + 1])| <= n
  }

  ghost predicate CommitWithin(recs: seq<LogRec>, n: nat, t: TxId) {
    exists i :: Whole(recs, n, i) && IsCommit(recs[i], t)
  }

  ghost predicate CallOk(s: Session) {
    match s.call
    case EndAppending(t, c) => c ==> exists i :: 0 <= i < |s.recs| && IsCommit(s.recs[i], t)
    case EndFlushing(t, c) =>
      && (c ==> exists i :: 0 <= i < |s.recs| && IsCommit(s.recs[i], t))
      && (s.log.client.FlushWait? || (s.log.client.Idle? && s.log.cur == 0))
    case _ => true
  }

  ghost predicate ReturnedOk(s: Session) {
    forall t :: t in s.returned ==> CommitWithin(s.recs, |s.log.disk|, t)
  }

  ghost predicate Inv(s: Session) {
    BytesOk(s) && EndsOk(s) && CallOk(s) && ReturnedOk(s)
  }

  lemma {:induction false} PrefixGrows(rs: seq<LogRec>, i: nat, j: nat)
    requires i <= j <= |rs|
    ensures |EncodeAll(rs[..i])| <= |EncodeAll(rs[..j])|
    ensures EncodeAll(rs[..j]) <= EncodeAll(rs)
    ensures i < j ==> |EncodeAll(rs[..i])| < |EncodeAll(rs[..j])|
  {
    assert rs[..j] == rs[..i] + rs[i..j] && rs == rs[..j] + rs[j..];
    EncodeAllAppend(rs[..i], rs[i..j]);
    EncodeAllAppend(rs[..j], rs[j..]);
  }

  /** Once within the disk's bytes, a commit stays there. */
  lemma CommitStays(recs: seq<LogRec>, recs': seq<LogRec>, n: nat, m: nat, t: TxId)
    requires recs <= recs' && n <= m && CommitWithin(recs, n, t)
    ensures CommitWithin(recs', m, t)
  {
    var i :| Whole(recs, n, i) && IsCommit(recs[i], t);
    assert recs'[..i + 1] == recs[..i + 1];
    assert Whole(recs', m, i) && IsCommit(recs'[i], t);
  }

  lemma ReturnedStays(s: Session, s': Session)
    requires ReturnedOk(s) && s.recs <= s'.recs && |s.log.disk| <= |s'.log.disk| && s'.returned == s.returned
    ensures ReturnedOk(s')
  {
    forall t | t in s'.returned ensures CommitWithin(s'.recs, |s'.log.disk|, t) {
      CommitStays(s.recs, s'.recs, |s.log.disk|, |s'.log.disk|, t);
    }
  }

  lemma OneMore(recs: seq<LogRec>, r: LogRec)
    ensures EncodeAll(recs + [r]) == EncodeAll(recs) + Encode(r)
  {
    EncodeAllAppend(recs, [r]);
    assert EncodeAll([r]) == Encode(r) + [];
  }

  lemma AppendBytes(s: Session, r: LogRec, call: Call)
    requires BytesOk(s) && s.log.client.Idle? && Loggable(s, r)
    ensures BytesOk(AppendRec(s, r, call)) && AppendRec(s, r, call).log.disk == s.log.disk
  {
    LB.WriteTakes(s.log, Encode(r));
    OneMore(s.recs, r);
  }

  lemma AppendEnds(s: Session, r: LogRec, call: Call)
    requires EndsOk(s) && s.log.client.Idle? && LB.Sized(s.log) && r.tx < s.next
    requires r.tx in s.active || (r.tx == 0 && !IsEnd(r))
    ensures EndsOk(AppendRec(s, r, call).(active := if IsEnd(r) then s.active - {r.tx} else s.active))
  {
  }

  lemma DataKeeps(s: Session, t: TxId, kind: byte, p: seq<byte>)
    requires Inv(s) && Enabled(s, Data(t, kind, p))
    ensures Inv(Apply(s, Data(t, kind, p)))
  {
    var r := NextRec(s, t, kind, p);
    var s' := AppendRec(s, r, Appending);
    AppendBytes(s, r, Appending);
    AppendEnds(s, r, Appending);
    ReturnedStays(s, s');
  }

  lemma EndKeeps(s: Session, t: TxId, c: bool)
    requires Inv(s) && Enabled(s, End(t, c))
    ensures Inv(Apply(s, End(t, c)))
  {
    var r := NextRec(s, t, EndKind(c), []);
    var s' := Apply(s, End(t, c));
    AppendBytes(s, r, EndAppending(t, c));
    AppendEnds(s, r, EndAppending(t, c));
    ReturnedStays(s, s');
    assert s'.recs[|s.recs|] == r;
  }

  lemma LogBytes(s: Session, e: LB.Event)
    requires BytesOk(s) && Enabled(s, Log(e))
    ensures BytesOk(Apply(s, Log(e))) && |s.log.disk| <= |Apply(s, Log(e)).log.disk|
  {
    LB.StepHands(s.log, e);
  }

  /** The buffer's own steps never start a copy while a commit is flushing. */
  lemma LogCall(s: Session, e: LB.Event)
    requires CallOk(s) && Enabled(s, Log(e)) && (s.log.client.FlushWait? ==> s.log.cur == 0)
    ensures CallOk(Apply(s, Log(e)))
  {
  }

  lemma LogKeeps(s: Session, e: LB.Event)
    requires Inv(s) && Enabled(s, Log(e))
    ensures Inv(Apply(s, Log(e)))
  {
    LogBytes(s, e);
    LogCall(s, e);
    assert EndsOk(Apply(s, Log(e)));
    ReturnedStays(s, Apply(s, Log(e)));
  }

  /** When a commit's flush returns, every record is on disk. */
  lemma FlushedAll(s: Session)
    requires BytesOk(s) && s.log.client.Idle? && s.log.cur == 0
    ensures s.log.disk == EncodeAll(s.recs)
  {
    assert s.log.disk + [] + [] == s.log.disk;
    assert s.log.written + [] == s.log.written;
  }

  lemma ReturnKeeps(s: Session)
    requires Inv(s) && Enabled(s, Return)
    ensures Inv(Apply(s, Return))
  {
    FlushedAll(s);
    if s.call.commit { FlushedCommit(s.recs, |s.log.disk|, s.call.t); }
  }

  /** With every record on disk, a commit record among them is. */
  lemma FlushedCommit(recs: seq<LogRec>, n: nat, t: TxId)
    requires n == |EncodeAll(recs)| && exists i :: 0 <= i < |recs| && IsCommit(recs[i], t)
    ensures CommitWithin(recs, n, t)
  {
    var i :| 0 <= i < |recs| && IsCommit(recs[i], t);
    PrefixGrows(recs, i + 1, |recs|);
    assert recs[..|recs|] == recs && Whole(recs, n, i);
  }

  lemma BeginKeeps(s: Session)
    requires Inv(s) && Enabled(s, Begin)
    ensures Inv(Apply(s, Begin))
  {
    ReturnedStays(s, Apply(s, Begin));
  }

  lemma FlushKeeps(s: Session)
    requires Inv(s) && Enabled(s, StartFlush)
    ensures Inv(Apply(s, StartFlush))
  {
    LB.StepHands(s.log, LB.Flush);
    ReturnedStays(s, Apply(s, StartFlush));
  }

  lemma DoneKeeps(s: Session)
    requires Inv(s) && Enabled(s, AppendDone)
    ensures Inv(Apply(s, AppendDone))
  {
    ReturnedStays(s, Apply(s, AppendDone));
  }

  lemma StepKeeps(s: Session, e: Event)
    requires Inv(s) && Enabled(s, e)
    ensures Inv(Apply(s, e))
  {
    match e
    case Begin => BeginKeeps(s);
    case Data(t, kind, p) => DataKeeps(s, t, kind, p);
    case End(t, c) => EndKeeps(s, t, c);
    case StartFlush => FlushKeeps(s);
    case Return => ReturnKeeps(s);
    case Log(x) => LogKeeps(s, x);
    case AppendDone => DoneKeeps(s);
  }

  ghost predicate Reaches(s: Session, es: seq<Event>, t: Session)
    decreases |es|
  {
    if es == [] then t == s else Enabled(s, es[0]) && Reaches(Apply(s, es[0]), es[1..], t)
  }

  lemma {:induction false} RunKeeps(s: Session, es: seq<Event>, t: Session)
    requires Inv(s) && Reaches(s, es, t)
    ensures Inv(t)
    decreases |es|
  {
    if es != [] {
      StepKeeps(s, es[0]);
      RunKeeps(Apply(s, es[0]), es[1..], t);
    }
  }

  lemma SessionInv(s0: Session, es: seq<Event>, s: Session)
    requires Init(s0) && Reaches(s0, es, s)
    ensures Inv(s)
  {
    LB.InitInv(s0.log);
    assert s0.log.written + [] == [];
    RunKeeps(s0, es, s);
  }

  // ----- What a session does ------------------------------------------------------------------

  /** The records these calls append, the first of them under `lsn` and each next one under the next. */
  function Logged(es: seq<Event>, lsn: nat): seq<LogRec> {
    if es == [] then []
    else match es[0]
      case Data(t, kind, p) => [LogRec(lsn, t, kind, p)] + Logged(es[1..], lsn + 1)
      case End(t, commit) => [LogRec(lsn, t, if commit then COMMIT else ABORT, [])] + Logged(es[1..], lsn + 1)
      case _ => Logged(es[1..], lsn)
  }

  lemma {:induction false} LoggedLsn(es: seq<Event>, lsn: nat, i: nat)
    requires i < |Logged(es, lsn)|
    ensures Logged(es, lsn)[i].lsn == lsn + i
  {
    if es[0].Data? || es[0].End? {
      if i > 0 { LoggedLsn(es[1..], lsn + 1, i - 1); }
    } else {
      LoggedLsn(es[1..], lsn, i);
    }
  }

  lemma StepLogs(s: Session, e: Event)
    requires Enabled(s, e)
    ensures Apply(s, e).recs == s.recs + Logged([e], s.lsn) && Apply(s, e).lsn == s.lsn + |Logged([e], s.lsn)|
  {
    assert [e][1..] == [];
  }

  lemma LoggedCons(e: Event, es: seq<Event>, lsn: nat)
    ensures Logged([e] + es, lsn) == Logged([e], lsn) + Logged(es, lsn + |Logged([e], lsn)|)
  {
    assert ([e] + es)[1..] == es && [e][1..] == [];
  }

  /** The log is the record of the calls, in order. */
  lemma {:induction false} RunLogs(s: Session, es: seq<Event>, t: Session)
    requires Reaches(s, es, t)
    ensures t.recs == s.recs + Logged(es, s.lsn) && t.lsn == s.lsn + |Logged(es, s.lsn)|
    decreases |es|
  {
    if es != [] {
      var u := Apply(s, es[0]);
      StepLogs(s, es[0]);
      RunLogs(u, es[1..], t);
      assert es == [es[0]] + es[1..];
      LoggedCons(es[0], es[1..], s.lsn);
      assert t.recs == s.recs + Logged([es[0]], s.lsn) + Logged(es[1..], u.lsn);
    }
  }

  /** LSNs count up along the log from 1, without a gap, and the next one is beyond them all. */
  lemma LsnsCountUp(s0: Session, es: seq<Event>, s: Session, i: nat)
    requires Init(s0) && Reaches(s0, es, s)
    ensures s.recs == Logged(es, 1) && s.lsn == 1 + |s.recs|
    ensures i < |s.recs| ==> s.recs[i].lsn == 1 + i
  {
    RunLogs(s0, es, s);
    if i < |s.recs| { LoggedLsn(es, 1, i); }
  }

  function Begins(es: seq<Event>): nat {
    if es == [] then 0 else (if es[0].Begin? then 1 else 0) + Begins(es[1..])
  }

  predicate Ended(es: seq<Event>, t: TxId) { End(t, true) in es || End(t, false) in es }

  /** Ids are handed out one after the other; a transaction is active from its begin to its end. */
  lemma {:induction false} RunActive(s: Session, es: seq<Event>, s': Session, t: TxId)
    requires Reaches(s, es, s') && forall x :: x in s.active ==> x < s.next
    ensures s'.next == s.next + Begins(es)
    ensures t in s'.active <==> (t in s.active || s.next <= t < s'.next) && !Ended(es, t)
    decreases |es|
  {
    if es != [] {
      var u, rest := Apply(s, es[0]), es[1..];
      RunActive(u, rest, s', t);
      assert es == [es[0]] + rest;
      if es[0].End? && es[0].t == t { EndedStaysEnded(u, rest, s', t); }
    }
  }

  /** Nobody is active again. */
  lemma {:induction false} EndedStaysEnded(s: Session, es: seq<Event>, s': Session, t: TxId)
    requires Reaches(s, es, s') && t < s.next && t !in s.active
    ensures t !in s'.active
    decreases |es|
  {
    if es != [] { EndedStaysEnded(Apply(s, es[0]), es[1..], s', t); }
  }

  function Committing(c: Call): Option<TxId> {
    match c
    case EndAppending(t, commit) => if commit then Some(t) else None
    case EndFlushing(t, commit) => if commit then Some(t) else None
    case _ => None
  }

  /** The commits that return in these calls; `open` is the one under way before them. */
  function Returns(es: seq<Event>, open: Option<TxId>): set<TxId> {
    if es == [] then {}
    else match es[0]
      case End(t, commit) => Returns(es[1..], if commit then Some(t) else None)
      case Return => (if open.Some? then {open.value} else {}) + Returns(es[1..], None)
      case _ => Returns(es[1..], open)
  }

  lemma {:induction false} RunReturns(s: Session, es: seq<Event>, s': Session)
    requires Reaches(s, es, s')
    ensures s'.returned == s.returned + Returns(es, Committing(s.call))
    decreases |es|
  {
    if es != [] { RunReturns(Apply(s, es[0]), es[1..], s'); }
  }

  lemma {:induction false} ReachesTrans(s: Session, es: seq<Event>, u: Session, fs: seq<Event>, t: Session)
    requires Reaches(s, es, u) && Reaches(u, fs, t)
    ensures Reaches(s, es + fs, t)
    decreases |es|
  {
    if es == [] {
      assert es + fs == fs;
    } else {
      ReachesTrans(Apply(s, es[0]), es[1..], u, fs, t);
      assert (es + fs)[0] == es[0] && (es + fs)[1..] == es[1..] + fs;
    }
  }

  lemma ReachesOne(s: Session, e: Event)
    requires Enabled(s, e)
    ensures Reaches(s, [e], Apply(s, e))
  {
    assert [e][1..] == [] && Reaches(Apply(s, e), [], Apply(s, e));
  }

  lemma LogEventEnabled(s: Session, e: LB.Event)
    requires LB.Inv(s.log) && LB.Enabled(s.log, e) && (s.log.client.WriteWait? || s.log.client.FlushWait?)
    requires LB.BackendEvent(e) || LB.Resumes(s.log, e)
    ensures Enabled(s, Log(e))
    ensures !LB.BackendEvent(e) ==> LB.Apply(s.log, e).client.Idle?
  {
    LB.StepKeeps(s.log, e);
  }

  /** A call that waits goes on after a few steps of the backend. */
  lemma {:induction false} WaitEnds(s: Session) returns (es: seq<Event>, t: Session)
    requires Inv(s) && (s.log.client.WriteWait? || s.log.client.FlushWait?)
    ensures Reaches(s, es, t) && Inv(t) && t.log.client.Idle?
    ensures t == s.(log := t.log)
    decreases LB.Rank(s.log)
  {
    var e := LB.WaitingEnds(s.log);
    LogEventEnabled(s, e);
    var u := Apply(s, Log(e));
    StepKeeps(s, Log(e));
    ReachesOne(s, Log(e));
    es, t := [Log(e)], u;
    if LB.BackendEvent(e) {
      es, t := WaitEnds(u);
      ReachesTrans(s, [Log(e)], u, es, t);
      es := [Log(e)] + es;
    }
  }

  lemma Settled(s: Session) returns (es: seq<Event>, t: Session)
    requires Inv(s) && (s.log.client.Idle? || s.log.client.WriteWait? || s.log.client.FlushWait?)
    ensures Reaches(s, es, t) && Inv(t) && t.log.client.Idle? && t == s.(log := t.log)
  {
    es, t := [], s;
    if !s.log.client.Idle? { es, t := WaitEnds(s); }
  }

  lemma Then(s: Session, es: seq<Event>, u: Session, e: Event) returns (fs: seq<Event>, t: Session)
    requires Reaches(s, es, u) && Inv(u) && Enabled(u, e)
    requires var w := Apply(u, e).log.client; w.Idle? || w.WriteWait? || w.FlushWait?
    ensures Reaches(s, fs, t) && Inv(t) && t.log.client.Idle? && t == Apply(u, e).(log := t.log)
  {
    var v := Apply(u, e);
    StepKeeps(u, e);
    ReachesOne(u, e);
    ReachesTrans(s, es, u, [e], v);
    var gs;
    gs, t := Settled(v);
    ReachesTrans(s, es + [e], v, gs, t);
    fs := es + [e] + gs;
  }

  /** Commit returns: whatever the state of the buffer, its call can always be carried to its end. */
  lemma CommitReturns(s: Session, t: TxId) returns (es: seq<Event>, s': Session)
    requires Inv(s) && Free(s) && t in s.active && Loggable(s, LogRec(s.lsn, t, COMMIT, []))
    ensures Reaches(s, es, s') && t in s'.returned && t !in s'.active && s'.call == NoCall
  {
    es, s' := Then(s, [], s, End(t, true));
    es, s' := Then(s, es, s', StartFlush);
    es, s' := Then(s, es, s', Return);
  }

  // ----- Crash and recovery -------------------------------------------------------------------

  /** With nothing after an end, a commit stands as soon as it is there. */
  lemma CommitStandsIff(s: Session, k: nat, t: TxId)
    requires EndsOk(s) && k <= |s.recs|
    ensures CommitStands(s.recs[..k], t) <==> exists i :: 0 <= i < k && IsCommit(s.recs[i], t)
  {
    forall i | 0 <= i < k && IsCommit(s.recs[i], t) ensures CommitStands(s.recs[..k], t) {
      assert CommitStandsAt(s.recs[..k], t, i);
    }
    if CommitStands(s.recs[..k], t) {
      var i: nat :| CommitStandsAt(s.recs[..k], t, i);
      assert IsCommit(s.recs[i], t);
    }
  }

  lemma WholeIff(recs: seq<LogRec>, n: nat, k: nat, i: int)
    requires k <= |recs| && |EncodeAll(recs[..k])| <= n && (k < |recs| ==> n < |EncodeAll(recs[..k + 1])|)
    ensures Whole(recs, n, i) <==> 0 <= i < k
  {
    if 0 <= i < k { PrefixGrows(recs, i + 1, k); }
    else if k <= i < |recs| { PrefixGrows(recs, k + 1, i + 1); }
  }

  /** What Analysis makes of `t` after a crash that left `n` bytes of log. */
  ghost predicate OutcomeOk(s: Session, n: nat, tab: Table, out: Table, t: TxId) {
    && (t !in tab.states ==> (t in out.states && out.states[t].Committed? <==> CommitWithin(s.recs, n, t)))
    && (CommitWithin(s.recs, n, t) ==> t in out.states && out.states[t].Committed?)
    && (t in s.returned ==> t in out.states && out.states[t].Committed?)
    && (!CommitWithin(s.recs, n, t) && (exists i :: Whole(s.recs, n, i) && Mentions(s.recs[i], t)) ==>
          t in out.states && out.states[t].Aborted?)
    && (forall i :: Whole(s.recs, n, i) ==> s.recs[i].tx < out.next)
  }

  lemma CrashOutcome(s: Session, n: nat, k: nat, tab: Table, t: TxId)
    requires EndsOk(s) && ReturnedOk(s) && |s.log.disk| <= n && t != 0
    requires k <= |s.recs| && forall i :: Whole(s.recs, n, i) <==> 0 <= i < k
    ensures OutcomeOk(s, n, tab, Analyse(tab, s.recs[..k]), t)
  {
    CommitStandsIff(s, k, t);
    AnalysisOutcome(tab, s.recs[..k], t);
    Seen(s.recs, k, n, t);
    if t in s.returned { CommitStays(s.recs, s.recs, |s.log.disk|, n, t); }
    NextBeyond(s.recs, k, tab, t);
  }

  lemma NextBeyond(recs: seq<LogRec>, k: nat, tab: Table, t: TxId)
    requires k <= |recs| && t != 0
    ensures forall i :: 0 <= i < k ==> recs[i].tx < Analyse(tab, recs[..k]).next
  {
    AnalysisOutcome(tab, recs[..k], t);
    forall i | 0 <= i < k ensures recs[i].tx < Analyse(tab, recs[..k]).next {
      assert recs[..k][i] == recs[i];
    }
  }

  /** The surviving log is the longest run of whole records, and extends what was on disk. */
  lemma CrashLog(s: Session, n: nat) returns (k: nat)
    requires BytesOk(s) && |s.log.disk| <= n <= |EncodeAll(s.recs)|
    ensures s.log.disk <= EncodeAll(s.recs)[..n] && k <= |s.recs|
    ensures Parse(EncodeAll(s.recs)[..n]) == s.recs[..k] && (forall i :: Whole(s.recs, n, i) <==> 0 <= i < k)
  {
    k := TornTail(s.recs, n);
    forall i ensures Whole(s.recs, n, i) <==> 0 <= i < k { WholeIff(s.recs, n, k, i); }
    DiskIsPrefix(s);
  }

  /**
   A crash leaves what was on disk and any part of what was being written. Analysis of it marks an
   id COMMITTED exactly when its COMMIT record survived whole; every Commit that had returned is
   COMMITTED; every other id seen is ABORTED; the next id is beyond all ids seen.
   */
  lemma {:induction false} CommitSurvivesCrash(s0: Session, es: seq<Event>, s: Session, n: nat, tab: Table, t: TxId)
    requires Init(s0) && Reaches(s0, es, s)
    requires |s.log.disk| <= n <= |EncodeAll(s.recs)| && t != 0
    ensures s.log.disk <= EncodeAll(s.recs)[..n]
    ensures OutcomeOk(s, n, tab, Analyse(tab, Parse(EncodeAll(s.recs)[..n])), t)
  {
    SessionInv(s0, es, s);
    var k := CrashLog(s, n);
    CrashOutcome(s, n, k, tab, t);
  }

  lemma DiskIsPrefix(s: Session)
    requires BytesOk(s)
    ensures s.log.disk <= EncodeAll(s.recs)
  {
    Assoc(s.log.disk, LB.InFlight(s.log), s.log.active[..s.log.cur]);
  }

  lemma Seen(recs: seq<LogRec>, k: nat, n: nat, t: TxId)
    requires k <= |recs| && forall i :: Whole(recs, n, i) <==> 0 <= i < k
    ensures CommitWithin(recs, n, t) ==> exists i :: 0 <= i < k && IsCommit(recs[i], t)
    ensures CommitWithin(recs, n, t) ==> exists i :: 0 <= i < k && Mentions(recs[..k][i], t)
    ensures (exists i :: Whole(recs, n, i) && Mentions(recs[i], t)) ==>
              exists i :: 0 <= i < k && Mentions(recs[..k][i], t)
    ensures (exists i :: 0 <= i < k && IsCommit(recs[i], t)) ==> CommitWithin(recs, n, t)
  {
    if CommitWithin(recs, n, t) {
      var i :| Whole(recs, n, i) && IsCommit(recs[i], t);
      assert Mentions(recs[..k][i], t);
    }
    if i :| Whole(recs, n, i) && Mentions(recs[i], t) { assert Mentions(recs[..k][i], t); }
    if i :| 0 <= i < k && IsCommit(recs[i], t) { assert Whole(recs, n, i); }
  }
}
