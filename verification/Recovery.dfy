/** Rebuilding the transaction table from the surviving log: the Analysis pass. */
module Recovery {
  import opened Bytes
  import opened LogCodec
  import opened Common
  import opened Mvcc

  type Outcomes = map<TxId, Status>

  /** The part of the transaction manager that recovery writes. */
  datatype Table = Table(next: TxId, states: Outcomes)

  predicate IsWork(kind: byte) {
    IsData(kind) || kind == BEGIN
  }

  predicate Ends(r: LogRec, t: TxId) { r.tx == t && (r.kind == COMMIT || r.kind == ABORT) }

  predicate Mentions(r: LogRec, t: TxId) {
    r.tx == t && r.kind in [BEGIN, INSERT_ROW, UPDATE_ROW, DELETE_ROW, COMMIT, ABORT]
  }

  function Note(m: Outcomes, r: LogRec): Outcomes {
    if r.kind == COMMIT then m[r.tx := Committed]
    else if r.kind == ABORT then m[r.tx := Aborted]
    else if IsWork(r.kind) && r.tx !in m then m[r.tx := InProgress]
    else m
  }

  function Fold(logs: seq<LogRec>): Outcomes {
    if logs == [] then map[] else Note(Fold(logs[..|logs| - 1]), logs[|logs| - 1])
  }

  function MaxTx(logs: seq<LogRec>): (m: TxId)
    ensures forall i :: 0 <= i < |logs| ==> logs[i].tx <= m
  {
    if logs == [] then 0
    else
      var m := MaxTx(logs[..|logs| - 1]);
      var x := logs[|logs| - 1].tx;
      assert forall i :: 0 <= i < |logs| - 1 ==> logs[i] == logs[..|logs| - 1][i];
      if x > m then x else m
  }

  /** Uncommitted work counts as aborted. */
  function Settle(s: Status): Status { if s.Committed? then Committed else Aborted }

  function SettleAll(m: Outcomes): Outcomes { Settled(m, m.Keys) }

  /** The outcomes of the ids in `ids`; id 0 is nobody. */
  function Settled(m: Outcomes, ids: set<TxId>): Outcomes {
    map t | t in ids && t in m && t != INVALID_TX_ID :: Settle(m[t])
  }

  lemma SettleOne(known: Outcomes, m: Outcomes, ids: set<TxId>, t: TxId)
    requires t in m
    ensures known + Settled(m, ids + {t}) ==
            if t == INVALID_TX_ID then known + Settled(m, ids) else (known + Settled(m, ids))[t := Settle(m[t])]
  {
  }

  function Analyse(tab: Table, logs: seq<LogRec>): Table {
    var top := MaxTx(logs) + 1;
    Table(if top > tab.next then top else tab.next, tab.states + SettleAll(Fold(logs)))
  }

  /** The first loop: over the log. */
  method ScanOutcomes(logs: seq<LogRec>) returns (states: Outcomes, top: TxId)
    ensures states == Fold(logs) && top == MaxTx(logs)
  {
    states, top := map[], 0;
    for i := 0 to |logs|
      invariant states == Fold(logs[..i]) && top == MaxTx(logs[..i])
    {
      var log := logs[i];
      assert logs[..i + 1][..i] == logs[..i];
      if log.tx > top { top := log.tx; }
      if log.kind == COMMIT { states := states[log.tx := Committed]; }
      else if log.kind == ABORT { states := states[log.tx := Aborted]; }
      else if IsWork(log.kind) {
        if log.tx !in states { states := states[log.tx := InProgress]; }
      }
    }
    assert logs[..|logs|] == logs;
  }

  /** The second loop: over the outcomes found, in any order. */
  method WriteBack(known: Outcomes, found: Outcomes) returns (states: Outcomes)
    ensures states == known + SettleAll(found)
  {
    states := known;
    assert known + Settled(found, {}) == known;
    var todo := found.Keys;
    ghost var done: set<TxId> := {};
    while todo != {}
      invariant done + todo == found.Keys && states == known + Settled(found, done)
      decreases |todo|
    {
      var t :| t in todo;
      SettleOne(known, found, done, t);
      done, todo := done + {t}, todo - {t};
      if t != INVALID_TX_ID {
        states := states[t := if found[t].Committed? then Committed else Aborted];
      }
    }
    assert done == found.Keys;
  }

  method Analysis(tab: Table, logs: seq<LogRec>) returns (out: Table)
    ensures out == Analyse(tab, logs)
  {
    var found, top := ScanOutcomes(logs);
    var states := WriteBack(tab.states, found);
    out := Table(if top + 1 > tab.next then top + 1 else tab.next, states);
  }

  /** The last word on `t` is a COMMIT. */
  ghost predicate CommitStands(logs: seq<LogRec>, t: TxId) {
    exists i :: CommitStandsAt(logs, t, i)
  }

  ghost predicate CommitStandsAt(logs: seq<LogRec>, t: TxId, i: nat) {
    && i < |logs| && logs[i].tx == t && logs[i].kind == COMMIT
    && forall j :: i < j < |logs| ==> !Ends(logs[j], t)
  }

  lemma {:induction false} FoldSays(logs: seq<LogRec>, t: TxId)
    ensures t in Fold(logs) <==> exists i :: 0 <= i < |logs| && Mentions(logs[i], t)
    ensures t in Fold(logs) && Fold(logs)[t].Committed? <==> CommitStands(logs, t)
  {
    if logs != [] {
      var n := |logs| - 1;
      var ls, r := logs[..n], logs[n];
      FoldSays(ls, t);
      if Mentions(r, t) { assert Mentions(logs[n], t); }
      forall i | 0 <= i < n && Mentions(ls[i], t) ensures exists j :: 0 <= j < |logs| && Mentions(logs[j], t) {
        assert Mentions(logs[i], t);
      }
      if Ends(r, t) {
        if r.kind == COMMIT { assert CommitStandsAt(logs, t, n); }
      } else {
        StandsSnoc(ls, r, t);
        assert logs == ls + [r];
      }
    }
  }

  lemma StandsSnoc(ls: seq<LogRec>, r: LogRec, t: TxId)
    requires !Ends(r, t)
    ensures CommitStands(ls + [r], t) <==> CommitStands(ls, t)
  {
    if CommitStands(ls, t) {
      var i :| CommitStandsAt(ls, t, i);
      assert CommitStandsAt(ls + [r], t, i);
    }
    if CommitStands(ls + [r], t) {
      var i :| CommitStandsAt(ls + [r], t, i);
      assert forall j :: 0 <= j < |ls| ==> (ls + [r])[j] == ls[j];
      assert CommitStandsAt(ls, t, i);
    }
  }

  /**
   For any log at all: an id is COMMITTED exactly when its last ending is a COMMIT, every other id
   the log mentions is ABORTED, ids not mentioned keep what they had, and the next id is beyond all.
   */
  lemma AnalysisOutcome(tab: Table, logs: seq<LogRec>, t: TxId)
    requires t != INVALID_TX_ID
    ensures var out := Analyse(tab, logs);
      && (forall i :: 0 <= i < |logs| ==> logs[i].tx < out.next) && tab.next <= out.next
      && ((exists i :: 0 <= i < |logs| && Mentions(logs[i], t)) ==>
            t in out.states && out.states[t] == if CommitStands(logs, t) then Committed else Aborted)
      && ((forall i :: 0 <= i < |logs| ==> !Mentions(logs[i], t)) ==>
            (t in out.states <==> t in tab.states) && (t in tab.states ==> out.states[t] == tab.states[t]))
    ensures var out := Analyse(tab, logs);
      && (INVALID_TX_ID in out.states <==> INVALID_TX_ID in tab.states)
      && (INVALID_TX_ID in tab.states ==> out.states[INVALID_TX_ID] == tab.states[INVALID_TX_ID])
  {
    FoldSays(logs, t);
  }

  lemma {:induction false} MaxIsThere(logs: seq<LogRec>)
    ensures MaxTx(logs) == 0 || exists i :: 0 <= i < |logs| && logs[i].tx == MaxTx(logs)
  {
    if logs != [] {
      var l := logs[..|logs| - 1];
      MaxIsThere(l);
      if MaxTx(l) != 0 && MaxTx(logs) == MaxTx(l) {
        var i :| 0 <= i < |l| && l[i].tx == MaxTx(l);
        assert logs[i].tx == MaxTx(logs);
      } else if MaxTx(logs) != 0 {
        assert logs[|logs| - 1].tx == MaxTx(logs);
      }
    }
  }

  /** The next id moves no further than it must: it stays, or is one more than an id in the log. */
  lemma NextIsTight(tab: Table, logs: seq<LogRec>)
    requires tab.next >= 1
    ensures var out := Analyse(tab, logs);
      out.next == tab.next || exists i :: 0 <= i < |logs| && out.next == logs[i].tx + 1
  {
    MaxIsThere(logs);
    if MaxTx(logs) != 0 {
      var i :| 0 <= i < |logs| && logs[i].tx == MaxTx(logs);
      assert logs[i].tx + 1 == MaxTx(logs) + 1;
    }
  }
}
