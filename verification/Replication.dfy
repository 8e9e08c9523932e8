/**
 One service's log stream as the server shows it over time: every record it ever made visible, and
 the point below which retention or a manual clear has removed records.

 Sequence numbers ascend but need not be consecutive: a late record of an earlier run takes a number
 without becoming visible (crates/micromux/src/model.rs:772-838).
 */
module Replication {
  import opened Prelude
  import opened LogBuffer

  datatype Server = Server(history: seq<LogLine>, start: nat)

  ghost predicate ValidServer(s: Server) {
    && s.start <= |s.history|
    && Ascending(s.history)
    && forall i :: 0 <= i < |s.history| ==> 1 <= s.history[i].seqNo
  }

  function Retained(s: Server): seq<LogLine>
    requires s.start <= |s.history|
  {
    s.history[s.start..]
  }

  /** One server step: a new record, a new version of the newest record, or only an eviction. */
  ghost predicate ServerStep(s: Server, t: Server) {
    && ValidServer(s) && ValidServer(t) && s.start <= t.start
    && ( || t.history == s.history
         || (|t.history| == |s.history| + 1 && s.history == t.history[..|s.history|])
         || ( && s.start < |s.history| == |t.history|
              && s.history[..|s.history| - 1] == t.history[..|s.history| - 1]
              && s.history[|s.history| - 1].seqNo == t.history[|s.history| - 1].seqNo ) )
  }

  /** What any number of server steps leaves in place: all numbers, and all but the newest record. */
  ghost predicate Evolves(s: Server, t: Server) {
    && ValidServer(s) && ValidServer(t)
    && s.start <= t.start && |s.history| <= |t.history|
    && (forall i :: 0 <= i < |s.history| ==> s.history[i].seqNo == t.history[i].seqNo)
    && (forall i :: 0 <= i < |s.history| - 1 ==> s.history[i] == t.history[i])
  }

  ghost predicate IsRun(run: seq<Server>) {
    && run != [] && ValidServer(run[0])
    && forall i :: 0 <= i < |run| - 1 ==> ServerStep(run[i], run[i + 1])
  }

  lemma StepEvolves(s: Server, t: Server)
    requires ServerStep(s, t)
    ensures Evolves(s, t)
  {
    var n := |s.history|;
    if |t.history| == n + 1 && s.history == t.history[..n] {
      assert forall i :: 0 <= i < n ==> s.history[i] == t.history[..n][i];
    } else if n > 0 && t.history != s.history {
      var a, b := s.history[..n - 1], t.history[..n - 1];
      assert forall i :: 0 <= i < n - 1 ==> a[i] == b[i];
    }
  }

  lemma {:induction false} RunEvolves(run: seq<Server>)
    requires IsRun(run)
    ensures Evolves(run[0], run[|run| - 1])
  {
    if |run| > 1 {
      var n := |run| - 1;
      assert IsRun(run[..n]);
      RunEvolves(run[..n]);
      assert ServerStep(run[n - 1], run[n - 1 + 1]);
      StepEvolves(run[n - 1], run[n]);
    }
  }

  // ---------------------------------------------------------------- the ring is such a server

  /** Appending to the bounded ring is one server step, whatever the limits evict. */
  lemma RingAppendIsStep(retention: Retention, s: Server, line: LogLine) returns (t: Server)
    requires ValidServer(s)
    requires 1 <= line.seqNo && forall l :: l in s.history ==> l.seqNo < line.seqNo
    ensures ServerStep(s, t) && Retained(t) == Pushed(retention, Retained(s), line)
    ensures t.history == s.history + [Trimmed(retention, line)]
  {
    var history := s.history + [Trimmed(retention, line)];
    var k := LongestFittingCut(retention, Retained(s) + [Trimmed(retention, line)]);
    t := Server(history, s.start + k);
    assert history[s.start..] == Retained(s) + [Trimmed(retention, line)];
    assert Retained(t) == history[s.start..][k..];
    assert s.history == history[..|s.history|];
    assert forall i :: 0 <= i < |s.history| ==> history[i] == s.history[i] && s.history[i] in s.history;
  }

  /** So is replacing the newest retained line, and so is ignoring a replacement that missed it. */
  lemma RingReplaceIsStep(retention: Retention, s: Server, line: LogLine) returns (t: Server)
    requires ValidServer(s)
    ensures ServerStep(s, t) && Retained(t) == LastReplaced(retention, Retained(s), line)
    ensures |t.history| == |s.history|
  {
    var entries, n := Retained(s), |s.history| - 1;
    t := s;
    if entries != [] && entries[|entries| - 1].seqNo == line.seqNo {
      var history := s.history[..n] + [Trimmed(retention, line)];
      var front := entries[..|entries| - 1];
      var k := LongestFittingCut(retention, front + [Trimmed(retention, line)]);
      t := Server(history, s.start + k);
      assert history[s.start..] == front + [Trimmed(retention, line)];
      assert Retained(t) == history[s.start..][k..];
      assert s.history[..n] == history[..n];
      assert entries[|entries| - 1] == s.history[n];
      assert forall i, j :: 0 <= i < j < n ==> Precedes(s.history[i], s.history[j]);
      assert forall i :: 0 <= i < n ==> Precedes(s.history[i], s.history[n]);
    }
  }

  /** A manual clear only moves the start forward. */
  lemma RingClearIsStep(s: Server, nextSeq: nat) returns (t: Server)
    requires ValidServer(s)
    ensures ServerStep(s, t) && Retained(t) == ClearedBefore(Retained(s), nextSeq)
    ensures t.history == s.history
  {
    var k := ClearedBeforeIsSuffix(Retained(s), nextSeq);
    t := s.(start := s.start + k);
  }

  // ---------------------------------------------------------------- runs of the ring

  lemma EvolvesTransitive(s: Server, t: Server, u: Server)
    requires Evolves(s, t) && Evolves(t, u)
    ensures Evolves(s, u)
  {
    hide Ascending;
  }

  ghost predicate HistoryIn(s: Server, numbers: set<nat>) {
    forall i :: 0 <= i < |s.history| ==> s.history[i].seqNo in numbers
  }

  /** Operations within one sequence space: no new limits, and appended numbers go upward. */
  ghost predicate KeepsSpace(numbers: set<nat>, ops: seq<Operation>) {
    forall j :: 0 <= j < |ops| ==>
      && !ops[j].Reconfigure?
      && (ops[j].Append? ==> 1 <= ops[j].line.seqNo && Above(ops[j].line.seqNo, numbers + AppendedNumbers(ops[..j])))
  }

  ghost predicate Above(n: nat, numbers: set<nat>) {
    forall m :: m in numbers ==> m < n
  }

  /** Appends, replacements and clears in any number, as one evolution of the server. */
  lemma {:induction false} RingRunEvolves(ring: Ring, s: Server, numbers: set<nat>, ops: seq<Operation>)
    returns (t: Server)
    requires ValidServer(s) && Retained(s) == ring.entries && HistoryIn(s, numbers) && KeepsSpace(numbers, ops)
    ensures ApplyAll(ring, ops).retention == ring.retention
    ensures Evolves(s, t) && Retained(t) == ApplyAll(ring, ops).entries
    ensures HistoryIn(t, numbers + AppendedNumbers(ops))
  {
    if ops == [] {
      t := s;
      assert Evolves(s, t);
    } else {
      var n := |ops| - 1;
      KeepsSpaceFront(numbers, ops);
      var u := RingRunEvolves(ring, s, numbers, ops[..n]);
      assert KeepsSpace(numbers, ops) && 0 <= n < |ops|;
      AppendedGrows(ops);
      var known := numbers + AppendedNumbers(ops[..n]);
      hide Evolves, ValidServer, KeepsSpace, AppendedNumbers;
      t := OperationEvolves(ApplyAll(ring, ops[..n]), u, known, ops[n]);
      EvolvesTransitive(s, u, t);
      HistoryInMore(t, known + Appended(ops[n]), numbers + AppendedNumbers(ops));
    }
  }

  ghost function Appended(op: Operation): set<nat> {
    if op.Append? then {op.line.seqNo} else {}
  }

  lemma HistoryInMore(s: Server, a: set<nat>, b: set<nat>)
    requires HistoryIn(s, a) && a <= b
    ensures HistoryIn(s, b)
  {
  }

  lemma KeepsSpaceFront(numbers: set<nat>, ops: seq<Operation>)
    requires KeepsSpace(numbers, ops) && ops != []
    ensures KeepsSpace(numbers, ops[..|ops| - 1])
  {
    var front := ops[..|ops| - 1];
    forall j | 0 <= j < |front| ensures front[..j] == ops[..j] {
    }
  }

  lemma AppendedGrows(ops: seq<Operation>)
    requires ops != []
    ensures AppendedNumbers(ops[..|ops| - 1]) + Appended(ops[|ops| - 1]) <= AppendedNumbers(ops)
  {
    var n := |ops| - 1;
    forall m | m in AppendedNumbers(ops[..n]) ensures m in AppendedNumbers(ops) {
      var j :| 0 <= j < n && ops[..n][j].Append? && ops[..n][j].line.seqNo == m;
      assert ops[j].Append? && ops[j].line.seqNo == m;
    }
  }

  lemma OperationEvolves(ring: Ring, s: Server, numbers: set<nat>, op: Operation) returns (t: Server)
    requires ValidServer(s) && Retained(s) == ring.entries && HistoryIn(s, numbers) && !op.Reconfigure?
    requires op.Append? ==> 1 <= op.line.seqNo && Above(op.line.seqNo, numbers)
    ensures Evolves(s, t) && ValidServer(t) && Retained(t) == Apply(ring, op).entries
    ensures Apply(ring, op).retention == ring.retention && HistoryIn(t, numbers + Appended(op))
  {
    hide Ascending, Retained, Pushed, LastReplaced, ClearedBefore, Trimmed;
    match op {
      case Append(line) =>
        forall l | l in s.history ensures l.seqNo < line.seqNo {
          var i :| 0 <= i < |s.history| && s.history[i] == l;
        }
        t := RingAppendIsStep(ring.retention, s, line);
        TrimmedNumber(ring.retention, line);
      case ReplaceLast(line) =>
        t := RingReplaceIsStep(ring.retention, s, line);
      case ClearBefore(nextSeq) =>
        t := RingClearIsStep(s, nextSeq);
      case Reconfigure(_) =>
    }
    StepEvolves(s, t);
    StepNumbers(s, t, numbers, op);
  }

  lemma TrimmedNumber(retention: Retention, line: LogLine)
    ensures Trimmed(retention, line).seqNo == line.seqNo
  {
  }

  lemma StepNumbers(s: Server, t: Server, numbers: set<nat>, op: Operation)
    requires Evolves(s, t) && HistoryIn(s, numbers)
    requires |t.history| == |s.history| + (if op.Append? then 1 else 0)
    requires op.Append? ==> t.history[|s.history|].seqNo == op.line.seqNo
    ensures HistoryIn(t, numbers + Appended(op))
  {
    hide Ascending;
    forall i | 0 <= i < |t.history| ensures t.history[i].seqNo in numbers + Appended(op) {
      if i < |s.history| {
        assert t.history[i].seqNo == s.history[i].seqNo;
      }
    }
  }
}
