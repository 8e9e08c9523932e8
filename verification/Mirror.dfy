/**
 The attach client's copy of one service's log (crates/micromux-tui/src/remote.rs, `MirrorEntry`).

 `refresh_logs` asks the server for pages after a cursor, refetches the newest record it already
 has (its text may have been replaced), starts over from the server's tail when retention has
 removed records it never saw, and keeps at most `REMOTE_LOG_TAIL` lines.
 */
module Mirror {
  import opened Prelude
  import opened LogBuffer
  import opened Replication

  const REMOTE_LOG_TAIL: nat := 200

  datatype MirrorLog = MirrorLog(logs: seq<LogLine>, nextLogSeq: nat, firstRetained: Option<nat>)

  const EMPTY_MIRROR := MirrorLog([], 0, None)

  // ---------------------------------------------------------------- one page

  function LineAppended(logs: seq<LogLine>, next: nat, line: LogLine): (seq<LogLine>, nat) {
    var logs' :=
      if logs != [] && logs[|logs| - 1].seqNo == line.seqNo then logs[..|logs| - 1] + [line]
      else if line.seqNo > next then logs + [line]
      else logs;
    (logs', if logs' == [] then next else Max(next, logs'[|logs'| - 1].seqNo))
  }

  function LinesAppended(logs: seq<LogLine>, next: nat, lines: seq<LogLine>): (seq<LogLine>, nat) {
    if lines == [] then (logs, next)
    else
      var before := LinesAppended(logs, next, lines[..|lines| - 1]);
      LineAppended(before.0, before.1, lines[|lines| - 1])
  }

  lemma LinesAppendedNone(logs: seq<LogLine>, next: nat)
    ensures LinesAppended(logs, next, []) == (logs, next)
  {
  }

  lemma LinesAppendedStep(logs: seq<LogLine>, next: nat, before: seq<LogLine>, line: LogLine)
    ensures LinesAppended(logs, next, before + [line])
         == (var b := LinesAppended(logs, next, before); LineAppended(b.0, b.1, line))
  {
    assert (before + [line])[..|before|] == before;
  }

  function PageAppended(m: MirrorLog, lines: seq<LogLine>): MirrorLog {
    var appended := LinesAppended(m.logs, m.nextLogSeq, lines);
    var logs := LinesTail(appended.0, Some(REMOTE_LOG_TAIL));
    MirrorLog(logs, appended.1, FirstRetained(logs))
  }

  function TailReplaced(lines: seq<LogLine>): MirrorLog {
    PageAppended(EMPTY_MIRROR, lines)
  }

  lemma {:induction false} LinesAppendedFrom(logs: seq<LogLine>, next: nat, lines: seq<LogLine>)
    ensures var (logs', next') := LinesAppended(logs, next, lines);
      && next <= next'
      && (forall l :: l in logs' ==> l in logs || l in lines)
  {
    if lines != [] {
      var n := |lines| - 1;
      LinesAppendedFrom(logs, next, lines[..n]);
      var before := LinesAppended(logs, next, lines[..n]);
      LineAppendedFrom(before.0, before.1, lines[n]);
      hide LineAppended;
      assert forall l :: l in lines[..n] ==> l in lines;
    }
  }

  lemma LineAppendedFrom(logs: seq<LogLine>, next: nat, line: LogLine)
    ensures var (logs', next') := LineAppended(logs, next, line);
      && next <= next' && (forall l :: l in logs' ==> l in logs || l == line)
  {
  }

  /** A page adds nothing but its own lines, and never moves the cursor back. */
  lemma PageAppendedFrom(m: MirrorLog, lines: seq<LogLine>)
    ensures var r := PageAppended(m, lines);
      && m.nextLogSeq <= r.nextLogSeq
      && (forall l :: l in r.logs ==> l in m.logs || l in lines)
  {
    LinesAppendedFrom(m.logs, m.nextLogSeq, lines);
    hide LinesAppended;
    var appended := LinesAppended(m.logs, m.nextLogSeq, lines).0;
    assert forall l :: l in LinesTail(appended, Some(REMOTE_LOG_TAIL)) ==> l in appended;
  }

  lemma NewerLineAppended(logs: seq<LogLine>, next: nat, line: LogLine)
    requires (logs != [] ==> logs[|logs| - 1].seqNo <= next) && next < line.seqNo
    ensures LineAppended(logs, next, line) == (logs + [line], line.seqNo)
  {
  }

  /** Records that are all newer than the cursor are all pushed. */
  lemma NewerLinesAllAppended(logs: seq<LogLine>, next: nat, lines: seq<LogLine>)
    requires Ascending(lines) && forall l :: l in lines ==> next < l.seqNo
    requires logs != [] ==> logs[|logs| - 1].seqNo <= next
    ensures LinesAppended(logs, next, lines)
         == (logs + lines, if lines == [] then next else lines[|lines| - 1].seqNo)
  {
    forall i | 0 <= i < |lines| ensures next < lines[i].seqNo {
      assert lines[i] in lines;
    }
    NewerPrefixAppended(logs, next, lines, |lines|);
    assert lines[..|lines|] == lines;
  }

  lemma {:induction false} NewerPrefixAppended(logs: seq<LogLine>, next: nat, lines: seq<LogLine>, k: nat)
    requires Ascending(lines) && k <= |lines| && forall i :: 0 <= i < |lines| ==> next < lines[i].seqNo
    requires logs != [] ==> logs[|logs| - 1].seqNo <= next
    ensures LinesAppended(logs, next, lines[..k])
         == (logs + lines[..k], if k == 0 then next else lines[k - 1].seqNo)
  {
    if k == 0 {
      assert logs + lines[..0] == logs;
    } else {
      AscendingAt(lines, SaturatingSub(k - 1, 1), k - 1);
      LinesAppendedStep(logs, next, lines[..k - 1], lines[k - 1]);
      hide Ascending, LineAppended, LinesAppended;
      NewerPrefixAppended(logs, next, lines, k - 1);
      PrefixGrows(lines, k - 1);
      NewerLineAppended(logs + lines[..k - 1], if k == 1 then next else lines[k - 2].seqNo, lines[k - 1]);
      ConcatAssociative(logs, lines[..k - 1], [lines[k - 1]]);
    }
  }

  lemma {:induction false} LinesAppendedConcat(logs: seq<LogLine>, next: nat, a: seq<LogLine>, b: seq<LogLine>)
    ensures LinesAppended(logs, next, a + b)
         == (var between := LinesAppended(logs, next, a); LinesAppended(between.0, between.1, b))
    decreases |b|
  {
    hide LineAppended;
    if b == [] {
      assert a + b == a;
    } else {
      var n := |b| - 1;
      assert a + b == (a + b[..n]) + [b[n]] && b == b[..n] + [b[n]];
      LinesAppendedConcat(logs, next, a, b[..n]);
      var between := LinesAppended(logs, next, a);
      LinesAppendedStep(logs, next, a + b[..n], b[n]);
      LinesAppendedStep(between.0, between.1, b[..n], b[n]);
    }
  }

  lemma OlderLineIgnored(logs: seq<LogLine>, next: nat, line: LogLine)
    requires (logs != [] ==> logs[|logs| - 1].seqNo == next) && line.seqNo < next
    ensures LineAppended(logs, next, line) == (logs, next)
  {
  }

  lemma {:induction false} OlderLinesIgnored(logs: seq<LogLine>, next: nat, older: seq<LogLine>)
    requires logs != [] ==> logs[|logs| - 1].seqNo == next
    requires forall i :: 0 <= i < |older| ==> older[i].seqNo < next
    ensures LinesAppended(logs, next, older) == (logs, next)
  {
    hide LineAppended;
    if older != [] {
      var n := |older| - 1;
      OlderLinesIgnored(logs, next, older[..n]);
      OlderLineIgnored(logs, next, older[n]);
    }
  }

  lemma FirstLineAppended(logs: seq<LogLine>, next: nat, line: LogLine, front: seq<LogLine>)
    requires logs != [] ==> logs[|logs| - 1].seqNo == next
    requires next <= line.seqNo && (logs == [] ==> next < line.seqNo)
    requires front == if logs != [] && line.seqNo == next then logs[..|logs| - 1] else logs
    ensures LineAppended(logs, next, line) == (front + [line], line.seqNo)
  {
  }

  lemma {:induction false} LaterLinesAppended(logs: seq<LogLine>, next: nat, lines: seq<LogLine>, front: seq<LogLine>)
    requires logs != [] ==> logs[|logs| - 1].seqNo == next
    requires Ascending(lines) && lines != [] && next <= lines[0].seqNo && (logs == [] ==> next < lines[0].seqNo)
    requires front == if logs != [] && lines[0].seqNo == next then logs[..|logs| - 1] else logs
    ensures LinesAppended(logs, next, lines) == (front + lines, lines[|lines| - 1].seqNo)
  {
    var first, rest := lines[0], lines[1..];
    hide *;
    FirstLineAppended(logs, next, first, front);
    OneThenRest(lines);
    LinesAppendedConcat(logs, next, [first], rest);
    LinesAppendedStep(logs, next, [], first);
    LinesAppendedNone(logs, next);
    NewerPrefixAppended(front + [first], first.seqNo, rest, |rest|);
    assert rest[..|rest|] == rest;
    ConcatAssociative(front, [first], rest);
  }

  lemma OneThenRest(lines: seq<LogLine>)
    requires Ascending(lines) && lines != []
    ensures lines == [lines[0]] + lines[1..] && [] + [lines[0]] == [lines[0]]
    ensures Ascending(lines[1..]) && forall i :: 0 <= i < |lines| - 1 ==> lines[0].seqNo < lines[1..][i].seqNo
  {
    AscendingSuffix(lines, 1);
    hide Ascending;
    forall i | 0 <= i < |lines| - 1 ensures lines[0].seqNo < lines[1..][i].seqNo {
      AscendingAt(lines, 0, i + 1);
    }
  }

  /**
   What a page does, whatever older lines come with it: they are ignored, the newest line is replaced where
   the page has its number, all others follow, and the last two hundred are kept.
   */
  lemma PageAppendedMeans(m: MirrorLog, older: seq<LogLine>, lines: seq<LogLine>)
    requires m.logs != [] ==> m.logs[|m.logs| - 1].seqNo == m.nextLogSeq
    requires forall i :: 0 <= i < |older| ==> older[i].seqNo < m.nextLogSeq
    requires Ascending(lines) && lines != [] && m.nextLogSeq <= lines[0].seqNo
    requires m.logs == [] ==> m.nextLogSeq < lines[0].seqNo
    ensures var again := m.logs != [] && lines[0].seqNo == m.nextLogSeq;
      var all := (if again then m.logs[..|m.logs| - 1] else m.logs) + lines;
      var kept := if |all| > 200 then all[|all| - 200..] else all;
      PageAppended(m, older + lines) == MirrorLog(kept, lines[|lines| - 1].seqNo, Some(kept[0].seqNo))
  {
    hide Ascending, LinesAppended;
    var again := m.logs != [] && lines[0].seqNo == m.nextLogSeq;
    OlderLinesIgnored(m.logs, m.nextLogSeq, older);
    LinesAppendedConcat(m.logs, m.nextLogSeq, older, lines);
    LaterLinesAppended(m.logs, m.nextLogSeq, lines, if again then m.logs[..|m.logs| - 1] else m.logs);
  }

  // ---------------------------------------------------------------- agreement with the server

  /** The numbers in `logs` are those of the consecutive records `lo..hi` of the server's history. */
  ghost predicate Holds(logs: seq<LogLine>, next: nat, history: seq<LogLine>, lo: nat, hi: nat) {
    && lo <= hi <= |history| && |logs| == hi - lo
    && (forall i :: 0 <= i < |logs| ==> logs[i].seqNo == history[lo + i].seqNo)
    && next == (if lo == hi then 0 else history[hi - 1].seqNo)
  }

  /** Where the server still retains a record of number outside `stale`, the copy is identical. */
  ghost predicate Agrees(logs: seq<LogLine>, s: Server, lo: nat, stale: set<nat>) {
    forall i :: 0 <= i < |logs| && s.start <= lo + i < |s.history| && logs[i].seqNo !in stale ==>
      logs[i] == s.history[lo + i]
  }

  ghost predicate Bounded(m: MirrorLog) {
    |m.logs| <= REMOTE_LOG_TAIL && m.firstRetained == FirstRetained(m.logs)
  }

  /**
   The invariant between refreshes: only the newest copied record may be out of date, and those in
   `old`, which earlier refreshes left behind.
   */
  ghost predicate MirroredExcept(m: MirrorLog, s: Server, behind: set<nat>) {
    && ValidServer(s) && Bounded(m)
    && exists lo: nat, hi: nat ::
         Holds(m.logs, m.nextLogSeq, s.history, lo, hi) && Agrees(m.logs, s, lo, behind + {m.nextLogSeq})
  }

  ghost predicate Mirrored(m: MirrorLog, s: Server) {
    MirroredExcept(m, s, {})
  }

  /** What a refresh is for. `stale` names the records that it did not bring up to date. */
  ghost predicate CaughtUpExcept(m: MirrorLog, s: Server, stale: set<nat>) {
    && ValidServer(s) && Bounded(m)
    && exists lo: nat, hi: nat ::
         && Holds(m.logs, m.nextLogSeq, s.history, lo, hi)
         && Agrees(m.logs, s, lo, stale)
         && (Retained(s) != [] ==> lo < hi == |s.history|)
  }

  /** What a refresh keeps at any rate: consecutive records, right but for those in `stale`. */
  ghost predicate KeptExcept(m: MirrorLog, s: Server, stale: set<nat>) {
    && ValidServer(s) && Bounded(m)
    && exists lo: nat, hi: nat :: Holds(m.logs, m.nextLogSeq, s.history, lo, hi) && Agrees(m.logs, s, lo, stale)
  }

  ghost predicate CaughtUp(m: MirrorLog, s: Server) {
    CaughtUpExcept(m, s, {})
  }

  /** `CaughtUp`, read off the two copies without the positions `lo` and `hi`. */
  lemma CaughtUpMeans(m: MirrorLog, s: Server)
    requires CaughtUp(m, s)
    ensures |m.logs| <= 200 && Ascending(m.logs)
    ensures Retained(s) != [] ==> m.logs != [] && m.logs[|m.logs| - 1] == s.history[|s.history| - 1]
    ensures forall l, r :: l in m.logs && r in Retained(s) && l.seqNo == r.seqNo ==> l == r
  {
    var lo: nat, hi: nat :|
      && Holds(m.logs, m.nextLogSeq, s.history, lo, hi)
      && Agrees(m.logs, s, lo, {})
      && (Retained(s) != [] ==> lo < hi == |s.history|);
    HoldsAscending(m.logs, m.nextLogSeq, s.history, lo, hi);
    forall l, r | l in m.logs && r in Retained(s) && l.seqNo == r.seqNo ensures l == r {
      SameNumberSameRecord(m, s, lo, hi, l, r);
    }
  }

  lemma SameNumberSameRecord(m: MirrorLog, s: Server, lo: nat, hi: nat, l: LogLine, r: LogLine)
    requires ValidServer(s) && Holds(m.logs, m.nextLogSeq, s.history, lo, hi) && Agrees(m.logs, s, lo, {})
    requires l in m.logs && r in Retained(s) && l.seqNo == r.seqNo
    ensures l == r
  {
    var i :| 0 <= i < |m.logs| && m.logs[i] == l;
    var j :| 0 <= j < |Retained(s)| && Retained(s)[j] == r;
    hide Ascending;
    SameNumberSamePlace(s.history, lo + i, s.start + j);
  }

  lemma CaughtUpValid(m: MirrorLog, s: Server)
    requires CaughtUp(m, s)
    ensures ValidServer(s) && s.start <= |s.history|
  {
  }

  lemma HoldsAscending(logs: seq<LogLine>, next: nat, history: seq<LogLine>, lo: nat, hi: nat)
    requires Ascending(history) && Holds(logs, next, history, lo, hi)
    ensures Ascending(logs)
  {
    forall i, j | 0 <= i < j < |logs| ensures Precedes(logs[i], logs[j]) {
      AscendingAt(history, lo + i, lo + j);
    }
  }

  lemma SameNumberSamePlace(history: seq<LogLine>, i: nat, j: nat)
    requires Ascending(history) && i < |history| && j < |history|
    requires history[i].seqNo == history[j].seqNo
    ensures i == j
  {
    AscendingAt(history, Min(i, j), Max(i, j));
  }

  /** No visible record between two mirrored ones is missing from the mirror. */
  lemma CaughtUpGapFree(m: MirrorLog, s: Server, i: nat, r: LogLine)
    requires CaughtUp(m, s) && r in s.history
    requires i < |m.logs| && m.logs[i].seqNo <= r.seqNo <= m.logs[|m.logs| - 1].seqNo
    ensures exists k :: i <= k < |m.logs| && m.logs[k].seqNo == r.seqNo
  {
    var lo: nat, hi: nat :| Holds(m.logs, m.nextLogSeq, s.history, lo, hi);
    var j :| 0 <= j < |s.history| && s.history[j] == r;
    assert m.logs[i].seqNo == s.history[lo + i].seqNo;
    assert m.logs[|m.logs| - 1].seqNo == s.history[hi - 1].seqNo;
    if j < lo + i {
      AscendingAt(s.history, j, lo + i);
    }
    if hi <= j {
      AscendingAt(s.history, hi - 1, j);
    }
    assert m.logs[j - lo].seqNo == r.seqNo;
  }

  /** Being caught up is one way to satisfy the invariant between refreshes. */
  lemma CaughtUpIsMirrored(m: MirrorLog, s: Server)
    requires CaughtUp(m, s)
    ensures Mirrored(m, s)
  {
    var lo: nat, hi: nat :| Holds(m.logs, m.nextLogSeq, s.history, lo, hi) && Agrees(m.logs, s, lo, {});
    MirroredAt(m, s, lo, hi);
  }

  /** No server step can break the invariant: only the newest copied record can have changed. */
  lemma MirroredEvolves(m: MirrorLog, s: Server, t: Server, behind: set<nat>)
    requires MirroredExcept(m, s, behind) && Evolves(s, t)
    ensures MirroredExcept(m, t, behind)
  {
    var lo: nat, hi: nat :|
      Holds(m.logs, m.nextLogSeq, s.history, lo, hi) && Agrees(m.logs, s, lo, behind + {m.nextLogSeq});
    hide Ascending;
    assert Holds(m.logs, m.nextLogSeq, t.history, lo, hi);
    assert Agrees(m.logs, t, lo, behind + {m.nextLogSeq});
  }

  lemma EmptyIsMirrored(s: Server)
    requires ValidServer(s)
    ensures Mirrored(EMPTY_MIRROR, s)
  {
    assert Holds([], 0, s.history, 0, 0);
  }

  /** From one refresh to the next: whatever the server did in between, the next one may start. */
  lemma MirroredBetweenRefreshes(m: MirrorLog, run: seq<Server>)
    requires IsRun(run) && (m == EMPTY_MIRROR || CaughtUp(m, run[0]))
    ensures Mirrored(m, run[|run| - 1])
  {
    hide MirroredExcept, CaughtUpExcept, Evolves;
    if m == EMPTY_MIRROR {
      EmptyIsMirrored(run[0]);
    } else {
      CaughtUpIsMirrored(m, run[0]);
    }
    RunEvolves(run);
    MirroredEvolves(m, run[0], run[|run| - 1], {});
  }

  // ---------------------------------------------------------------- pages against the history

  ghost function Numbers(s: Server, p: nat, q: nat): set<nat>
    requires q <= |s.history|
  {
    set i | p <= i < q :: s.history[i].seqNo
  }

  /** One record: the newest copied one again, or the one after it, or any into an empty copy. */
  lemma LineAppendedHolds(logs: seq<LogLine>, next: nat, s: Server, lo: nat, hi: nat, q: nat)
    requires ValidServer(s) && Holds(logs, next, s.history, lo, hi)
    requires q < |s.history| && (lo < hi ==> q <= hi <= q + 1)
    ensures var (logs', next') := LineAppended(logs, next, s.history[q]);
      Holds(logs', next', s.history, if lo == hi then q else lo, q + 1)
  {
    var line := s.history[q];
    var (logs', next') := LineAppended(logs, next, line);
    if lo == hi {
      assert logs' == [line];
    } else if q == hi {
      AscendingAt(s.history, hi - 1, hi);
      assert logs[|logs| - 1].seqNo == s.history[hi - 1].seqNo;
      assert logs' == logs + [line];
    } else {
      assert logs[|logs| - 1].seqNo == s.history[hi - 1].seqNo;
      assert logs' == logs[..|logs| - 1] + [line];
    }
  }

  lemma LineAppendedAgrees(logs: seq<LogLine>, next: nat, s: Server, lo: nat, hi: nat, q: nat, stale: set<nat>)
    requires ValidServer(s) && Holds(logs, next, s.history, lo, hi) && Agrees(logs, s, lo, stale)
    requires q < |s.history| && (lo < hi ==> q <= hi <= q + 1)
    ensures Agrees(LineAppended(logs, next, s.history[q]).0, s, if lo == hi then q else lo,
                   stale - {s.history[q].seqNo})
  {
    var line := s.history[q];
    var logs' := LineAppended(logs, next, line).0;
    if lo < hi {
      assert logs[|logs| - 1].seqNo == s.history[hi - 1].seqNo;
      forall i | 0 <= i < |logs'| && s.start <= lo + i && logs'[i].seqNo !in stale - {line.seqNo}
        ensures logs'[i] == s.history[lo + i]
      {
        if lo + i < q {
          assert Precedes(s.history[lo + i], line);
          assert logs'[i] == logs[i];
        }
      }
    }
  }

  lemma NumbersNone(s: Server, p: nat, stale: set<nat>)
    requires p <= |s.history|
    ensures stale - Numbers(s, p, p) == stale
  {
  }

  lemma NumbersOneMore(s: Server, p: nat, q: nat, stale: set<nat>)
    requires p <= q < |s.history|
    ensures stale - Numbers(s, p, q + 1) == stale - Numbers(s, p, q) - {s.history[q].seqNo}
    ensures stale - Numbers(s, p, p) == stale
  {
    NumbersNone(s, p, stale);
    assert Numbers(s, p, q + 1) == Numbers(s, p, q) + {s.history[q].seqNo};
  }

  /** Appending records `p..q` of a history. */
  function RangeAppended(logs: seq<LogLine>, next: nat, history: seq<LogLine>, p: nat, q: nat): (seq<LogLine>, nat)
    requires p <= q <= |history|
  {
    LinesAppended(logs, next, history[p..q])
  }

  lemma RangeAppendedStep(logs: seq<LogLine>, next: nat, history: seq<LogLine>, p: nat, q: nat)
    requires p <= q < |history|
    ensures RangeAppended(logs, next, history, p, p) == (logs, next)
    ensures RangeAppended(logs, next, history, p, q + 1)
         == (var b := RangeAppended(logs, next, history, p, q); LineAppended(b.0, b.1, history[q]))
  {
    LinesAppendedStep(logs, next, history[p..q], history[q]);
    LinesAppendedNone(logs, next);
    SliceGrows(history, p, q);
    assert history[p..p] == [];
  }

  /** Consecutive records `p..q`. */
  lemma {:induction false} RangeAppendedHolds(
      logs: seq<LogLine>, next: nat, s: Server, lo: nat, hi: nat, p: nat, q: nat)
    requires ValidServer(s) && Holds(logs, next, s.history, lo, hi)
    requires p < q <= |s.history| && (lo < hi ==> p <= hi <= p + 1)
    ensures var (logs', next') := RangeAppended(logs, next, s.history, p, q);
      Holds(logs', next', s.history, if lo == hi then p else lo, q)
    decreases q - p
  {
    hide LineAppended, Holds, ValidServer, RangeAppended;
    RangeAppendedStep(logs, next, s.history, p, q - 1);
    if p + 1 == q {
      LineAppendedHolds(logs, next, s, lo, hi, p);
    } else {
      RangeAppendedHolds(logs, next, s, lo, hi, p, q - 1);
      var before := RangeAppended(logs, next, s.history, p, q - 1);
      LineAppendedHolds(before.0, before.1, s, if lo == hi then p else lo, q - 1, q - 1);
    }
  }

  lemma {:induction false} RangeAppendedAgrees(
      logs: seq<LogLine>, next: nat, s: Server, lo: nat, hi: nat, p: nat, q: nat, stale: set<nat>)
    requires ValidServer(s) && Holds(logs, next, s.history, lo, hi) && Agrees(logs, s, lo, stale)
    requires p < q <= |s.history| && (lo < hi ==> p <= hi <= p + 1)
    ensures Agrees(RangeAppended(logs, next, s.history, p, q).0, s, if lo == hi then p else lo,
                   stale - Numbers(s, p, q))
    decreases q - p
  {
    hide LineAppended, Holds, Agrees, ValidServer, RangeAppended;
    RangeAppendedStep(logs, next, s.history, p, q - 1);
    NumbersOneMore(s, p, q - 1, stale);
    if p + 1 == q {
      LineAppendedAgrees(logs, next, s, lo, hi, p, stale);
    } else {
      RangeAppendedAgrees(logs, next, s, lo, hi, p, q - 1, stale);
      RangeAppendedHolds(logs, next, s, lo, hi, p, q - 1);
      var before := RangeAppended(logs, next, s.history, p, q - 1);
      LineAppendedAgrees(
        before.0, before.1, s, if lo == hi then p else lo, q - 1, q - 1, stale - Numbers(s, p, q - 1));
    }
  }

  /** Forgetting the oldest copied records. */
  lemma FrontDropped(logs: seq<LogLine>, next: nat, s: Server, lo: nat, hi: nat, cut: nat, stale: set<nat>)
    requires Holds(logs, next, s.history, lo, hi) && Agrees(logs, s, lo, stale)
    requires cut < |logs| || cut == 0
    ensures Holds(logs[cut..], next, s.history, lo + cut, hi) && Agrees(logs[cut..], s, lo + cut, stale)
  {
  }

  lemma PageAppendedIsRange(m: MirrorLog, history: seq<LogLine>, p: nat, q: nat)
    requires p <= q <= |history|
    ensures var (logs, next) := RangeAppended(m.logs, m.nextLogSeq, history, p, q);
      var kept := logs[SaturatingSub(|logs|, REMOTE_LOG_TAIL)..];
      PageAppended(m, history[p..q]) == MirrorLog(kept, next, FirstRetained(kept))
    ensures p == q ==> RangeAppended(m.logs, m.nextLogSeq, history, p, q) == (m.logs, m.nextLogSeq)
  {
    if p == q {
      assert history[p..q] == [];
      LinesAppendedNone(m.logs, m.nextLogSeq);
    }
  }

  /** A whole page: the oldest lines beyond the limit go, the rest is as before. */
  lemma PageAppendedHolds(m: MirrorLog, s: Server, lo: nat, hi: nat, p: nat, q: nat, stale: set<nat>)
    returns (lo': nat, hi': nat)
    requires ValidServer(s) && Holds(m.logs, m.nextLogSeq, s.history, lo, hi)
    requires p <= q <= |s.history| && (lo < hi ==> p <= hi <= p + 1)
    requires Agrees(m.logs, s, lo, stale)
    ensures hi' == if p < q then q else hi
    ensures p < q || lo < hi ==> lo' < hi'
    ensures var r := PageAppended(m, s.history[p..q]);
      && Bounded(r) && Holds(r.logs, r.nextLogSeq, s.history, lo', hi')
      && Agrees(r.logs, s, lo', stale - Numbers(s, p, q))
  {
    hide Agrees, ValidServer, PageAppended, RangeAppended;
    PageAppendedIsRange(m, s.history, p, q);
    var (logs, next) := RangeAppended(m.logs, m.nextLogSeq, s.history, p, q);
    var cut := SaturatingSub(|logs|, REMOTE_LOG_TAIL);
    var mid := lo;
    hi' := hi;
    if p < q {
      RangeAppendedHolds(m.logs, m.nextLogSeq, s, lo, hi, p, q);
      RangeAppendedAgrees(m.logs, m.nextLogSeq, s, lo, hi, p, q, stale);
      mid, hi' := if lo == hi then p else lo, q;
    } else {
      NumbersNone(s, p, stale);
    }
    FrontDropped(logs, next, s, mid, hi', cut, stale - Numbers(s, p, q));
    lo' := mid + cut;
  }

  /** Starting over from the server's tail. */
  lemma TailReplacedHolds(s: Server, k: nat)
    requires ValidServer(s) && s.start <= k <= |s.history|
    requires Retained(s) != [] ==> k < |s.history|
    ensures CaughtUp(TailReplaced(s.history[k..]), s)
  {
    var n := |s.history|;
    assert Holds([], 0, s.history, k, k);
    assert s.history[k..n] == s.history[k..];
    var lo', hi' := PageAppendedHolds(EMPTY_MIRROR, s, k, k, k, n, {});
  }

  // ---------------------------------------------------------------- requests

  /** Where the records after a cursor start. */
  function SinceFrom(s: Server, after: nat, k: nat): (p: nat)
    requires k <= |s.history|
    ensures k <= p <= |s.history|
    ensures forall i :: k <= i < p ==> s.history[i].seqNo <= after
    ensures p < |s.history| ==> after < s.history[p].seqNo
    decreases |s.history| - k
  {
    if k == |s.history| || s.history[k].seqNo > after then k else SinceFrom(s, after, k + 1)
  }

  datatype LogPage = LogPage(lines: seq<LogLine>, truncated: bool, firstRetained: Option<nat>)

  /**
   The contract of a `FollowLogs` answer. After a cursor it is a prefix of the retained records
   beyond it, which may be empty; without one it is the newest tail. `truncated` says records are
   missing.
   */
  ghost predicate IsLogPage(page: LogPage, s: Server, after: Option<nat>)
    requires ValidServer(s)
  {
    && page.firstRetained == FirstRetained(Retained(s))
    && match after
       case Some(cursor) =>
         var since := s.history[SinceFrom(s, cursor, s.start)..];
         page.lines <= since && (page.truncated <==> page.lines != since)
       case None =>
         && |page.lines| <= |Retained(s)|
         && page.lines == s.history[|s.history| - |page.lines|..]
         && (Retained(s) != [] ==> page.lines != [])
         && (page.truncated <==> page.lines != Retained(s))
  }

  /** One request. Which page the size limits select is left open. */
  method RequestLogPage(s: Server, after: Option<nat>) returns (page: LogPage)
    requires ValidServer(s)
    ensures IsLogPage(page, s, after)
  {
    var first := FirstRetained(Retained(s));
    match after {
      case Some(cursor) =>
        var since := s.history[SinceFrom(s, cursor, s.start)..];
        var n: nat :| n <= |since|;
        page := LogPage(since[..n], n < |since|, first);
      case None =>
        var retained := Retained(s);
        var n: nat :| n <= |retained| && (retained != [] ==> n > 0);
        page := LogPage(retained[|retained| - n..], n < |retained|, first);
    }
  }

  /** `page` is records `p..` of the history and continues a copy of `lo..hi` without a gap. */
  ghost predicate IsPageAt(page: LogPage, s: Server, lo: nat, hi: nat, p: nat)
    requires ValidServer(s)
  {
    var q := p + |page.lines|;
    && q <= |s.history| && page.lines == s.history[p..q]
    && (lo < hi ==> p <= hi <= p + 1)
    && (!page.truncated && Retained(s) != [] ==> q == |s.history| && (lo == hi ==> p < q))
    && (page.truncated ==> s.start <= (if p < q then q else hi) && (p < q || lo < hi))
    && (page.truncated && p < q && lo < hi ==> q < |s.history|)
  }

  lemma AgreesWeaken(logs: seq<LogLine>, s: Server, lo: nat, a: set<nat>, b: set<nat>)
    requires Agrees(logs, s, lo, a) && a <= b
    ensures Agrees(logs, s, lo, b)
  {
  }

  /** A first answer to a client with nothing: the server's tail, wherever it starts. */
  lemma {:induction false} TailPageStart(s: Server, lo: nat, page: LogPage) returns (p: nat)
    requires ValidServer(s) && lo <= |s.history| && IsLogPage(page, s, None)
    ensures IsPageAt(page, s, lo, lo, p)
    ensures page.lines == [] ==> !page.truncated
  {
    p := |s.history| - |page.lines|;
    assert page.lines == s.history[p..][..|page.lines|];
  }

  /** Where an answer after a cursor lies in the history. */
  lemma PagePosition(s: Server, cursor: nat, page: LogPage) returns (p: nat)
    requires ValidServer(s) && IsLogPage(page, s, Some(cursor))
    ensures p == SinceFrom(s, cursor, s.start) && p + |page.lines| <= |s.history|
    ensures page.lines == s.history[p..p + |page.lines|]
    ensures page.truncated <==> p + |page.lines| < |s.history|
    ensures page.firstRetained.Some? <==> s.start < |s.history|
    ensures s.start < |s.history| ==> page.firstRetained.value == s.history[s.start].seqNo
  {
    p := SinceFrom(s, cursor, s.start);
    assert page.lines == s.history[p..][..|page.lines|];
  }

  /** A first answer that includes the newest copied record. */
  lemma RefetchPageStart(s: Server, lo: nat, hi: nat, page: LogPage) returns (p: nat)
    requires ValidServer(s) && lo < hi <= |s.history| && s.start < hi
    requires IsLogPage(page, s, Some(s.history[hi - 1].seqNo - 1))
    ensures IsPageAt(page, s, lo, hi, p)
    ensures page.lines != [] ==> s.history[hi - 1].seqNo in Numbers(s, p, p + |page.lines|)
    ensures page.lines == [] ==> page.truncated
  {
    hide IsLogPage, Ascending;
    var cursor := s.history[hi - 1].seqNo;
    p := PagePosition(s, cursor - 1, page);
    if s.start < hi - 1 {
      AscendingAt(s.history, hi - 2, hi - 1);
    }
    SinceFromIs(s, cursor - 1, s.start, hi - 1);
    if page.lines == [] {
      p := hi;
    }
  }

  /** A first answer when the newest copied record is gone but the next visible one is not. */
  lemma NextRecordPageStart(s: Server, lo: nat, hi: nat, page: LogPage) returns (p: nat)
    requires ValidServer(s) && lo < hi <= s.start
    requires var cursor := s.history[hi - 1].seqNo;
      && IsLogPage(page, s, Some(cursor - 1))
      && (page.firstRetained.Some? ==> page.firstRetained.value <= cursor + 1 && page.lines != [])
    ensures IsPageAt(page, s, lo, hi, p)
    ensures page.lines == [] ==> !page.truncated
  {
    hide IsLogPage, Ascending;
    var cursor := s.history[hi - 1].seqNo;
    p := PagePosition(s, cursor - 1, page);
    if s.start < |s.history| {
      AscendingAt(s.history, hi - 1, hi);
      AscendingAt(s.history, hi, s.start);
      SinceFromIs(s, cursor - 1, s.start, s.start);
    } else {
      p := hi;
    }
  }

  lemma SinceFromIs(s: Server, after: nat, k: nat, p: nat)
    requires Ascending(s.history) && k <= p < |s.history|
    requires after < s.history[p].seqNo && (k < p ==> s.history[p - 1].seqNo <= after)
    ensures SinceFrom(s, after, k) == p
  {
    var q := SinceFrom(s, after, k);
    assert q <= p;
    if q < p {
      AscendingAt(s.history, q, p - 1);
    }
  }

  /** A first page that does not send `refresh_logs` back to the tail continues the copy. */
  lemma FirstPageStart(s: Server, lo: nat, hi: nat, cursor: nat, page: LogPage) returns (p: nat)
    requires ValidServer(s) && lo <= hi <= |s.history|
    requires cursor == if lo == hi then 0 else s.history[hi - 1].seqNo
    requires IsLogPage(page, s, if cursor > 0 then Some(cursor - 1) else None)
    requires cursor > 0 && page.firstRetained.Some? ==>
      page.firstRetained.value <= cursor + 1 && (page.lines == [] ==> page.firstRetained.value <= cursor)
    ensures IsPageAt(page, s, lo, hi, p)
    ensures page.lines != [] && lo < hi && s.start < hi ==> cursor in Numbers(s, p, p + |page.lines|)
    ensures page.lines == [] ==> (page.truncated <==> lo < hi && s.start < hi)
  {
    if lo == hi {
      p := TailPageStart(s, lo, page);
    } else if s.start < hi {
      p := RefetchPageStart(s, lo, hi, page);
    } else {
      if s.start < |s.history| {
        assert Precedes(s.history[hi - 1], s.history[s.start]);
      }
      p := NextRecordPageStart(s, lo, hi, page);
    }
  }

  lemma NextPageStart(s: Server, next: nat, lo: nat, hi: nat, page: LogPage)
    requires ValidServer(s) && lo < hi <= |s.history| && s.start <= hi
    requires next == s.history[hi - 1].seqNo && IsLogPage(page, s, Some(next))
    ensures IsPageAt(page, s, lo, hi, hi)
  {
    hide IsLogPage, Ascending;
    var p := PagePosition(s, next, page);
    if hi < |s.history| {
      AscendingAt(s.history, hi - 1, hi);
      SinceFromIs(s, next, s.start, hi);
    } else if p < |s.history| {
      AscendingAt(s.history, p, hi - 1);
    }
  }

  /** The positions behind the invariant. Only a record the server still retains can be out of date. */
  lemma MirroredPositions(m: MirrorLog, s: Server, behind: set<nat>) returns (lo: nat, hi: nat, pending: set<nat>)
    requires MirroredExcept(m, s, behind)
    ensures lo <= hi <= |s.history| && Holds(m.logs, m.nextLogSeq, s.history, lo, hi)
    ensures m.nextLogSeq == if lo == hi then 0 else s.history[hi - 1].seqNo
    ensures pending == behind + (if lo < hi && s.start < hi then {m.nextLogSeq} else {})
    ensures Agrees(m.logs, s, lo, pending) && Bounded(m)
  {
    lo, hi :| Holds(m.logs, m.nextLogSeq, s.history, lo, hi) && Agrees(m.logs, s, lo, behind + {m.nextLogSeq});
    pending := behind + (if lo < hi && s.start < hi then {m.nextLogSeq} else {});
    forall i | 0 <= i < |m.logs| && s.start <= lo + i && m.logs[i].seqNo !in pending
      ensures m.logs[i] == s.history[lo + i]
    {
      if lo + i < hi - 1 {
        AscendingAt(s.history, lo + i, hi - 1);
      }
    }
  }

  lemma CaughtUpAt(m: MirrorLog, s: Server, lo: nat, hi: nat, stale: set<nat>)
    requires ValidServer(s) && Bounded(m) && Holds(m.logs, m.nextLogSeq, s.history, lo, hi)
    requires Agrees(m.logs, s, lo, stale) && (Retained(s) != [] ==> lo < hi == |s.history|)
    ensures CaughtUpExcept(m, s, stale)
  {
  }

  lemma MirroredAt(m: MirrorLog, s: Server, lo: nat, hi: nat)
    requires ValidServer(s) && Bounded(m) && Holds(m.logs, m.nextLogSeq, s.history, lo, hi)
    requires Agrees(m.logs, s, lo, {})
    ensures Mirrored(m, s)
  {
    AgreesWeaken(m.logs, s, lo, {}, {m.nextLogSeq});
  }

  /** The loop of `refresh_logs`: `page` continues the copy `m`, and brings all but `stale` up to date. */
  ghost predicate Continues(m: MirrorLog, s: Server, lo: nat, hi: nat, page: LogPage, p: nat, stale: set<nat>) {
    && ValidServer(s) && Bounded(m) && Holds(m.logs, m.nextLogSeq, s.history, lo, hi)
    && IsPageAt(page, s, lo, hi, p)
    && exists pending ::
         Agrees(m.logs, s, lo, pending) && pending - Numbers(s, p, p + |page.lines|) <= stale
  }

  lemma PageTaken(m: MirrorLog, s: Server, lo: nat, hi: nat, page: LogPage, p: nat, stale: set<nat>)
    returns (lo': nat, hi': nat)
    requires Continues(m, s, lo, hi, page, p, stale)
    ensures var r := PageAppended(m, page.lines);
      && ValidServer(s) && Bounded(r) && Holds(r.logs, r.nextLogSeq, s.history, lo', hi')
      && Agrees(r.logs, s, lo', stale)
      && (stale == {} ==> Mirrored(r, s))
      && (!page.truncated ==> CaughtUpExcept(r, s, stale))
      && (page.truncated ==> s.start <= hi' && lo' < hi' <= |s.history|)
      && (page.truncated && page.lines != [] && lo < hi ==> hi' < |s.history|)
    ensures p == hi ==> if page.lines != [] then hi < hi' else hi == hi'
    ensures hi' <= |s.history|
  {
    hide Agrees, ValidServer, PageAppended, Mirrored, CaughtUpExcept;
    var q := p + |page.lines|;
    var pending :| Agrees(m.logs, s, lo, pending) && pending - Numbers(s, p, q) <= stale;
    lo', hi' := PageAppendedHolds(m, s, lo, hi, p, q, pending);
    var r := PageAppended(m, page.lines);
    AgreesWeaken(r.logs, s, lo', pending - Numbers(s, p, q), stale);
    if stale == {} {
      MirroredAt(r, s, lo', hi');
    }
    if !page.truncated {
      CaughtUpAt(r, s, lo', hi', stale);
    }
  }

  /** The answer to a request after everything copied so far continues the copy. */
  lemma NextContinues(m: MirrorLog, s: Server, lo: nat, hi: nat, page: LogPage, stale: set<nat>)
    requires ValidServer(s) && Bounded(m) && Holds(m.logs, m.nextLogSeq, s.history, lo, hi)
    requires Agrees(m.logs, s, lo, stale) && lo < hi && s.start <= hi
    requires IsLogPage(page, s, Some(m.nextLogSeq))
    ensures Continues(m, s, lo, hi, page, hi, stale)
  {
    hide IsLogPage, Ascending;
    NextPageStart(s, m.nextLogSeq, lo, hi, page);
    assert stale - Numbers(s, hi, hi + |page.lines|) <= stale;
  }

  /** The cases in which `refresh_logs` starts over from the tail. */
  predicate MustRetail(cursor: nat, page: LogPage) {
    cursor > 0 && page.firstRetained.Some?
    && (page.firstRetained.value > cursor + 1 || (page.lines == [] && page.firstRetained.value > cursor))
  }

  /** The first answer continues the copy; if it was cut to nothing, the newest record stays stale. */
  lemma FirstContinues(m: MirrorLog, s: Server, page: LogPage, behind: set<nat>)
    returns (lo: nat, hi: nat, p: nat, stale: set<nat>)
    requires MirroredExcept(m, s, behind)
    requires IsLogPage(page, s, if m.nextLogSeq > 0 then Some(m.nextLogSeq - 1) else None)
    requires !MustRetail(m.nextLogSeq, page)
    ensures Continues(m, s, lo, hi, page, p, stale) && hi <= |s.history|
    ensures stale == behind + (if page.lines == [] && page.truncated then {m.nextLogSeq} else {})
    ensures m.nextLogSeq > 0 <==> lo < hi
  {
    hide IsLogPage, Ascending;
    var pending: set<nat>;
    lo, hi, pending := MirroredPositions(m, s, behind);
    p := FirstPageStart(s, lo, hi, m.nextLogSeq, page);
    stale := behind + (if page.lines == [] && page.truncated then {m.nextLogSeq} else {});
    assert pending - Numbers(s, p, p + |page.lines|) <= stale;
  }

  lemma TailCaughtUp(s: Server, page: LogPage)
    requires ValidServer(s) && IsLogPage(page, s, None)
    ensures CaughtUp(TailReplaced(page.lines), s)
  {
    hide Ascending, PageAppended;
    TailReplacedHolds(s, |s.history| - |page.lines|);
  }

  // ---------------------------------------------------------------- the server moves on between two answers

  ghost predicate HadNumber(s: Server, n: nat) {
    exists j :: 0 <= j < s.start <= |s.history| && s.history[j].seqNo == n
  }

  /** `v` is `s` without some of the records that `s` no longer retains: they went before the client asked. */
  ghost predicate Thinned(v: Server, s: Server) {
    && ValidServer(v) && ValidServer(s) && Retained(v) == Retained(s)
    && forall i :: 0 <= i < v.start ==> HadNumber(s, v.history[i].seqNo)
  }

  lemma ThinnedSelf(s: Server)
    requires ValidServer(s)
    ensures Thinned(s, s)
  {
  }

  lemma HadNumberBefore(s: Server, n: nat, t: Server)
    requires Evolves(s, t) && HadNumber(s, n)
    ensures HadNumber(t, n) && forall i :: s.start <= i < |t.history| ==> n < t.history[i].seqNo
  {
    var j :| 0 <= j < s.start <= |s.history| && s.history[j].seqNo == n;
    assert t.history[j].seqNo == n;
    forall i | s.start <= i < |t.history| ensures n < t.history[i].seqNo {
      AscendingAt(t.history, j, i);
    }
  }

  /** Two runs of records, the first numbered before the second. */
  lemma JoinedIsValid(a: seq<LogLine>, b: seq<LogLine>, start: nat)
    requires ValidServer(Server(a, 0)) && ValidServer(Server(b, 0)) && start <= |a| + |b|
    requires forall i, j :: 0 <= i < |a| && 0 <= j < |b| ==> a[i].seqNo < b[j].seqNo
    ensures ValidServer(Server(a + b, start))
  {
    forall i, j | 0 <= i < j < |a + b| ensures Precedes((a + b)[i], (a + b)[j]) {
      if j < |a| {
        AscendingAt(a, i, j);
      } else if i >= |a| {
        AscendingAt(b, i - |a|, j - |a|);
      }
    }
  }

  lemma PartIsValid(s: Server, i: nat, j: nat)
    requires ValidServer(s) && i <= j <= |s.history|
    ensures ValidServer(Server(s.history[i..j], 0))
  {
    forall k, l | 0 <= k < l < j - i ensures Precedes(s.history[i..j][k], s.history[i..j][l]) {
      AscendingAt(s.history, i + k, i + l);
    }
  }

  /** What was left out stays out as the server moves on. */
  lemma ThinnedEvolves(v: Server, s: Server, t: Server) returns (w: Server)
    requires Thinned(v, s) && Evolves(s, t)
    ensures Evolves(v, w) && Thinned(w, t)
    ensures v == s ==> w == t
    ensures s == t ==> w == v
  {
    if v == s {
      w := t;
      ThinnedSelf(t);
    } else if s == t {
      w := v;
    } else {
      var a, b := v.history[..v.start], t.history[s.start..];
      w := Server(a + b, v.start + (t.start - s.start));
      assert v.history[0..v.start] == a && t.history[s.start..|t.history|] == b;
      PartIsValid(v, 0, v.start);
      PartIsValid(t, s.start, |t.history|);
      forall i | 0 <= i < v.start
        ensures HadNumber(t, a[i].seqNo) && forall j :: 0 <= j < |b| ==> a[i].seqNo < b[j].seqNo
      {
        HadNumberBefore(s, v.history[i].seqNo, t);
      }
      hide Ascending, HadNumber;
      JoinedIsValid(a, b, w.start);
      JoinedEvolves(v, s, t, w);
      JoinedThinned(v, s, t, w);
    }
  }

  lemma JoinedEvolves(v: Server, s: Server, t: Server, w: Server)
    requires Thinned(v, s) && Evolves(s, t) && ValidServer(w)
    requires w == Server(v.history[..v.start] + t.history[s.start..], v.start + (t.start - s.start))
    ensures Evolves(v, w)
  {
    hide Ascending, HadNumber;
    forall i | v.start <= i < |v.history|
      ensures v.history[i] == s.history[s.start + (i - v.start)]
    {
      assert Retained(v)[i - v.start] == Retained(s)[i - v.start];
    }
  }

  lemma JoinedThinned(v: Server, s: Server, t: Server, w: Server)
    requires Thinned(v, s) && Evolves(s, t) && ValidServer(w)
    requires w == Server(v.history[..v.start] + t.history[s.start..], v.start + (t.start - s.start))
    requires forall i :: 0 <= i < v.start ==> HadNumber(t, v.history[i].seqNo)
    ensures Thinned(w, t)
  {
    hide Ascending;
    assert Retained(w) == Retained(t);
    forall i | v.start <= i < w.start ensures HadNumber(t, w.history[i].seqNo) {
      assert w.history[i] == t.history[s.start + (i - v.start)];
    }
  }

  /** Records that went before the client asked for them might as well never have been visible. */
  lemma UnseenForgotten(v: Server, s: Server, hi: nat) returns (w: Server)
    requires Thinned(v, s) && hi <= v.start
    ensures Thinned(w, s) && w.start == hi && w.history[..hi] == v.history[..hi]
  {
    var a, b := v.history[..hi], v.history[v.start..];
    w := Server(a + b, hi);
    assert v.history[0..hi] == a && v.history[v.start..|v.history|] == b;
    PartIsValid(v, 0, hi);
    PartIsValid(v, v.start, |v.history|);
    forall i, j | 0 <= i < |a| && 0 <= j < |b| ensures a[i].seqNo < b[j].seqNo {
      AscendingAt(v.history, i, v.start + j);
    }
    hide Ascending, HadNumber;
    JoinedIsValid(a, b, hi);
    assert Retained(w) == b;
  }

  /** An answer depends on the retained records only. */
  lemma ThinnedAnswers(v: Server, s: Server, page: LogPage, after: Option<nat>)
    requires Thinned(v, s) && IsLogPage(page, s, after)
    ensures IsLogPage(page, v, after)
  {
    hide Ascending, HadNumber;
    match after {
      case Some(cursor) =>
        SinceIsRetained(v, cursor, v.start, s, s.start);
      case None =>
        LastOfRetained(s, |page.lines|);
        LastOfRetained(v, |page.lines|);
    }
  }

  lemma LastOfRetained(s: Server, n: nat)
    requires ValidServer(s) && n <= |Retained(s)|
    ensures s.history[|s.history| - n..] == Retained(s)[|Retained(s)| - n..]
  {
  }

  lemma {:induction false} SinceIsRetained(v: Server, after: nat, k: nat, s: Server, l: nat)
    requires k <= |v.history| && l <= |s.history| && v.history[k..] == s.history[l..]
    ensures v.history[SinceFrom(v, after, k)..] == s.history[SinceFrom(s, after, l)..]
    decreases |v.history| - k
  {
    assert |v.history| - k == |s.history| - l;
    if k < |v.history| {
      assert v.history[k..][0] == s.history[l..][0];
      if v.history[k].seqNo <= after {
        assert v.history[k + 1..] == v.history[k..][1..] && s.history[l + 1..] == s.history[l..][1..];
        SinceIsRetained(v, after, k + 1, s, l + 1);
      }
    }
  }

  /** A copy that is not at the end, or whose newest record is known to be stale, outlasts a move. */
  lemma CopyOutlastsMove(m: MirrorLog, v: Server, s: Server, t: Server, lo: nat, hi: nat, stale: set<nat>)
    returns (w: Server)
    requires Thinned(v, s) && Evolves(s, t)
    requires Holds(m.logs, m.nextLogSeq, v.history, lo, hi) && Agrees(m.logs, v, lo, stale)
    requires hi < |v.history| || m.nextLogSeq in stale
    ensures Thinned(w, t) && w.start <= hi <= |w.history|
    ensures Holds(m.logs, m.nextLogSeq, w.history, lo, hi) && Agrees(m.logs, w, lo, stale)
    ensures v == s && t.start <= hi ==> w == t
    ensures s == t && v.start <= hi ==> w == v
  {
    var u := ThinnedEvolves(v, s, t);
    hide Thinned, ValidServer, HadNumber;
    CopyEvolves(m, v, u, lo, hi, stale);
    if u.start <= hi {
      w := u;
    } else {
      w := UnseenForgotten(u, t, hi);
      SamePrefixHolds(m, u, w, lo, hi);
    }
  }

  lemma CopyEvolves(m: MirrorLog, v: Server, u: Server, lo: nat, hi: nat, stale: set<nat>)
    requires Evolves(v, u) && Holds(m.logs, m.nextLogSeq, v.history, lo, hi) && Agrees(m.logs, v, lo, stale)
    requires hi < |v.history| || m.nextLogSeq in stale
    ensures Holds(m.logs, m.nextLogSeq, u.history, lo, hi) && Agrees(m.logs, u, lo, stale)
  {
    hide Ascending, ValidServer;
  }

  lemma SamePrefixHolds(m: MirrorLog, u: Server, w: Server, lo: nat, hi: nat)
    requires Holds(m.logs, m.nextLogSeq, u.history, lo, hi) && hi <= |w.history| && w.history[..hi] == u.history[..hi]
    requires w.start == hi
    ensures Holds(m.logs, m.nextLogSeq, w.history, lo, hi) && Agrees(m.logs, w, lo, {})
  {
    forall i | 0 <= i < hi ensures w.history[i] == u.history[i] {
      assert w.history[..hi][i] == u.history[..hi][i];
    }
  }

  /** What the server evicted before the client asked for it does not show: all it retains is as it should be. */
  lemma CaughtUpShowsRetained(m: MirrorLog, v: Server, s: Server)
    requires CaughtUp(m, v) && Thinned(v, s)
    ensures Retained(s) != [] ==> m.logs != [] && m.logs[|m.logs| - 1] == Retained(s)[|Retained(s)| - 1]
    ensures forall l, r :: l in m.logs && r in Retained(s) && l.seqNo == r.seqNo ==> l == r
    ensures forall r :: r in Retained(s) && m.logs[0].seqNo <= r.seqNo ==> r in m.logs
  {
    CaughtUpMeans(m, v);
    ThinnedValid(v, s);
    hide CaughtUpExcept, HadNumber, Ascending, Thinned;
    if Retained(s) != [] {
      assert Retained(v)[|Retained(v)| - 1] == v.history[|v.history| - 1];
      forall r | r in Retained(s) && m.logs[0].seqNo <= r.seqNo ensures r in m.logs {
        RetainedIsHeld(m, v, r);
      }
    }
  }

  lemma RetainedIsHeld(m: MirrorLog, v: Server, r: LogLine)
    requires CaughtUp(m, v) && ValidServer(v) && r in Retained(v) && m.logs != [] && m.logs[0].seqNo <= r.seqNo
    requires m.logs[|m.logs| - 1] == v.history[|v.history| - 1]
    ensures r in m.logs
  {
    CaughtUpMeans(m, v);
    var j :| 0 <= j < |Retained(v)| && Retained(v)[j] == r;
    hide CaughtUpExcept, Ascending;
    NewestIsLast(v, v.start + j);
    CaughtUpGapFree(m, v, 0, r);
  }

  lemma NewestIsLast(s: Server, j: nat)
    requires ValidServer(s) && j < |s.history|
    ensures s.history[j].seqNo <= s.history[|s.history| - 1].seqNo && s.history[j] in s.history
  {
    AscendingAt(s.history, j, |s.history| - 1);
  }

  /** The next refresh may start from whatever the server has moved on to. */
  lemma NextRefreshMayStart(m: MirrorLog, v: Server, s: Server, t: Server, behind: set<nat>) returns (w: Server)
    requires MirroredExcept(m, v, behind) && Thinned(v, s) && Evolves(s, t)
    ensures MirroredExcept(m, w, behind) && Thinned(w, t)
  {
    w := ThinnedEvolves(v, s, t);
    MirroredEvolves(m, v, w, behind);
  }

  // ---------------------------------------------------------------- records that are not asked for again

  predicate CutToNothing(page: LogPage) {
    page.lines == [] && page.truncated
  }

  /**
   What the server's code keeps to besides: when even the first record is too large for a response, it is
   shortened, and not left out (crates/micromux-control/src/server/unix.rs:878-906).
   */
  ghost predicate IsServedPage(page: LogPage, s: Server, after: Option<nat>)
    requires ValidServer(s)
  {
    IsLogPage(page, s, after) && !CutToNothing(page)
  }

  function FirstCursor(nextLogSeq: nat): Option<nat> {
    if nextLogSeq > 0 then Some(nextLogSeq - 1) else None
  }

  /**
   After these first answers the refresh goes on beyond a record that may be the server's newest: a
   tail without the oldest records, or nothing where the newest copied record was asked for.
   */
  predicate SkipsNewest(cursor: nat, first: LogPage) {
    first.truncated && (cursor == 0 || first.lines == [])
  }

  /**
   The server retains the record that was the newest of `before` with another text, and that is not
   below what `after` starts with.
   */
  ghost predicate LeftStale(before: MirrorLog, after: MirrorLog, s: Server)
    requires s.start <= |s.history|
  {
    && before.logs != [] && after.logs != [] && after.logs[0].seqNo <= before.nextLogSeq
    && exists r :: r in Retained(s) && r.seqNo == before.nextLogSeq && r != before.logs[|before.logs| - 1]
  }

  /** A record numbered in `old` of which the server retains another text. */
  ghost predicate StaleAmong(m: MirrorLog, s: Server, behind: set<nat>)
    requires s.start <= |s.history|
  {
    exists l, r :: l in m.logs && r in Retained(s) && l.seqNo == r.seqNo && l.seqNo in behind && l != r
  }

  /** Whatever `after` holds under the old cursor is the old newest line. */
  ghost predicate NewestUntouched(before: MirrorLog, after: MirrorLog) {
    forall l :: l in after.logs && l.seqNo == before.nextLogSeq ==>
      before.logs != [] && l == before.logs[|before.logs| - 1]
  }

  lemma UntouchedAtFirst(m: MirrorLog, s: Server, lo: nat, hi: nat)
    requires ValidServer(s) && Holds(m.logs, m.nextLogSeq, s.history, lo, hi)
    ensures NewestUntouched(m, m)
  {
    HoldsAscending(m.logs, m.nextLogSeq, s.history, lo, hi);
    forall l | l in m.logs && l.seqNo == m.nextLogSeq ensures l == m.logs[|m.logs| - 1] {
      var i :| 0 <= i < |m.logs| && m.logs[i] == l;
      AscendingAt(m.logs, i, |m.logs| - 1);
    }
  }

  lemma UntouchedByNewer(before: MirrorLog, m: MirrorLog, lines: seq<LogLine>)
    requires NewestUntouched(before, m) && forall l :: l in lines ==> before.nextLogSeq < l.seqNo
    ensures NewestUntouched(before, PageAppended(m, lines))
  {
    PageAppendedFrom(m, lines);
    hide PageAppended;
  }

  /** Catching up but for some records is catching up, exactly if none of those is stale. */
  lemma CaughtUpExceptExactly(m: MirrorLog, s: Server, behind: set<nat>)
    requires CaughtUpExcept(m, s, behind)
    ensures ValidServer(s) && (CaughtUp(m, s) <==> !StaleAmong(m, s, behind))
  {
    if CaughtUp(m, s) {
      CaughtUpMeans(m, s);
    } else if !StaleAmong(m, s, behind) {
      var lo: nat, hi: nat :|
        && Holds(m.logs, m.nextLogSeq, s.history, lo, hi) && Agrees(m.logs, s, lo, behind)
        && (Retained(s) != [] ==> lo < hi == |s.history|);
      hide Ascending;
      forall i | 0 <= i < |m.logs| && s.start <= lo + i ensures m.logs[i] == s.history[lo + i] {
        assert m.logs[i] in m.logs && Retained(s)[lo + i - s.start] in Retained(s);
      }
      CaughtUpAt(m, s, lo, hi, {});
    }
  }

  /** With the newest record not fetched again, it is stale exactly if it was left so. */
  lemma SkippedExactly(before: MirrorLog, after: MirrorLog, s: Server)
    requires ValidServer(s) && Ascending(after.logs) && NewestUntouched(before, after)
    ensures StaleAmong(after, s, {before.nextLogSeq}) ==> LeftStale(before, after, s)
  {
    if StaleAmong(after, s, {before.nextLogSeq}) {
      var l, r :| l in after.logs && r in Retained(s) && l.seqNo == r.seqNo == before.nextLogSeq && l != r;
      var i :| 0 <= i < |after.logs| && after.logs[i] == l;
      AscendingAt(after.logs, 0, i);
    }
  }

  lemma StaleIsNotCaughtUp(before: MirrorLog, after: MirrorLog, s: Server)
    requires ValidServer(s) && NewestUntouched(before, after) && LeftStale(before, after, s)
    ensures !CaughtUp(after, s)
  {
    hide CaughtUpExcept, ValidServer;
    if CaughtUp(after, s) {
      var r :| r in Retained(s) && r.seqNo == before.nextLogSeq && r != before.logs[|before.logs| - 1];
      CaughtUpMeans(after, s);
      RetainedIsHeld(after, s, r);
    }
  }

  lemma CaughtUpAscends(m: MirrorLog, s: Server, behind: set<nat>)
    requires CaughtUpExcept(m, s, behind)
    ensures Ascending(m.logs) && ValidServer(s)
  {
    var lo: nat, hi: nat :| Holds(m.logs, m.nextLogSeq, s.history, lo, hi);
    HoldsAscending(m.logs, m.nextLogSeq, s.history, lo, hi);
  }

  lemma AnswerIsNewer(s: Server, cursor: nat, page: LogPage)
    requires ValidServer(s) && IsLogPage(page, s, Some(cursor))
    ensures Ascending(page.lines) && forall l :: l in page.lines ==> cursor < l.seqNo
  {
    hide IsLogPage;
    var p := PagePosition(s, cursor, page);
    forall i, j | 0 <= i < j < |page.lines| ensures Precedes(page.lines[i], page.lines[j]) {
      AscendingAt(s.history, p + i, p + j);
    }
    forall i | 0 <= i < |page.lines| ensures cursor < page.lines[i].seqNo {
      AscendingAt(s.history, p, p + i);
    }
  }

  lemma CaughtUpWeaken(m: MirrorLog, s: Server, a: set<nat>, b: set<nat>)
    requires CaughtUpExcept(m, s, a) && a <= b
    ensures CaughtUpExcept(m, s, b)
  {
    var lo: nat, hi: nat :|
      && Holds(m.logs, m.nextLogSeq, s.history, lo, hi) && Agrees(m.logs, s, lo, a)
      && (Retained(s) != [] ==> lo < hi == |s.history|);
    AgreesWeaken(m.logs, s, lo, a, b);
  }

  lemma CaughtUpWithout(m: MirrorLog, s: Server, behind: set<nat>, n: nat)
    requires CaughtUpExcept(m, s, behind + {n}) && s.start <= |s.history| && !StaleAmong(m, s, {n})
    ensures CaughtUpExcept(m, s, behind)
  {
    var lo: nat, hi: nat :|
      && Holds(m.logs, m.nextLogSeq, s.history, lo, hi) && Agrees(m.logs, s, lo, behind + {n})
      && (Retained(s) != [] ==> lo < hi == |s.history|);
    hide Ascending;
    forall i | 0 <= i < |m.logs| && s.start <= lo + i && m.logs[i].seqNo !in behind
      ensures m.logs[i] == s.history[lo + i]
    {
      assert m.logs[i] in m.logs && Retained(s)[lo + i - s.start] in Retained(s);
    }
    CaughtUpAt(m, s, lo, hi, behind);
  }

  /** What a refresh leaves out of date. */
  ghost function LeftBehind(behind: set<nat>, fetched: MirrorLog, after: MirrorLog, s: Server, skipped: bool): set<nat>
    requires s.start <= |s.history|
  {
    if skipped && LeftStale(fetched, after, s) then behind + {fetched.nextLogSeq} else behind
  }

  /** Either the newest record was fetched again, or it is as the first answer left it. */
  lemma RefreshedExactly(fetched: MirrorLog, after: MirrorLog, s: Server, behind: set<nat>, skipped: bool)
    requires CaughtUpExcept(after, s, behind + if skipped then {fetched.nextLogSeq} else {})
    requires skipped ==> NewestUntouched(fetched, after)
    ensures ValidServer(s)
    ensures CaughtUpExcept(after, s, LeftBehind(behind, fetched, after, s, skipped))
    ensures CaughtUp(after, s) <==> !(skipped && LeftStale(fetched, after, s)) && !StaleAmong(after, s, behind)
  {
    var n := fetched.nextLogSeq;
    CaughtUpAscends(after, s, behind + if skipped then {n} else {});
    hide CaughtUpExcept, NewestUntouched, LeftStale, Ascending, StaleAmong, CaughtUp;
    assert behind + {} == behind;
    if skipped {
      SkippedExactly(fetched, after, s);
      if !LeftStale(fetched, after, s) {
        CaughtUpWithout(after, s, behind, n);
        CaughtUpExceptExactly(after, s, behind);
      } else {
        StaleIsNotCaughtUp(fetched, after, s);
      }
    } else {
      CaughtUpExceptExactly(after, s, behind);
    }
  }

  lemma FirstCursorIs(cursor: nat, page: LogPage)
    requires MustRetail(cursor, page)
    ensures cursor > 0 && FirstCursor(cursor) == Some(cursor - 1)
  {
  }

  lemma RetailSkipsNothing(
      before: MirrorLog, fetched: MirrorLog, after: MirrorLog, known: Server, page: LogPage,
      asked: Server, later: Server, seen: Server)
    requires ValidServer(known) && Bounded(before) && before.nextLogSeq > 0
    requires fetched == PageAppended(before, page.lines)
    requires IsLogPage(page, known, Some(before.nextLogSeq - 1)) && MustRetail(before.nextLogSeq, page)
    requires Thinned(known, asked) && Evolves(asked, later) && Thinned(seen, later)
    ensures ValidServer(seen) && (SkipsNewest(before.nextLogSeq, page) ==> !LeftStale(fetched, after, seen))
  {
    ThinnedValid(known, asked);
    ThinnedValid(seen, later);
    if SkipsNewest(before.nextLogSeq, page) {
      EmptyPageAppended(before);
      RetailLeavesNothing(before, after, known, page, asked, later);
      hide PageAppended, IsLogPage, Thinned, Evolves;
      SameForRetained(before, after, seen, later, {}, true);
    }
  }

  /** Where the client starts over, the record under its cursor is not retained, then or later. */
  lemma RetailLeavesNothing(
      before: MirrorLog, after: MirrorLog, known: Server, page: LogPage, s: Server, later: Server)
    requires ValidServer(known) && before.nextLogSeq > 0 && IsLogPage(page, known, Some(before.nextLogSeq - 1))
    requires MustRetail(before.nextLogSeq, page)
    requires ValidServer(s) && Retained(known) == Retained(s) && Evolves(s, later)
    ensures forall r :: r in Retained(later) ==> before.nextLogSeq < r.seqNo
    ensures !LeftStale(before, after, later)
  {
    assert page.firstRetained == FirstRetained(Retained(s));
    hide IsLogPage, Ascending;
    assert Retained(s)[0] == s.history[s.start];
    forall r | r in Retained(later) ensures before.nextLogSeq < r.seqNo {
      var i :| 0 <= i < |Retained(later)| && Retained(later)[i] == r;
      AscendingAt(later.history, s.start, later.start + i);
    }
  }

  /** A refresh of two answers, the second complete, that leaves an old text behind. */
  ghost predicate EndsStale(m: MirrorLog, s: Server, first: LogPage, t: Server, next: LogPage) {
    && Mirrored(m, s) && Evolves(s, t) && IsLogPage(first, s, FirstCursor(m.nextLogSeq))
    && SkipsNewest(m.nextLogSeq, first) && !MustRetail(m.nextLogSeq, first)
    && var fetched := PageAppended(m, first.lines);
       && IsLogPage(next, t, Some(fetched.nextLogSeq)) && !next.truncated
       && LeftStale(fetched, PageAppended(fetched, next.lines), t)
  }

  /**
   `refresh_logs` rejects an empty truncated answer only after the first request
   (crates/micromux-tui/src/remote.rs:616-620). Were the first answer one, the next complete answer
   would leave the old text of a replaced record in the mirror.
   */
  lemma EmptyFirstAnswerLeavesStaleRecord()
    ensures exists m, s, first, next :: EndsStale(m, s, first, s, next) && CutToNothing(first)
  {
    hide *;
    var l, r := TwoTexts(1);
    var m, s := MirrorLog([l], 1, Some(1)), Server([r], 0);
    var first, next := LogPage([], true, Some(1)), LogPage([], false, Some(1));
    OneIsMirrored(m, s);
    NothingAnswered(s, first, next);
    EmptyPageAppended(m);
    StaleIsLeft(m, m, s, l, r);
    EndsStaleAt(m, s, first, s, next, m, m);
  }

  /** A record with two texts. */
  lemma TwoTexts(n: nat) returns (l: LogLine, r: LogLine)
    ensures l.seqNo == r.seqNo == n && l != r
  {
    l, r := LogLine(n, 1, 0, "old"), LogLine(n, 1, 0, "new");
    assert l.line[0] != r.line[0];
  }

  lemma OneIsMirrored(m: MirrorLog, s: Server)
    requires |m.logs| == |s.history| == 1 && m.logs[0].seqNo == s.history[0].seqNo == m.nextLogSeq == 1
    requires s.start == 0 && m.firstRetained == Some(1)
    ensures Mirrored(m, s) && Evolves(s, s) && ValidServer(s) && Bounded(m) && s.history[0] in Retained(s)
  {
    assert Holds(m.logs, 1, s.history, 0, 1) && Agrees(m.logs, s, 0, {1});
    assert Retained(s)[0] == s.history[0];
  }

  lemma NothingAnswered(s: Server, first: LogPage, next: LogPage)
    requires ValidServer(s) && s.start == 0 && |s.history| == 1 && s.history[0].seqNo == 1
    requires first == LogPage([], true, Some(1)) && next == LogPage([], false, Some(1))
    ensures IsLogPage(first, s, Some(0)) && IsLogPage(next, s, Some(1)) && CutToNothing(first)
  {
    assert SinceFrom(s, 0, 0) == 0 && SinceFrom(s, 1, 0) == 1;
  }

  lemma StaleIsLeft(before: MirrorLog, after: MirrorLog, s: Server, l: LogLine, r: LogLine)
    requires ValidServer(s) && before.logs == [l] && r in Retained(s) && r != l
    requires after.logs != [] && after.logs[0] == l
    requires r.seqNo == l.seqNo == before.nextLogSeq
    ensures LeftStale(before, after, s)
  {
  }

  lemma EndsStaleAt(
      m: MirrorLog, s: Server, first: LogPage, t: Server, next: LogPage, fetched: MirrorLog, after: MirrorLog)
    requires Mirrored(m, s) && Evolves(s, t) && first.firstRetained == Some(1) && m.nextLogSeq <= 1
    requires IsLogPage(first, s, if m.nextLogSeq > 0 then Some(m.nextLogSeq - 1) else None)
    requires first.truncated && (m.nextLogSeq == 0 || first.lines == [])
    requires fetched == PageAppended(m, first.lines) && after == PageAppended(fetched, next.lines)
    requires IsLogPage(next, t, Some(fetched.nextLogSeq)) && !next.truncated && LeftStale(fetched, after, t)
    ensures EndsStale(m, s, first, t, next)
  {
    hide Mirrored, Evolves, IsLogPage, PageAppended, LeftStale;
  }

  lemma EmptyPageAppended(m: MirrorLog)
    requires Bounded(m)
    ensures PageAppended(m, []) == m
  {
  }

  lemma OneLineAppended(l: LogLine)
    requires l.seqNo >= 1
    ensures PageAppended(EMPTY_MIRROR, [l]) == MirrorLog([l], l.seqNo, Some(l.seqNo))
  {
    LinesAppendedStep([], 0, [], l);
    assert [] + [l] == [l];
  }

  /** Such a refresh of an empty mirror, after which the cursor is beyond the outdated record. */
  ghost predicate StaysStale(s: Server, first: LogPage, t: Server, next: LogPage) {
    && EndsStale(EMPTY_MIRROR, s, first, t, next) && first.lines != [] && !CutToNothing(next)
    && PageAppended(PageAppended(EMPTY_MIRROR, first.lines), next.lines).nextLogSeq > first.lines[0].seqNo
  }

  /**
   The shipped server gets there too. A tail goes without its oldest record; before the second request
   the newest is replaced and another record follows it. The mirror holds the old text and, with
   the cursor beyond it, no later refresh asks for that record.
   */
  lemma HydrationLeavesStaleRecord()
    ensures exists s, first, t, next :: StaysStale(s, first, t, next)
  {
    hide *;
    var l, r := TwoTexts(2);
    var s, first, t, next := HydratedStale(LogLine(1, 1, 0, ""), l, r, LogLine(3, 1, 0, ""));
  }

  lemma HydratedStale(a: LogLine, l: LogLine, r: LogLine, b: LogLine)
    returns (s: Server, first: LogPage, t: Server, next: LogPage)
    requires a.seqNo == 1 && l.seqNo == r.seqNo == 2 && b.seqNo == 3 && l != r
    ensures StaysStale(s, first, t, next)
  {
    assert EMPTY_MIRROR.nextLogSeq == 0;
    hide *;
    s, t := Server([a, l], 0), Server([a, r, b], 0);
    first, next := LogPage([l], true, Some(1)), LogPage([b], false, Some(1));
    var m, after := MirrorLog([l], 2, Some(2)), MirrorLog([l, b], 3, Some(2));
    ReplacedAndFollowed(a, l, r, b);
    OneLineAppended(l);
    SecondLineAppended(l, b);
    HydrationAnswers(s, t, first, next);
    EmptyIsMirrored(s);
    assert l == after.logs[0];
    StaleIsLeft(m, after, t, l, r);
    EndsStaleAt(EMPTY_MIRROR, s, first, t, next, m, after);
    StaysStaleAt(s, first, t, next, m, after);
  }

  lemma StaysStaleAt(s: Server, first: LogPage, t: Server, next: LogPage, fetched: MirrorLog, after: MirrorLog)
    requires EndsStale(EMPTY_MIRROR, s, first, t, next) && first.lines != [] && next.lines != []
    requires fetched == PageAppended(EMPTY_MIRROR, first.lines) && after == PageAppended(fetched, next.lines)
    requires after.nextLogSeq > first.lines[0].seqNo
    ensures StaysStale(s, first, t, next)
  {
    hide EndsStale, PageAppended;
  }

  lemma ReplacedAndFollowed(a: LogLine, l: LogLine, r: LogLine, b: LogLine)
    requires a.seqNo == 1 && l.seqNo == r.seqNo == 2 && b.seqNo == 3
    ensures Evolves(Server([a, l], 0), Server([a, r, b], 0)) && r in Retained(Server([a, r, b], 0))
  {
    assert r == Retained(Server([a, r, b], 0))[1];
  }

  lemma SecondLineAppended(l: LogLine, b: LogLine)
    requires l.seqNo < b.seqNo
    ensures PageAppended(MirrorLog([l], l.seqNo, Some(l.seqNo)), [b]) == MirrorLog([l, b], b.seqNo, Some(l.seqNo))
  {
    LinesAppendedStep([l], l.seqNo, [], b);
    assert [l] + [b] == [l, b] && [] + [b] == [b];
  }

  lemma HydrationAnswers(s: Server, t: Server, first: LogPage, next: LogPage)
    requires Evolves(s, t) && s.start == t.start == 0 && |s.history| == 2 && |t.history| == 3
    requires s.history[0].seqNo == 1 && t.history[1].seqNo == 2 && t.history[2].seqNo == 3
    requires first == LogPage([s.history[1]], true, Some(1)) && next == LogPage([t.history[2]], false, Some(1))
    ensures ValidServer(s) && ValidServer(t)
    ensures IsServedPage(first, s, None) && IsLogPage(first, s, None) && IsLogPage(next, t, Some(2))
  {
    hide Ascending;
    assert SinceFrom(t, 2, 0) == 2 && t.history[2..] == [t.history[2]];
    assert s.history[1..] == [s.history[1]];
  }

  // ---------------------------------------------------------------- the requests of one refresh

  /** The mirror with all pages appended. */
  function AfterPages(m: MirrorLog, pages: seq<LogPage>): MirrorLog {
    if pages == [] then m else PageAppended(AfterPages(m, pages[..|pages| - 1]), pages[|pages| - 1].lines)
  }

  datatype RefreshOutcome = Refreshed | ServiceRemoved | DidNotAdvance

  /** After these answers the refresh has to ask again. */
  predicate NeedsAnswer(m: MirrorLog, answers: seq<LogPage>) {
    if answers == [] then true
    else if MustRetail(m.nextLogSeq, answers[0]) then |answers| == 1
    else
      var last := answers[|answers| - 1];
      last.truncated && (|answers| == 1 || last.lines != [])
  }

  /** For what it then asks: the newest copied record again, the tail, or everything beyond the copy. */
  function RequestAfter(m: MirrorLog, answers: seq<LogPage>): Option<nat> {
    if answers == [] then FirstCursor(m.nextLogSeq)
    else if MustRetail(m.nextLogSeq, answers[0]) then None
    else Some(AfterPages(m, answers).nextLogSeq)
  }

  /** Every answer is the server's, as it is then, to the request that the answers before call for. */
  ghost predicate AreAnswers(m: MirrorLog, course: seq<Server>, answers: seq<LogPage>)
    requires course != []
  {
    forall i :: 0 <= i < |answers| ==> IsAnswer(m, course, answers[..i], answers[i])
  }

  ghost predicate IsAnswer(m: MirrorLog, course: seq<Server>, before: seq<LogPage>, answer: LogPage)
    requires course != []
  {
    var s := At(course, |before|);
    NeedsAnswer(m, before) && ValidServer(s) && IsLogPage(answer, s, RequestAfter(m, before))
  }

  /**
   A refresh of `m` that got these answers, and no more: the service was gone where it had to ask again,
   a later answer was cut to nothing, or the answers are what the mirror is now.
   */
  ghost predicate IsWholeRefresh(
      m: MirrorLog, course: seq<Server>, removedAfter: Option<nat>, outcome: RefreshOutcome, answers: seq<LogPage>,
      after: MirrorLog)
    requires course != []
  {
    && AreAnswers(m, course, answers) && (removedAfter.Some? ==> |answers| <= removedAfter.value)
    && match outcome
       case ServiceRemoved => NeedsAnswer(m, answers) && removedAfter == Some(|answers|)
       case DidNotAdvance => |answers| > 1 && GivesUp(m, answers)
       case Refreshed => answers != [] && IsComplete(m, answers) && IsCopied(m, answers, after)
  }

  /** What the code takes for an answer that did not advance the cursor. */
  predicate GivesUp(m: MirrorLog, answers: seq<LogPage>)
    requires answers != []
  {
    var last := answers[|answers| - 1];
    !MustRetail(m.nextLogSeq, answers[0]) && last.lines == [] && last.truncated
  }

  predicate IsComplete(m: MirrorLog, answers: seq<LogPage>)
    requires answers != []
  {
    !NeedsAnswer(m, answers) && (|answers| > 1 ==> !GivesUp(m, answers))
  }

  ghost predicate IsCopied(m: MirrorLog, answers: seq<LogPage>, after: MirrorLog)
    requires answers != []
  {
    if MustRetail(m.nextLogSeq, answers[0]) then after == TailReplaced(answers[|answers| - 1].lines)
    else after == AfterPages(m, answers)
  }

  /**
   It gives up on nothing but an answer, after the first, that the server says goes on and that holds no
   record, nor before the service is gone. Otherwise it is complete: it copied every answer, or the tail
   that it asked for, and its last answer was the whole rest.
   */
  lemma RefreshEndsExactly(
      m: MirrorLog, course: seq<Server>, removedAfter: Option<nat>, outcome: RefreshOutcome, answers: seq<LogPage>,
      after: MirrorLog)
    requires IsCourse(course) && IsWholeRefresh(m, course, removedAfter, outcome, answers, after)
    ensures outcome.DidNotAdvance? <==>
      |answers| > 1 && answers[|answers| - 1].lines == [] && answers[|answers| - 1].truncated
      && !MustRetail(m.nextLogSeq, answers[0])
    ensures outcome.ServiceRemoved? ==> removedAfter == Some(|answers|)
    ensures removedAfter.None? && (forall i :: 0 < i < |answers| ==> answers[i].lines != [] || !answers[i].truncated)
            ==> outcome.Refreshed?
    ensures outcome.Refreshed? && !MustRetail(m.nextLogSeq, answers[0]) ==>
      !answers[|answers| - 1].truncated && after == AfterPages(m, answers)
    ensures outcome.Refreshed? && MustRetail(m.nextLogSeq, answers[0]) ==>
      |answers| == 2 && after == TailReplaced(answers[1].lines) && IsLogPage(answers[1], At(course, 1), None)
  {
    hide TailReplaced, IsLogPage, Evolves, ValidServer;
    if answers != [] && MustRetail(m.nextLogSeq, answers[0]) {
      var n := |answers| - 1;
      assert IsAnswer(m, course, answers[..n], answers[n]);
      assert n > 0 ==> answers[..n][0] == answers[0];
    }
  }

  /** What a refresh of `m` that began with this answer leaves, when it got as far as `now`. */
  ghost predicate Leaves(
      m: MirrorLog, behind: set<nat>, first: LogPage, complete: bool, after: MirrorLog, seen: Server, now: Server)
  {
    var (fetched, skipped) := (PageAppended(m, first.lines), SkipsNewest(m.nextLogSeq, first));
    && Thinned(seen, now) && now.start <= |now.history|
    && (complete ==>
          && CaughtUpExcept(after, seen, LeftBehind(behind, fetched, after, now, skipped))
          && (CaughtUp(after, seen) <==>
                !(skipped && LeftStale(fetched, after, now)) && !StaleAmong(after, now, behind)))
    && KeptExcept(after, seen, behind + {m.nextLogSeq, fetched.nextLogSeq})
    && MirroredExcept(after, seen, behind + if skipped then {fetched.nextLogSeq} else {})
  }

  /**
   A complete refresh is caught up exactly if the record that it did not ask for again was not replaced,
   and nothing is stale of what earlier refreshes left. However it ends, every other copied record is
   right, and the next refresh may start.
   */
  lemma RefreshCatchesUpExactly(
      m: MirrorLog, behind: set<nat>, first: LogPage, complete: bool, after: MirrorLog, seen: Server, now: Server)
    requires Leaves(m, behind, first, complete, after, seen, now)
    ensures now.start <= |now.history| && Thinned(seen, now)
    ensures var fetched := PageAppended(m, first.lines);
      && (complete ==>
            (CaughtUp(after, seen) <==>
               && (first.truncated && (m.nextLogSeq == 0 || first.lines == []) ==> !LeftStale(fetched, after, now))
               && !StaleAmong(after, now, behind)))
      && KeptExcept(after, seen, behind + {m.nextLogSeq, fetched.nextLogSeq})
      && MirroredExcept(after, seen, behind + {fetched.nextLogSeq})
    ensures first.lines != [] && (m.nextLogSeq > 0 || !first.truncated) ==> MirroredExcept(after, seen, behind)
  {
    var (fetched, skipped) := (PageAppended(m, first.lines), SkipsNewest(m.nextLogSeq, first));
    var left := behind + if skipped then {fetched.nextLogSeq} else {};
    assert skipped <==> first.truncated && (m.nextLogSeq == 0 || first.lines == []);
    hide *;
    MirroredWeaken(after, seen, left, behind + {fetched.nextLogSeq});
    assert !skipped ==> left == behind;
  }

  lemma AnswersStart(m: MirrorLog, course: seq<Server>)
    requires course != []
    ensures AreAnswers(m, course, []) && NeedsAnswer(m, []) && RequestAfter(m, []) == FirstCursor(m.nextLogSeq)
    ensures AfterPages(m, []) == m
  {
  }

  lemma AnswersGrow(m: MirrorLog, course: seq<Server>, answers: seq<LogPage>, answer: LogPage)
    requires course != [] && AreAnswers(m, course, answers) && NeedsAnswer(m, answers)
    requires ValidServer(At(course, |answers|)) && IsLogPage(answer, At(course, |answers|), RequestAfter(m, answers))
    ensures AreAnswers(m, course, answers + [answer])
    ensures AfterPages(m, answers + [answer]) == PageAppended(AfterPages(m, answers), answer.lines)
  {
    var now := answers + [answer];
    hide NeedsAnswer, RequestAfter, IsLogPage, PageAppended;
    assert now[..|answers|] == answers;
    forall i | 0 <= i < |now| ensures IsAnswer(m, course, now[..i], now[i]) {
      if i < |answers| {
        assert IsAnswer(m, course, answers[..i], answers[i]);
        assert now[..i] == answers[..i];
      }
    }
  }

  /** What a refresh that does not start over asks for after its first answer. */
  lemma AsksBeyondCopy(m: MirrorLog, answers: seq<LogPage>)
    requires answers != [] && !MustRetail(m.nextLogSeq, answers[0])
    ensures RequestAfter(m, answers) == Some(AfterPages(m, answers).nextLogSeq)
    ensures var last := answers[|answers| - 1];
      && (NeedsAnswer(m, answers) <==> last.truncated && (|answers| == 1 || last.lines != []))
      && (GivesUp(m, answers) <==> last.lines == [] && last.truncated)
      && (!last.truncated ==> IsComplete(m, answers))
    ensures IsCopied(m, answers, AfterPages(m, answers))
  {
  }

  lemma RefreshIsWhole(
      m: MirrorLog, course: seq<Server>, removedAfter: Option<nat>, outcome: RefreshOutcome, answers: seq<LogPage>,
      after: MirrorLog)
    requires course != [] && AreAnswers(m, course, answers) && (removedAfter.Some? ==> |answers| <= removedAfter.value)
    requires outcome.ServiceRemoved? ==> NeedsAnswer(m, answers) && removedAfter == Some(|answers|)
    requires outcome.DidNotAdvance? ==> |answers| > 1 && GivesUp(m, answers)
    requires outcome.Refreshed? ==> answers != [] && IsComplete(m, answers) && IsCopied(m, answers, after)
    ensures IsWholeRefresh(m, course, removedAfter, outcome, answers, after)
  {
    hide AreAnswers, NeedsAnswer, GivesUp, IsComplete, IsCopied;
  }

  lemma AsksForTail(m: MirrorLog, first: LogPage, tail: LogPage)
    requires MustRetail(m.nextLogSeq, first)
    ensures RequestAfter(m, [first]) == None && NeedsAnswer(m, [first])
    ensures IsComplete(m, [first] + [tail]) && IsCopied(m, [first] + [tail], TailReplaced(tail.lines))
    ensures |[first] + [tail]| == 2
  {
  }

  lemma TailRefused(m: MirrorLog, course: seq<Server>, first: LogPage) returns (answers: seq<LogPage>)
    requires course != [] && AreAnswers(m, course, [first]) && MustRetail(m.nextLogSeq, first)
    ensures answers != [] && answers[0] == first
    ensures IsWholeRefresh(m, course, Some(1), ServiceRemoved, answers, m)
  {
    AsksForTail(m, first, first);
    answers := [first];
    hide *;
    RefreshIsWhole(m, course, Some(1), ServiceRemoved, answers, m);
  }

  lemma RestartIsWhole(
      m: MirrorLog, course: seq<Server>, removedAfter: Option<nat>, first: LogPage, tail: LogPage)
    returns (answers: seq<LogPage>)
    requires course != [] && AreAnswers(m, course, [first]) && MustRetail(m.nextLogSeq, first)
    requires removedAfter.Some? ==> removedAfter.value >= 2
    requires ValidServer(At(course, 1)) && IsLogPage(tail, At(course, 1), None)
    ensures answers != [] && answers[0] == first
    ensures IsWholeRefresh(m, course, removedAfter, Refreshed, answers, TailReplaced(tail.lines))
  {
    hide *;
    answers := [first] + [tail];
    AsksForTail(m, first, tail);
    AnswersGrow(m, course, [first], tail);
    RefreshIsWhole(m, course, removedAfter, Refreshed, answers, TailReplaced(tail.lines));
  }

  class MirrorEntry {
    var logs: seq<LogLine>
    var nextLogSeq: nat
    var firstRetainedSeq: Option<nat>

    ghost function Contents(): MirrorLog
      reads this
    {
      MirrorLog(logs, nextLogSeq, firstRetainedSeq)
    }

    constructor ()
      ensures Contents() == EMPTY_MIRROR
    {
      logs := [];
      nextLogSeq := 0;
      firstRetainedSeq := None;
    }

    method AppendLogPage(lines: seq<LogLine>)
      modifies this
      ensures Contents() == PageAppended(old(Contents()), lines)
    {
      hide LinesAppended;
      LinesAppendedNone(logs, nextLogSeq);
      assert lines[..0] == [];
      for i := 0 to |lines|
        invariant (logs, nextLogSeq) == LinesAppended(old(logs), old(nextLogSeq), lines[..i])
      {
        LinesAppendedStep(old(logs), old(nextLogSeq), lines[..i], lines[i]);
        PrefixGrows(lines, i);
        var line := lines[i];
        if logs != [] && logs[|logs| - 1].seqNo == line.seqNo {
          logs := logs[..|logs| - 1] + [line];
        } else if line.seqNo > nextLogSeq {
          logs := logs + [line];
        }
        if logs != [] {
          nextLogSeq := Max(nextLogSeq, logs[|logs| - 1].seqNo);
        }
      }
      assert lines[..|lines|] == lines;
      ghost var all, next := logs, nextLogSeq;
      while |logs| > REMOTE_LOG_TAIL
        invariant nextLogSeq == next && |logs| <= |all| && logs == all[|all| - |logs|..]
        invariant |all| <= REMOTE_LOG_TAIL ==> logs == all
        invariant |all| > REMOTE_LOG_TAIL ==> |logs| >= REMOTE_LOG_TAIL
        decreases |logs|
      {
        logs := logs[1..];
      }
      firstRetainedSeq := FirstRetained(logs);
      assert logs == LinesTail(all, Some(REMOTE_LOG_TAIL));
    }

    method ReplaceLogTail(lines: seq<LogLine>)
      modifies this
      ensures Contents() == TailReplaced(lines)
    {
      logs := [];
      nextLogSeq := 0;
      firstRetainedSeq := None;
      AppendLogPage(lines);
    }

    /**
     `refresh_logs`, while the server moves on: `course` holds its state at every request, and at all
     further ones its last. It may also forget the service: `removedAfter` says after how many answers.
     `known` and `seen` are the server without what it evicted before the client asked for it, `now`
     gave the last answer, and `fetched` is what the first one made of the mirror. `answers` are all
     that it was given: it asks on until one is complete, or a later one is cut to nothing, or the service
     is gone. A mirror that was refreshed is caught up, unless the refresh went on beyond a record that
     has been replaced since, but for what earlier refreshes left `behind`.
     */
    method RefreshLogs(
        course: seq<Server>, removedAfter: Option<nat>, ghost known: Server, ghost behind: set<nat>)
      returns (outcome: RefreshOutcome, ghost answers: seq<LogPage>,
               ghost firstPage: LogPage, ghost seen: Server, ghost now: Server)
      requires IsCourse(course) && Thinned(known, course[0]) && MirroredExcept(Contents(), known, behind)
      modifies this
      ensures IsWholeRefresh(old(Contents()), course, removedAfter, outcome, answers, Contents())
      ensures answers != [] ==> firstPage == answers[0]
      ensures removedAfter.None? ==> !outcome.ServiceRemoved?
      ensures removedAfter == Some(0) ==> Contents() == old(Contents())
      ensures now in course
      ensures known == course[0] && NothingEvicted(course) ==> seen == now
      ensures Leaves(old(Contents()), behind, firstPage, outcome.Refreshed?, Contents(), seen, now)
    {
      ghost var before, stale: set<nat> := Contents(), {};
      firstPage, seen, now := LogPage([], false, None), known, course[0];
      var cursor, answered := nextLogSeq, 0;
      answers := [];
      NothingAsked(before, known, course[0], behind);
      AnswersStart(before, course);
      assert before.nextLogSeq == cursor;
      hide *;
      CourseStarts(course);
      if removedAfter == Some(answered) {
        RefreshIsWhole(before, course, removedAfter, ServiceRemoved, [], before);
        return ServiceRemoved, answers, firstPage, seen, now;
      }
      CourseGoesOn(course, 0);
      ThinnedValid(known, course[0]);
      var page := RequestLogPage(course[0], FirstCursor(cursor));
      AnswersGrow(before, course, [], page);
      assert [] + [page] == [page];
      answers, firstPage, answered := [page], page, 1;
      ThinnedAnswers(known, now, page, FirstCursor(cursor));
      if MustRetail(cursor, page) {
        outcome, answers, seen, now := StartOver(course, removedAfter, page, known, behind);
        return;
      }

      ghost var lo: nat, hi: nat, p: nat;
      FirstCursorAt(cursor);
      lo, hi, p, stale := FirstContinues(before, known, page, behind);
      CutToNothingIs(page);
      outcome, answers, seen, now := TakePages(course, removedAfter, page, known, lo, hi, p, behind);
    }

    /** Where it has to start over. */
    method StartOver(
        course: seq<Server>, removedAfter: Option<nat>, firstPage: LogPage, ghost known: Server, ghost behind: set<nat>)
      returns (outcome: RefreshOutcome, ghost answers: seq<LogPage>, ghost seen: Server, ghost now: Server)
      requires IsCourse(course) && Thinned(known, course[0]) && MirroredExcept(Contents(), known, behind)
      requires ValidServer(known) && IsLogPage(firstPage, known, FirstCursor(nextLogSeq))
      requires AreAnswers(Contents(), course, [firstPage]) && MustRetail(nextLogSeq, firstPage)
      requires removedAfter != Some(0)
      modifies this
      ensures IsWholeRefresh(old(Contents()), course, removedAfter, outcome, answers, Contents())
      ensures answers != [] && answers[0] == firstPage && (removedAfter.None? ==> !outcome.ServiceRemoved?)
      ensures now in course
      ensures known == course[0] && NothingEvicted(course) ==> seen == now
      ensures Leaves(old(Contents()), behind, firstPage, outcome.Refreshed?, Contents(), seen, now)
    {
      ghost var before := Contents();
      assert before.nextLogSeq == nextLogSeq;
      hide *;
      CourseStarts(course);
      CourseGoesOn(course, 0);
      if removedAfter == Some(1) {
        answers := TailRefused(before, course, firstPage);
        NothingApplied(before, known, course[0], behind, firstPage);
        return ServiceRemoved, answers, known, course[0];
      }
      outcome, now := Refreshed, At(course, 1);
      NothingEvictedAt(course, now);
      seen, answers := TakeTail(At(course, 1), firstPage, known, course[0], behind, course, removedAfter);
    }

    /** The first answer is dropped for the server's tail. */
    method TakeTail(
        later: Server, firstPage: LogPage, ghost known: Server, ghost asked: Server, ghost behind: set<nat>,
        ghost course: seq<Server>, ghost removedAfter: Option<nat>)
      returns (ghost seen: Server, ghost answers: seq<LogPage>)
      requires MirroredExcept(Contents(), known, behind) && Thinned(known, asked) && Evolves(asked, later)
      requires course != [] && later == At(course, 1) && AreAnswers(Contents(), course, [firstPage])
      requires removedAfter.Some? ==> removedAfter.value >= 2
      requires ValidServer(known) && IsLogPage(firstPage, known, FirstCursor(nextLogSeq))
      requires MustRetail(nextLogSeq, firstPage)
      modifies this
      ensures known == asked ==> seen == later
      ensures IsWholeRefresh(old(Contents()), course, removedAfter, Refreshed, answers, Contents())
      ensures answers != [] && answers[0] == firstPage
      ensures Leaves(old(Contents()), behind, firstPage, true, Contents(), seen, later)
    {
      ghost var before, fetched := Contents(), PageAppended(Contents(), firstPage.lines);
      ghost var cursor, skipped := nextLogSeq, SkipsNewest(nextLogSeq, firstPage);
      FirstCursorIs(nextLogSeq, firstPage);
      MirroredIsKept(before, known, behind);
      hide *;
      seen := ThinnedEvolves(known, asked, later);
      ThinnedValid(seen, later);
      var tail := RequestLogPage(later, None);
      answers := RestartIsWhole(before, course, removedAfter, firstPage, tail);
      ThinnedAnswers(seen, later, tail, None);
      ReplaceLogTail(tail.lines);
      TailCaughtUp(seen, tail);
      RetailSkipsNothing(before, fetched, Contents(), known, firstPage, asked, later, seen);
      TailLeaves(Contents(), seen, later, behind, fetched, skipped);
      CaughtUpKept(Contents(), seen, behind + {cursor, fetched.nextLogSeq},
                   behind + if skipped then {fetched.nextLogSeq} else {});
      LeavesIs(before, behind, firstPage, true, Contents(), seen, later, fetched, skipped);
    }

    /** Its loop, from the first answer on. */
    method TakePages(
        course: seq<Server>, removedAfter: Option<nat>, firstPage: LogPage,
        ghost known: Server, ghost lo0: nat, ghost hi0: nat, ghost p0: nat, ghost behind: set<nat>)
      returns (outcome: RefreshOutcome, ghost answers: seq<LogPage>, ghost seen: Server, ghost now: Server)
      requires IsCourse(course) && Thinned(known, course[0]) && hi0 <= |known.history|
      requires AreAnswers(Contents(), course, [firstPage]) && !MustRetail(nextLogSeq, firstPage)
      requires removedAfter != Some(0)
      requires Continues(
        Contents(), known, lo0, hi0, firstPage, p0, behind + if CutToNothing(firstPage) then {nextLogSeq} else {})
      requires nextLogSeq > 0 <==> lo0 < hi0
      modifies this
      ensures IsWholeRefresh(old(Contents()), course, removedAfter, outcome, answers, Contents())
      ensures answers != [] && answers[0] == firstPage && (removedAfter.None? ==> !outcome.ServiceRemoved?)
      ensures now in course
      ensures known == course[0] && NothingEvicted(course) ==> seen == now
      ensures Leaves(old(Contents()), behind, firstPage, outcome.Refreshed?, Contents(), seen, now)
    {
      hide Continues, Holds, Agrees, MirroredExcept, CaughtUpExcept, CaughtUp, PageAppended, IsLogPage, StaleAmong,
           LeftStale, LeftBehind, NewestUntouched, KeptExcept, Thinned, Evolves, ValidServer, NothingEvicted,
           IsCourse, At, AreAnswers, NeedsAnswer, RequestAfter, AfterPages, MustRetail, IsWholeRefresh, GivesUp,
           IsComplete, IsCopied, Leaves;
      CourseStarts(course);
      var page, answered := firstPage, 1;
      ghost var before, fetched := Contents(), PageAppended(Contents(), firstPage.lines);
      ghost var cursor, skipped := nextLogSeq, SkipsNewest(nextLogSeq, firstPage);
      ghost var stale := behind + if CutToNothing(page) then {cursor} else {};
      ghost var lo: nat, hi: nat, p: nat := lo0, hi0, p0;
      seen, now := known, At(course, 0);
      ContinuesBounded(before, known, lo, hi, page, p, stale);
      answers := [page];
      FirstPageAppended(before, page);

      AppendLogPage(page.lines);
      lo, hi := PageTaken(before, seen, lo, hi, page, p, stale);
      stale := FirstTaken(before, cursor, Contents(), seen, lo, hi, page, behind);
      while page.truncated
        invariant 1 <= answered == |answers| && answers[0] == firstPage && answers[answered - 1] == page
        invariant AreAnswers(before, course, answers) && Contents() == AfterPages(before, answers)
        invariant answered > 1 ==> page.lines != [] || !page.truncated
        invariant removedAfter.Some? ==> answered <= removedAfter.value
        invariant now == At(course, answered - 1) && now in course && Thinned(seen, now)
        invariant known == course[0] && NothingEvicted(course) ==> seen == now
        invariant ValidServer(seen) && Bounded(Contents()) && Holds(logs, nextLogSeq, seen.history, lo, hi)
        invariant Agrees(logs, seen, lo, stale)
        invariant NewestUntouched(fetched, Contents())
        invariant hi <= |seen.history|
        invariant page.truncated ==> lo < hi && seen.start <= hi && (hi < |seen.history| || nextLogSeq in stale)
        invariant !page.truncated ==> CaughtUpExcept(Contents(), seen, stale)
        invariant fetched.nextLogSeq <= nextLogSeq
        decreases SaturatingSub(|course|, answered), |seen.history| - hi, if page.truncated then 1 else 0
      {
        PositionsKept(Contents(), seen, lo, hi, stale, behind, cursor, fetched.nextLogSeq);
        AsksBeyondCopy(before, answers);
        if removedAfter == Some(answered) {
          RefreshIsWhole(before, course, removedAfter, ServiceRemoved, answers, Contents());
          LeavesIs(before, behind, firstPage, false, Contents(), seen, now, fetched, skipped);
          return ServiceRemoved, answers, seen, now;
        }
        CourseGoesOn(course, answered - 1);
        NothingEvictedAt(course, now);
        NothingEvictedAt(course, At(course, answered));
        seen := CopyOutlastsMove(Contents(), seen, now, At(course, answered), lo, hi, stale);
        now := At(course, answered);
        ThinnedValid(seen, now);
        PositionsKept(Contents(), seen, lo, hi, stale, behind, cursor, fetched.nextLogSeq);
        var next := RequestLogPage(At(course, answered), Some(nextLogSeq));
        ThinnedAnswers(seen, now, next, Some(nextLogSeq));
        AnswersGrow(before, course, answers, next);
        answers := answers + [next];
        if next.lines == [] && next.truncated {
          AsksBeyondCopy(before, answers);
          RefreshIsWhole(before, course, removedAfter, DidNotAdvance, answers, Contents());
          LeavesIs(before, behind, firstPage, false, Contents(), seen, now, fetched, skipped);
          return DidNotAdvance, answers, seen, now;
        }
        ghost var m := Contents();
        NextContinues(m, seen, lo, hi, next, stale);
        AnswerIsNewer(seen, nextLogSeq, next);
        answered := answered + 1;
        page := next;
        AppendLogPage(page.lines);
        lo, hi := PageTaken(m, seen, lo, hi, page, hi, stale);
        PageAppendedFrom(m, page.lines);
        UntouchedByNewer(fetched, m, page.lines);
      }
      PositionsKept(Contents(), seen, lo, hi, stale, behind, cursor, fetched.nextLogSeq);
      RefreshedExactly(fetched, Contents(), seen, behind, skipped);
      ThinnedValid(seen, now);
      SameForRetained(fetched, Contents(), seen, now, behind, skipped);
      AsksBeyondCopy(before, answers);
      RefreshIsWhole(before, course, removedAfter, Refreshed, answers, Contents());
      LeavesIs(before, behind, firstPage, true, Contents(), seen, now, fetched, skipped);
      return Refreshed, answers, seen, now;
    }
  }

  /** The server's state at every request; it stays in the last. */
  ghost predicate IsCourse(course: seq<Server>) {
    && course != [] && ValidServer(course[0])
    && forall i :: 0 <= i < |course| - 1 ==> Evolves(course[i], course[i + 1])
  }

  function At(course: seq<Server>, n: nat): Server
    requires course != []
  {
    course[Min(n, |course| - 1)]
  }

  lemma CourseGoesOn(course: seq<Server>, n: nat)
    requires IsCourse(course)
    ensures Evolves(At(course, n), At(course, n + 1)) && At(course, n) in course && At(course, n + 1) in course
    ensures n + 1 >= |course| ==> At(course, n + 1) == At(course, n)
  {
    if n + 1 < |course| {
      assert Evolves(course[n], course[n + 1]);
    } else if |course| > 1 {
      assert Evolves(course[|course| - 2], course[|course| - 2 + 1]);
    }
  }

  ghost predicate NothingEvicted(course: seq<Server>) {
    forall s :: s in course ==> s.start == course[0].start
  }

  lemma ThinnedValid(v: Server, s: Server)
    requires Thinned(v, s)
    ensures ValidServer(v) && ValidServer(s) && s.start <= |s.history| && v.start <= |v.history|
    ensures Retained(v) == Retained(s)
  {
  }

  lemma NothingAsked(m: MirrorLog, s: Server, now: Server, behind: set<nat>)
    requires MirroredExcept(m, s, behind) && Thinned(s, now)
    ensures Leaves(m, behind, LogPage([], false, None), false, m, s, now)
  {
    NothingApplied(m, s, now, behind, LogPage([], false, None));
  }

  lemma NothingApplied(m: MirrorLog, s: Server, now: Server, behind: set<nat>, page: LogPage)
    requires MirroredExcept(m, s, behind) && Thinned(s, now)
    ensures Leaves(m, behind, page, false, m, s, now)
  {
    var n := PageAppended(m, page.lines).nextLogSeq;
    ThinnedValid(s, now);
    MirroredIsKept(m, s, behind);
    hide PageAppended, MirroredExcept, KeptExcept, SkipsNewest, Thinned;
    KeptWeaken(m, s, behind + {m.nextLogSeq}, behind + {m.nextLogSeq, n});
    MirroredWeaken(m, s, behind, behind + if SkipsNewest(m.nextLogSeq, page) then {n} else {});
  }

  lemma LeavesIs(
      m: MirrorLog, behind: set<nat>, first: LogPage, complete: bool, after: MirrorLog, seen: Server, now: Server,
      fetched: MirrorLog, skipped: bool)
    requires fetched == PageAppended(m, first.lines) && skipped == SkipsNewest(m.nextLogSeq, first)
    requires Thinned(seen, now)
    requires now.start <= |now.history| && complete ==>
      && CaughtUpExcept(after, seen, LeftBehind(behind, fetched, after, now, skipped))
      && (CaughtUp(after, seen) <==> !(skipped && LeftStale(fetched, after, now)) && !StaleAmong(after, now, behind))
    requires KeptExcept(after, seen, behind + {m.nextLogSeq, fetched.nextLogSeq})
    requires MirroredExcept(after, seen, behind + if skipped then {fetched.nextLogSeq} else {})
    ensures Leaves(m, behind, first, complete, after, seen, now)
  {
    ThinnedValid(seen, now);
    hide PageAppended, CaughtUpExcept, CaughtUp, LeftBehind, LeftStale, StaleAmong, KeptExcept, MirroredExcept,
         SkipsNewest, Thinned;
  }

  lemma FirstCursorAt(cursor: nat)
    ensures FirstCursor(cursor) == if cursor > 0 then Some(cursor - 1) else None
  {
  }

  lemma CutToNothingIs(page: LogPage)
    ensures CutToNothing(page) <==> page.lines == [] && page.truncated
  {
  }

  lemma MirroredIsKept(m: MirrorLog, s: Server, behind: set<nat>)
    requires MirroredExcept(m, s, behind)
    ensures KeptExcept(m, s, behind + {m.nextLogSeq}) && Bounded(m)
  {
  }

  lemma KeptWeaken(m: MirrorLog, s: Server, a: set<nat>, b: set<nat>)
    requires KeptExcept(m, s, a) && a <= b
    ensures KeptExcept(m, s, b)
  {
    var lo: nat, hi: nat :| Holds(m.logs, m.nextLogSeq, s.history, lo, hi) && Agrees(m.logs, s, lo, a);
    AgreesWeaken(m.logs, s, lo, a, b);
  }

  lemma MirroredWeaken(m: MirrorLog, s: Server, a: set<nat>, b: set<nat>)
    requires MirroredExcept(m, s, a) && a <= b
    ensures MirroredExcept(m, s, b)
  {
    var lo: nat, hi: nat :|
      Holds(m.logs, m.nextLogSeq, s.history, lo, hi) && Agrees(m.logs, s, lo, a + {m.nextLogSeq});
    AgreesWeaken(m.logs, s, lo, a + {m.nextLogSeq}, b + {m.nextLogSeq});
  }

  lemma MirroredFrom(m: MirrorLog, s: Server, lo: nat, hi: nat, stale: set<nat>)
    requires ValidServer(s) && Bounded(m) && Holds(m.logs, m.nextLogSeq, s.history, lo, hi)
    requires Agrees(m.logs, s, lo, stale)
    ensures MirroredExcept(m, s, stale) && KeptExcept(m, s, stale)
  {
    AgreesWeaken(m.logs, s, lo, stale, stale + {m.nextLogSeq});
  }

  lemma PositionsKept(
      m: MirrorLog, s: Server, lo: nat, hi: nat, stale: set<nat>, behind: set<nat>, cursor: nat, fetched: nat)
    requires ValidServer(s) && Bounded(m) && Holds(m.logs, m.nextLogSeq, s.history, lo, hi)
    requires Agrees(m.logs, s, lo, stale) && stale <= behind + {fetched}
    ensures KeptExcept(m, s, behind + {cursor, fetched}) && MirroredExcept(m, s, stale)
  {
    MirroredFrom(m, s, lo, hi, stale);
    hide KeptExcept, MirroredExcept;
    KeptWeaken(m, s, stale, behind + {cursor, fetched});
  }

  lemma CaughtUpKept(m: MirrorLog, s: Server, kept: set<nat>, behind: set<nat>)
    requires CaughtUp(m, s)
    ensures KeptExcept(m, s, kept) && MirroredExcept(m, s, behind)
  {
    CaughtUpIsMirrored(m, s);
    MirroredWeaken(m, s, {}, behind);
    var lo: nat, hi: nat :| Holds(m.logs, m.nextLogSeq, s.history, lo, hi) && Agrees(m.logs, s, lo, {});
    AgreesWeaken(m.logs, s, lo, {}, kept);
  }

  /** Staleness is about what the server retains. */
  lemma SameForRetained(
      fetched: MirrorLog, m: MirrorLog, v: Server, s: Server, behind: set<nat>, skipped: bool)
    requires v.start <= |v.history| && s.start <= |s.history| && Retained(v) == Retained(s)
    ensures LeftStale(fetched, m, v) == LeftStale(fetched, m, s) && StaleAmong(m, v, behind) == StaleAmong(m, s, behind)
    ensures LeftBehind(behind, fetched, m, v, skipped) == LeftBehind(behind, fetched, m, s, skipped)
  {
  }

  /** Starting over leaves nothing behind. */
  lemma TailLeaves(m: MirrorLog, v: Server, s: Server, behind: set<nat>, fetched: MirrorLog, skipped: bool)
    requires CaughtUp(m, v) && Thinned(v, s) && s.start <= |s.history|
    requires v.start <= |v.history| && (skipped ==> !LeftStale(fetched, m, v))
    ensures CaughtUpExcept(m, v, LeftBehind(behind, fetched, m, s, skipped))
    ensures !(skipped && LeftStale(fetched, m, s)) && !StaleAmong(m, s, behind)
  {
    ThinnedValid(v, s);
    SameForRetained(fetched, m, v, s, behind, skipped);
    CaughtUpWeaken(m, v, {}, behind);
    hide Thinned, LeftStale;
    CaughtUpExceptExactly(m, v, behind);
  }

  lemma ContinuesBounded(m: MirrorLog, s: Server, lo: nat, hi: nat, page: LogPage, p: nat, stale: set<nat>)
    requires Continues(m, s, lo, hi, page, p, stale)
    ensures ValidServer(s) && Bounded(m)
  {
  }

  lemma FirstPageAppended(m: MirrorLog, page: LogPage)
    ensures AfterPages(m, [page]) == PageAppended(m, page.lines)
  {
    hide PageAppended;
    assert [page][..0] == [] && AfterPages(m, []) == m;
  }

  lemma CourseStarts(course: seq<Server>)
    requires IsCourse(course)
    ensures course != [] && At(course, 0) == course[0] && course[0] in course && ValidServer(course[0])
  {
  }

  /** What the first answer leaves to be brought up to date. */
  lemma FirstTaken(before: MirrorLog, cursor: nat, m: MirrorLog, s: Server, lo: nat, hi: nat, first: LogPage,
      behind: set<nat>)
    returns (left: set<nat>)
    requires cursor == before.nextLogSeq && Bounded(before) && m == PageAppended(before, first.lines)
    requires ValidServer(s) && Bounded(m) && Holds(m.logs, m.nextLogSeq, s.history, lo, hi)
    requires Agrees(m.logs, s, lo, behind + if CutToNothing(first) then {cursor} else {})
    requires !first.truncated ==> CaughtUpExcept(m, s, behind + if CutToNothing(first) then {cursor} else {})
    ensures left == behind + if SkipsNewest(cursor, first) then {m.nextLogSeq} else {}
    ensures Agrees(m.logs, s, lo, left) && NewestUntouched(m, m)
    ensures !first.truncated ==> CaughtUpExcept(m, s, left)
  {
    left := behind + if SkipsNewest(cursor, first) then {m.nextLogSeq} else {};
    if first.lines == [] {
      EmptyPageAppended(before);
    }
    hide PageAppended, CaughtUpExcept, NewestUntouched;
    AgreesWeaken(m.logs, s, lo, behind + if CutToNothing(first) then {cursor} else {}, left);
    UntouchedAtFirst(m, s, lo, hi);
  }

  lemma NothingEvictedAt(course: seq<Server>, s: Server)
    requires s in course
    ensures NothingEvicted(course) ==> s.start == course[0].start
  {
  }
}
