/**
 One answer after the other: what each request of a refresh makes of a mirrored log, and which
 records it leaves out of date (crates/micromux-tui/src/remote.rs, `refresh_logs`). The server may do
 anything between two answers, evict what was still to be asked for included.
 */
module MirrorPages {
  import opened LogBuffer
  import opened Mirror
  import opened Prelude
  import opened Replication

  /** What the next request of a refresh is for. */
  datatype Stage = First | Next | Tail

  function CursorAt(stage: Stage, m: MirrorLog): Option<nat> {
    match stage
    case First => FirstCursor(m.nextLogSeq)
    case Next => Some(m.nextLogSeq)
    case Tail => None
  }

  /** The invariant against a server whose unseen, evicted records do not count. */
  ghost predicate Tracks(m: MirrorLog, s: Server, behind: set<nat>) {
    exists v :: Thinned(v, s) && MirroredExcept(m, v, behind)
  }

  ghost predicate CaughtUpTo(m: MirrorLog, s: Server, behind: set<nat>) {
    exists v :: Thinned(v, s) && CaughtUpExcept(m, v, behind)
  }

  /** The mirror is what it should be: `CaughtUpShowsRetained` reads it off the two copies. */
  ghost predicate Shows(m: MirrorLog, s: Server) {
    CaughtUpTo(m, s, {})
  }

  function NumbersOf(lines: seq<LogLine>): set<nat> {
    set l | l in lines :: l.seqNo
  }

  /** The newest copied record, if the server retains it with another text. */
  ghost function Replaced(m: MirrorLog, s: Server): set<nat>
    requires s.start <= |s.history|
  {
    if m.logs != [] && exists r :: r in Retained(s) && r.seqNo == m.nextLogSeq && r != m.logs[|m.logs| - 1]
    then {m.nextLogSeq} else {}
  }

  /** What is out of date after one answer. */
  ghost function BehindAfter(stage: Stage, m: MirrorLog, s: Server, page: LogPage, behind: set<nat>): set<nat>
    requires s.start <= |s.history|
  {
    match stage
    case First => behind - NumbersOf(page.lines)
    case Next => behind + Replaced(m, s)
    case Tail => {}
  }

  function Taken(stage: Stage, m: MirrorLog, page: LogPage): MirrorLog {
    if stage.Tail? then TailReplaced(page.lines) else PageAppended(m, page.lines)
  }

  // ---------------------------------------------------------------- between answers

  lemma EmptyTracks(s: Server)
    requires ValidServer(s)
    ensures Tracks(EMPTY_MIRROR, s, {})
  {
    ThinnedSelf(s);
    EmptyIsMirrored(s);
    hide *;
    TracksAt(EMPTY_MIRROR, s, s, {});
  }

  lemma TracksAt(m: MirrorLog, v: Server, s: Server, behind: set<nat>)
    requires Thinned(v, s) && MirroredExcept(m, v, behind)
    ensures Tracks(m, s, behind)
  {
  }

  lemma CaughtUpToAt(m: MirrorLog, v: Server, s: Server, behind: set<nat>)
    requires Thinned(v, s) && CaughtUpExcept(m, v, behind)
    ensures CaughtUpTo(m, s, behind)
  {
  }

  /** Whatever the server does. */
  lemma TracksOn(m: MirrorLog, s: Server, t: Server, behind: set<nat>)
    requires Tracks(m, s, behind) && Evolves(s, t)
    ensures Tracks(m, t, behind)
  {
    var v :| Thinned(v, s) && MirroredExcept(m, v, behind);
    hide *;
    var w := NextRefreshMayStart(m, v, s, t, behind);
    TracksAt(m, w, t, behind);
  }

  lemma TracksValid(m: MirrorLog, s: Server, behind: set<nat>)
    requires Tracks(m, s, behind)
    ensures ValidServer(s)
  {
  }

  lemma CaughtUpTracks(m: MirrorLog, s: Server, behind: set<nat>)
    requires CaughtUpTo(m, s, behind)
    ensures Tracks(m, s, behind)
  {
    var v :| Thinned(v, s) && CaughtUpExcept(m, v, behind);
    hide Thinned;
    assert MirroredExcept(m, v, behind) by {
      var lo: nat, hi: nat :| Holds(m.logs, m.nextLogSeq, v.history, lo, hi) && Agrees(m.logs, v, lo, behind);
      AgreesWeaken(m.logs, v, lo, behind, behind + {m.nextLogSeq});
    }
  }

  // ---------------------------------------------------------------- one answer

  lemma NumbersAreNumbers(s: Server, p: nat, lines: seq<LogLine>)
    requires p + |lines| <= |s.history| && lines == s.history[p..p + |lines|]
    ensures NumbersOf(lines) == Numbers(s, p, p + |lines|)
  {
    forall n | n in Numbers(s, p, p + |lines|) ensures n in NumbersOf(lines) {
      var i :| p <= i < p + |lines| && s.history[i].seqNo == n;
      assert lines[i - p] in lines;
    }
    forall n | n in NumbersOf(lines) ensures n in Numbers(s, p, p + |lines|) {
      var l :| l in lines && l.seqNo == n;
      var i :| 0 <= i < |lines| && lines[i] == l;
      assert s.history[p + i].seqNo == n;
    }
  }

  /** What was refetched is right again. */
  lemma ContinuesWithout(
      m: MirrorLog, s: Server, lo: nat, hi: nat, page: LogPage, p: nat, behind: set<nat>, left: set<nat>)
    requires Continues(m, s, lo, hi, page, p, behind) && left == behind - NumbersOf(page.lines)
    ensures Continues(m, s, lo, hi, page, p, left)
  {
    NumbersAreNumbers(s, p, page.lines);
    var q := p + |page.lines|;
    var pending :| Agrees(m.logs, s, lo, pending) && pending - Numbers(s, p, q) <= behind;
    hide Holds, Agrees, IsPageAt, ValidServer, Bounded;
    assert pending - Numbers(s, p, q) <= left;
  }

  lemma PageTracks(
      m: MirrorLog, v: Server, s: Server, lo: nat, hi: nat, page: LogPage, p: nat, left: set<nat>)
    requires Continues(m, v, lo, hi, page, p, left) && Thinned(v, s)
    ensures Tracks(PageAppended(m, page.lines), s, left)
    ensures !page.truncated ==> CaughtUpTo(PageAppended(m, page.lines), s, left)
  {
    hide *;
    var r := PageAppended(m, page.lines);
    var lo': nat, hi': nat := PageTaken(m, v, lo, hi, page, p, left);
    MirroredFrom(r, v, lo', hi', left);
    TracksAt(r, v, s, left);
    if !page.truncated {
      CaughtUpToAt(r, v, s, left);
    }
  }

  lemma ServedPage(s: Server, page: LogPage, after: Option<nat>)
    requires ValidServer(s) && IsServedPage(page, s, after)
    ensures IsLogPage(page, s, after) && (page.truncated ==> page.lines != [])
  {
    hide IsLogPage;
  }

  /** A first answer that the refresh goes on from. */
  lemma FirstTracks(m: MirrorLog, s: Server, page: LogPage, behind: set<nat>)
    requires Tracks(m, s, behind) && ValidServer(s) && IsServedPage(page, s, FirstCursor(m.nextLogSeq))
    requires !MustRetail(m.nextLogSeq, page)
    ensures Tracks(PageAppended(m, page.lines), s, behind - NumbersOf(page.lines))
    ensures !page.truncated ==> CaughtUpTo(PageAppended(m, page.lines), s, behind - NumbersOf(page.lines))
  {
    var v :| Thinned(v, s) && MirroredExcept(m, v, behind);
    var after := FirstCursor(m.nextLogSeq);
    assert after == if m.nextLogSeq > 0 then Some(m.nextLogSeq - 1) else None;
    hide *;
    ServedPage(s, page, after);
    ThinnedAnswers(v, s, page, after);
    var lo: nat, hi: nat, p: nat, stale := FirstContinues(m, v, page, behind);
    assert stale == behind;
    ContinuesWithout(m, v, lo, hi, page, p, behind, behind - NumbersOf(page.lines));
    PageTracks(m, v, s, lo, hi, page, p, behind - NumbersOf(page.lines));
  }

  /** With a copy, positions in a server that evicted nothing the client did not ask for. */
  lemma CopyPositionsAt(m: MirrorLog, s: Server, behind: set<nat>) returns (v: Server, lo: nat, hi: nat)
    requires Tracks(m, s, behind) && m.logs != []
    ensures Thinned(v, s) && ValidServer(v) && Bounded(m) && Holds(m.logs, m.nextLogSeq, v.history, lo, hi)
    ensures Agrees(m.logs, v, lo, behind + {m.nextLogSeq}) && lo < hi && v.start <= hi
  {
    var u :| Thinned(u, s) && MirroredExcept(m, u, behind);
    lo, hi :| Holds(m.logs, m.nextLogSeq, u.history, lo, hi) && Agrees(m.logs, u, lo, behind + {m.nextLogSeq});
    hide Thinned, Ascending;
    if u.start <= hi {
      v := u;
      ThinnedValid(u, s);
    } else {
      v := UnseenForgotten(u, s, hi);
      ThinnedValid(v, s);
      SamePrefixHolds(m, u, v, lo, hi);
      AgreesWeaken(m.logs, v, lo, {}, behind + {m.nextLogSeq});
    }
  }

  /** The newest copied record is right, unless it was replaced. */
  lemma AgreesButReplaced(m: MirrorLog, v: Server, lo: nat, hi: nat, behind: set<nat>)
    requires ValidServer(v) && lo < hi && Holds(m.logs, m.nextLogSeq, v.history, lo, hi)
    requires Agrees(m.logs, v, lo, behind + {m.nextLogSeq})
    ensures Agrees(m.logs, v, lo, behind + Replaced(m, v))
  {
    forall i | 0 <= i < |m.logs| && v.start <= lo + i && m.logs[i].seqNo !in behind + Replaced(m, v)
      ensures m.logs[i] == v.history[lo + i]
    {
      if m.logs[i].seqNo == m.nextLogSeq {
        SameNumberSamePlace(v.history, lo + i, hi - 1);
        assert Retained(v)[lo + i - v.start] in Retained(v);
      }
    }
  }

  lemma ReplacedByRetained(m: MirrorLog, v: Server, s: Server)
    requires Thinned(v, s) && v.start <= |v.history| && s.start <= |s.history|
    ensures Replaced(m, v) == Replaced(m, s)
  {
    ThinnedValid(v, s);
  }

  /** An answer to a request beyond everything copied so far. */
  lemma NextTracks(m: MirrorLog, s: Server, page: LogPage, behind: set<nat>)
    requires Tracks(m, s, behind) && ValidServer(s) && m.logs != [] && IsServedPage(page, s, Some(m.nextLogSeq))
    ensures s.start <= |s.history|
    ensures Tracks(PageAppended(m, page.lines), s, behind + Replaced(m, s))
    ensures !page.truncated ==> CaughtUpTo(PageAppended(m, page.lines), s, behind + Replaced(m, s))
  {
    assert s.start <= |s.history|;
    hide *;
    var v, lo: nat, hi: nat := CopyPositionsAt(m, s, behind);
    ThinnedValid(v, s);
    ReplacedByRetained(m, v, s);
    AgreesButReplaced(m, v, lo, hi, behind);
    ServedPage(s, page, Some(m.nextLogSeq));
    ThinnedAnswers(v, s, page, Some(m.nextLogSeq));
    NextContinues(m, v, lo, hi, page, behind + Replaced(m, s));
    PageTracks(m, v, s, lo, hi, page, hi, behind + Replaced(m, s));
  }

  lemma TailTracks(s: Server, page: LogPage)
    requires ValidServer(s) && IsServedPage(page, s, None)
    ensures CaughtUpTo(TailReplaced(page.lines), s, {})
  {
    ThinnedSelf(s);
    hide *;
    ServedPage(s, page, None);
    TailCaughtUp(s, page);
    CaughtUpIsTo(TailReplaced(page.lines), s);
  }

  lemma CaughtUpIsTo(m: MirrorLog, s: Server)
    requires CaughtUp(m, s) && Thinned(s, s)
    ensures CaughtUpTo(m, s, {})
  {
  }

  /** Any answer of a refresh, at any server. */
  lemma AnswerTracks(stage: Stage, m: MirrorLog, s: Server, page: LogPage, behind: set<nat>)
    requires Tracks(m, s, behind) && ValidServer(s) && IsServedPage(page, s, CursorAt(stage, m))
    requires stage.First? ==> !MustRetail(m.nextLogSeq, page)
    requires stage.Next? ==> m.logs != []
    ensures s.start <= |s.history|
    ensures Tracks(Taken(stage, m, page), s, BehindAfter(stage, m, s, page, behind))
    ensures stage.Tail? || !page.truncated ==>
      CaughtUpTo(Taken(stage, m, page), s, BehindAfter(stage, m, s, page, behind))
  {
    assert s.start <= |s.history|;
    hide Tracks, CaughtUpTo, PageAppended, TailReplaced, IsServedPage, MustRetail, ValidServer, Replaced;
    match stage
    case First => FirstTracks(m, s, page, behind);
    case Next => NextTracks(m, s, page, behind);
    case Tail =>
      TailTracks(s, page);
      CaughtUpTracks(TailReplaced(page.lines), s, {});
  }

  // ---------------------------------------------------------------- what it means

  /** Catching up but for some records is catching up, exactly if none of those is stale. */
  lemma ShowsExactly(m: MirrorLog, s: Server, behind: set<nat>)
    requires CaughtUpTo(m, s, behind)
    ensures ValidServer(s) && (Shows(m, s) <==> !StaleAmong(m, s, behind))
  {
    var v :| Thinned(v, s) && CaughtUpExcept(m, v, behind);
    ThinnedValid(v, s);
    CaughtUpExceptExactly(m, v, behind);
    hide Thinned, CaughtUpExcept, ValidServer;
    SameForRetained(m, m, v, s, behind, false);
    if Shows(m, s) {
      ShowsNoStale(m, s, behind);
    }
  }

  lemma ShowsNoStale(m: MirrorLog, s: Server, behind: set<nat>)
    requires Shows(m, s) && s.start <= |s.history|
    ensures !StaleAmong(m, s, behind)
  {
    var v :| Thinned(v, s) && CaughtUpExcept(m, v, {});
    ThinnedValid(v, s);
    hide Thinned, CaughtUpExcept;
    CaughtUpShowsRetained(m, v, s);
  }

  // ---------------------------------------------------------------- which refreshes leave records behind

  lemma {:induction false} LinesAppendedConcat(logs: seq<LogLine>, next: nat, a: seq<LogLine>, b: seq<LogLine>)
    ensures LinesAppended(logs, next, a + b)
         == (var r := LinesAppended(logs, next, a); LinesAppended(r.0, r.1, b))
    decreases |b|
  {
    hide LineAppended;
    if b == [] {
      assert a + b == a;
    } else {
      var n := |b| - 1;
      assert (a + b)[..|a| + n] == a + b[..n];
      LinesAppendedConcat(logs, next, a, b[..n]);
    }
  }

  lemma {:induction false} NeverEmptied(logs: seq<LogLine>, next: nat, lines: seq<LogLine>)
    requires logs != []
    ensures LinesAppended(logs, next, lines).0 != []
  {
    if lines != [] {
      NeverEmptied(logs, next, lines[..|lines| - 1]);
    }
  }

  /** A page with lines leaves a copy. */
  lemma {:induction false} PageIsHeld(m: MirrorLog, s: Server, behind: set<nat>, lines: seq<LogLine>)
    requires Tracks(m, s, behind) && lines != [] && forall l :: l in lines ==> 1 <= l.seqNo
    ensures PageAppended(m, lines).logs != []
  {
    if m.logs != [] {
      NeverEmptied(m.logs, m.nextLogSeq, lines);
    } else {
      NothingCopied(m, s, behind);
      var first := lines[0];
      assert first in lines && lines == [first] + lines[1..];
      assert LinesAppended([], 0, [first]).0 == [first] by {
        LinesAppendedStep([], 0, [], first);
        assert [] + [first] == [first];
      }
      LinesAppendedConcat([], 0, [first], lines[1..]);
      NeverEmptied([first], LinesAppended([], 0, [first]).1, lines[1..]);
    }
  }

  lemma NothingCopied(m: MirrorLog, s: Server, behind: set<nat>)
    requires Tracks(m, s, behind) && m.logs == []
    ensures m == EMPTY_MIRROR
  {
  }

  lemma NewestCopied(m: MirrorLog, s: Server, behind: set<nat>)
    requires Tracks(m, s, behind) && m.logs != []
    ensures m.logs[|m.logs| - 1].seqNo == m.nextLogSeq > 0
  {
  }

  lemma {:induction false} NewestAgainAppended(logs: seq<LogLine>, next: nat, lines: seq<LogLine>)
    requires logs != [] && logs[|logs| - 1].seqNo == next && lines != [] && lines[0].seqNo == next
    requires Ascending(lines) && forall l :: l in lines[1..] ==> next < l.seqNo
    ensures LinesAppended(logs, next, lines) == (logs[..|logs| - 1] + lines, lines[|lines| - 1].seqNo)
  {
    var first, rest, kept := lines[0], lines[1..], logs[..|logs| - 1];
    assert LinesAppended(logs, next, [first]) == (kept + [first], next) by {
      LinesAppendedStep(logs, next, [], first);
      assert [] + [first] == [first];
    }
    AscendingSuffix(lines, 1);
    assert lines == [first] + rest && kept + [first] + rest == kept + lines;
    hide LinesAppended, Ascending;
    LinesAppendedConcat(logs, next, [first], rest);
    NewerLinesAllAppended(kept + [first], next, rest);
  }

  lemma {:induction false} PageEnds(m: MirrorLog, lines: seq<LogLine>, logs: seq<LogLine>)
    requires lines != [] && LinesAppended(m.logs, m.nextLogSeq, lines) == (logs + lines, lines[|lines| - 1].seqNo)
    ensures var r := PageAppended(m, lines);
      && r.logs != [] && r.logs[|r.logs| - 1] == lines[|lines| - 1] && r.nextLogSeq == lines[|lines| - 1].seqNo
  {
    hide LinesAppended;
  }

  lemma {:induction false} RestIsHigher(lines: seq<LogLine>)
    requires Ascending(lines) && lines != []
    ensures forall l :: l in lines ==> lines[0].seqNo <= l.seqNo
    ensures forall l :: l in lines[1..] ==> lines[0].seqNo < l.seqNo
  {
    forall i | 0 < i < |lines| ensures lines[0].seqNo < lines[i].seqNo {
      AscendingAt(lines, 0, i);
    }
  }

  /** The last line of an answer is the newest copied one. */
  lemma {:induction false} LastLineTaken(m: MirrorLog, lines: seq<LogLine>)
    requires m.logs != [] && m.logs[|m.logs| - 1].seqNo == m.nextLogSeq
    requires lines != [] && Ascending(lines) && m.nextLogSeq <= lines[0].seqNo
    ensures var r := PageAppended(m, lines);
      && r.logs != [] && r.logs[|r.logs| - 1] == lines[|lines| - 1] && r.nextLogSeq == lines[|lines| - 1].seqNo
  {
    RestIsHigher(lines);
    hide *;
    if m.nextLogSeq < lines[0].seqNo {
      NewerLinesAllAppended(m.logs, m.nextLogSeq, lines);
      PageEnds(m, lines, m.logs);
    } else {
      NewestAgainAppended(m.logs, m.nextLogSeq, lines);
      PageEnds(m, lines, m.logs[..|m.logs| - 1]);
    }
  }

  lemma ServedFromOne(s: Server, page: LogPage, after: Option<nat>)
    requires ValidServer(s) && IsServedPage(page, s, after)
    ensures forall l :: l in page.lines ==> 1 <= l.seqNo
  {
    var p := match after case Some(cursor) => SinceFrom(s, cursor, s.start) case None => |s.history| - |page.lines|;
    forall i | 0 <= i < |page.lines| ensures 1 <= page.lines[i].seqNo {
      assert page.lines[i] == s.history[p + i];
    }
  }

  lemma TracksBounded(m: MirrorLog, s: Server, behind: set<nat>)
    requires Tracks(m, s, behind)
    ensures Bounded(m)
  {
  }

  /** The last line of any answer, into an empty copy too. */
  lemma LastLineCopied(m: MirrorLog, s: Server, behind: set<nat>, lines: seq<LogLine>)
    requires Tracks(m, s, behind) && lines != [] && Ascending(lines) && m.nextLogSeq <= lines[0].seqNo
    requires forall l :: l in lines ==> 1 <= l.seqNo
    ensures var r := PageAppended(m, lines);
      && r.logs != [] && r.logs[|r.logs| - 1] == lines[|lines| - 1] && r.nextLogSeq == lines[|lines| - 1].seqNo
  {
    if m.logs == [] {
      NothingCopied(m, s, behind);
      hide *;
      NewerLinesAllAppended([], 0, lines);
      assert EMPTY_MIRROR == MirrorLog([], 0, None) by { EmptyIs(); }
      PageEnds(m, lines, []);
    } else {
      NewestCopied(m, s, behind);
      hide *;
      LastLineTaken(m, lines);
    }
  }

  lemma EmptyIs()
    ensures EMPTY_MIRROR == MirrorLog([], 0, None)
  {
  }

  lemma TailAscends(s: Server, page: LogPage) returns (p: nat)
    requires ValidServer(s) && IsLogPage(page, s, None)
    ensures p + |page.lines| <= |s.history| && page.lines == s.history[p..p + |page.lines|] && Ascending(page.lines)
  {
    p := |s.history| - |page.lines|;
    AscendingSuffix(s.history, p);
    assert page.lines == s.history[p..p + |page.lines|];
  }

  /** A shortened answer ends on a record as the server has it. */
  lemma FreshAfter(stage: Stage, m: MirrorLog, s: Server, page: LogPage, behind: set<nat>)
    requires Tracks(m, s, behind) && ValidServer(s) && !stage.Tail? && page.truncated
    requires IsServedPage(page, s, CursorAt(stage, m))
    ensures s.start <= |s.history| && PageAppended(m, page.lines).logs != []
    ensures Replaced(PageAppended(m, page.lines), s) == {}
  {
    hide *;
    ServedPage(s, page, CursorAt(stage, m));
    ServedFromOne(s, page, CursorAt(stage, m));
    var p: nat := PageLies(stage, m, s, page);
    LastLineCopied(m, s, behind, page.lines);
    FreshLast(PageAppended(m, page.lines), s, p, |page.lines|);
  }

  lemma PageLies(stage: Stage, m: MirrorLog, s: Server, page: LogPage) returns (p: nat)
    requires ValidServer(s) && !stage.Tail? && IsLogPage(page, s, CursorAt(stage, m)) && page.lines != []
    ensures p + |page.lines| <= |s.history| && page.lines == s.history[p..p + |page.lines|]
    ensures Ascending(page.lines) && m.nextLogSeq <= page.lines[0].seqNo
  {
    hide IsLogPage, Ascending;
    if stage.First? && m.nextLogSeq == 0 {
      p := TailAscends(s, page);
    } else {
      p := AnswerAscends(s, if stage.First? then m.nextLogSeq - 1 else m.nextLogSeq, page);
      assert page.lines[0] in page.lines;
    }
  }

  lemma FreshLast(r: MirrorLog, s: Server, p: nat, n: nat)
    requires ValidServer(s) && n > 0 && p + n <= |s.history| && r.logs != []
    requires r.logs[|r.logs| - 1] == s.history[p + n - 1] && r.nextLogSeq == s.history[p + n - 1].seqNo
    ensures s.start <= |s.history| && Replaced(r, s) == {}
  {
    forall l | l in Retained(s) && l.seqNo == r.nextLogSeq ensures l == r.logs[|r.logs| - 1] {
      var j :| 0 <= j < |Retained(s)| && Retained(s)[j] == l;
      SameNumberSamePlace(s.history, p + n - 1, s.start + j);
    }
  }

  lemma AnswerAscends(s: Server, after: nat, page: LogPage) returns (p: nat)
    requires ValidServer(s) && IsLogPage(page, s, Some(after))
    ensures p + |page.lines| <= |s.history| && page.lines == s.history[p..p + |page.lines|]
    ensures page.truncated ==> p + |page.lines| < |s.history|
    ensures Ascending(page.lines) && forall l :: l in page.lines ==> after < l.seqNo
  {
    AnswerIsNewer(s, after, page);
    p := PagePosition(s, after, page);
  }

  /**
   Only hydrations leave records behind. In a refresh of a mirror that holds any, a shortened answer
   does not end on the server's newest record, so that its last line stays as it is.
   */
  lemma OnlyHydrationsOutdate(stage: Stage, m: MirrorLog, s: Server, page: LogPage, t: Server)
    requires !stage.Tail? && m.logs != [] && m.logs[|m.logs| - 1].seqNo == m.nextLogSeq > 0
    requires ValidServer(s) && IsServedPage(page, s, CursorAt(stage, m)) && page.truncated && Evolves(s, t)
    ensures t.start <= |t.history| && Replaced(Taken(stage, m, page), t) == {}
  {
    hide *;
    var after: nat := StageCursor(stage, m, page);
    ServedPage(s, page, Some(after));
    var p: nat := AnswerAscends(s, after, page);
    assert page.lines[0] in page.lines;
    LastLineTaken(m, page.lines);
    LastStays(PageAppended(m, page.lines), s, p, |page.lines|, t);
  }

  lemma StageCursor(stage: Stage, m: MirrorLog, page: LogPage) returns (after: nat)
    requires !stage.Tail? && m.nextLogSeq > 0
    ensures CursorAt(stage, m) == Some(after) && m.nextLogSeq <= after + 1
    ensures Taken(stage, m, page) == PageAppended(m, page.lines)
  {
    hide PageAppended, TailReplaced;
    after := if stage.First? then m.nextLogSeq - 1 else m.nextLogSeq;
  }

  lemma LastStays(r: MirrorLog, s: Server, p: nat, n: nat, t: Server)
    requires Evolves(s, t) && n > 0 && p + n < |s.history| && r.logs != []
    requires r.logs[|r.logs| - 1] == s.history[p + n - 1] && r.nextLogSeq == s.history[p + n - 1].seqNo
    ensures t.start <= |t.history| && Replaced(r, t) == {}
  {
    forall l | l in Retained(t) && l.seqNo == r.nextLogSeq ensures l == r.logs[|r.logs| - 1] {
      var j :| 0 <= j < |Retained(t)| && Retained(t)[j] == l;
      SameNumberSamePlace(t.history, p + n - 1, t.start + j);
    }
  }
}
