/**
 Whole runs of the attach client's mirror (crates/micromux-tui/src/remote.rs): refreshes page by page,
 starting over from the server's tail, the clear after an acknowledged restart and the hydration
 that follows it, while the server moves on. They are what happens between two passes of the view.
 */
module MirrorRuns {
  import opened LogBuffer
  import opened Mirror
  import opened MirrorPages
  import opened Prelude
  import opened Replication
  import opened ViewCache

  datatype MirrorEvent =
    | Refreshed(pages: seq<LogPage>, during: seq<Server>)         // one refresh, as far as it got
    | Retailed(page: LogPage, later: Server, tail: LogPage)       // its first answer, and the tail
    | Cleared                                                     // a reconcile after a restart
    | ServerMoved(later: Server)

  /** The answers of one refresh, and the server as it was at each; it may stop early. */
  ghost predicate IsRefresh(m: MirrorLog, pages: seq<LogPage>, during: seq<Server>) {
    && 0 < |pages| == |during| && ValidServer(during[0])
    && IsServedPage(pages[0], during[0], FirstCursor(m.nextLogSeq)) && !MustRetail(m.nextLogSeq, pages[0])
    && forall i :: 0 < i < |pages| ==> GoesOn(m, pages, during, i)
  }

  /** Page `i` answers a request after everything copied before it. */
  ghost predicate GoesOn(m: MirrorLog, pages: seq<LogPage>, during: seq<Server>, i: nat)
    requires 0 < i < |pages| == |during|
  {
    && pages[i - 1].truncated && Evolves(during[i - 1], during[i])
    && IsServedPage(pages[i], during[i], Some(AfterPages(m, pages[..i]).nextLogSeq))
  }

  ghost predicate Happens(m: MirrorLog, s: Server, e: MirrorEvent, m': MirrorLog, s': Server)
    requires ValidServer(s)
  {
    match e
    case Refreshed(pages, during) =>
      && IsRefresh(m, pages, during) && during[0] == s && during[|during| - 1] == s' && m' == AfterPages(m, pages)
    case Retailed(page, later, tail) =>
      && m.nextLogSeq > 0 && IsServedPage(page, s, FirstCursor(m.nextLogSeq)) && MustRetail(m.nextLogSeq, page)
      && Evolves(s, later) && s' == later && IsServedPage(tail, later, None) && m' == TailReplaced(tail.lines)
    case Cleared => s' == s && m' == TailReplaced([])
    case ServerMoved(later) => Evolves(s, later) && s' == later && m' == m
  }

  /** The events that empty the mirror: after them it says nothing about what it held. */
  predicate Clears(e: MirrorEvent) {
    e.Cleared? || (e.Retailed? && e.tail.lines == [])
  }

  ghost predicate IsMirrorRun(ms: seq<MirrorLog>, ss: seq<Server>, events: seq<MirrorEvent>) {
    && |ms| == |ss| == |events| + 1 && ms[0] == EMPTY_MIRROR
    && (forall i :: 0 <= i < |ss| ==> ValidServer(ss[i]))
    && forall i :: 0 <= i < |events| ==> Happens(ms[i], ss[i], events[i], ms[i + 1], ss[i + 1])
  }

  /**
   Between two answers the server evicts nothing that the client is yet to ask for, and behind a tail
   that goes without the oldest records it replaces nothing.
   */
  ghost predicate IsSteady(m: MirrorLog, pages: seq<LogPage>, during: seq<Server>)
    requires |pages| == |during|
  {
    forall i :: 0 < i < |pages| ==> KeepsUp(m, pages, during, i)
  }

  ghost predicate KeepsUp(m: MirrorLog, pages: seq<LogPage>, during: seq<Server>, i: nat)
    requires 0 < i < |pages| == |during|
  {
    && (forall k :: 0 <= k < during[i].start && k < |during[i].history| ==>
          during[i].history[k].seqNo <= AfterPages(m, pages[..i]).nextLogSeq)
    && (i == 1 && m.nextLogSeq == 0 ==> during[0].history <= during[1].history)
  }

  ghost predicate AllSteady(ms: seq<MirrorLog>, events: seq<MirrorEvent>)
    requires |ms| == |events| + 1
  {
    forall i :: 0 <= i < |events| && events[i].Refreshed? && |events[i].pages| == |events[i].during| ==>
      IsSteady(ms[i], events[i].pages, events[i].during)
  }

  lemma RunShape(ms: seq<MirrorLog>, ss: seq<Server>, events: seq<MirrorEvent>)
    requires IsMirrorRun(ms, ss, events)
    ensures |ms| == |ss| == |events| + 1
  {
  }

  // ---------------------------------------------------------------- the mirror's invariant

  lemma TailOfNothing()
    ensures TailReplaced([]) == EMPTY_MIRROR
  {
  }

  lemma ShorterRefresh(m: MirrorLog, pages: seq<LogPage>, during: seq<Server>)
    requires IsRefresh(m, pages, during) && |pages| > 1
    ensures var n := |pages| - 1;
      && |during| == |pages| && IsRefresh(m, pages[..n], during[..n]) && pages[..n][n - 1].truncated
      && Evolves(during[..n][n - 1], during[n]) && during[..n][0] == during[0] && during[..n][n - 1] == during[n - 1]
      && ValidServer(during[n]) && IsServedPage(pages[n], during[n], Some(AfterPages(m, pages[..n]).nextLogSeq))
      && AfterPages(m, pages) == PageAppended(AfterPages(m, pages[..n]), pages[n].lines)
      && (IsSteady(m, pages, during) ==> IsSteady(m, pages[..n], during[..n]) && KeepsUp(m, pages, during, n))
  {
    hide IsServedPage, PageAppended, MustRetail;
    var n := |pages| - 1;
    assert GoesOn(m, pages, during, n);
    forall i | 0 < i < n
      ensures GoesOn(m, pages[..n], during[..n], i)
      ensures IsSteady(m, pages, during) ==> KeepsUp(m, pages[..n], during[..n], i)
    {
      assert GoesOn(m, pages, during, i);
      assert pages[..n][..i] == pages[..i];
      assert IsSteady(m, pages, during) ==> KeepsUp(m, pages, during, i);
    }
  }

  lemma RefreshEnds(m: MirrorLog, pages: seq<LogPage>, during: seq<Server>)
    requires IsRefresh(m, pages, during)
    ensures 0 < |pages| == |during| && ValidServer(during[0])
  {
  }

  lemma {:induction false} RefreshEvolves(m: MirrorLog, pages: seq<LogPage>, during: seq<Server>)
    requires IsRefresh(m, pages, during)
    ensures |during| > 0 && Evolves(during[0], during[|during| - 1])
    decreases |pages|
  {
    RefreshEnds(m, pages, during);
    hide IsRefresh, Evolves, ValidServer;
    var n := |pages| - 1;
    if n == 0 {
      EvolvesSelf(during[0]);
    } else {
      ShorterRefresh(m, pages, during);
      RefreshEvolves(m, pages[..n], during[..n]);
      EvolvesTransitive(during[0], during[n - 1], during[n]);
    }
  }

  lemma EvolvesSelf(s: Server)
    requires ValidServer(s)
    ensures Evolves(s, s)
  {
  }

  /** A steady refresh leaves consecutive records, all up to date, however far it got. */
  lemma {:induction false} RefreshKeeps(m: MirrorLog, pages: seq<LogPage>, during: seq<Server>)
    returns (lo: nat, hi: nat)
    requires IsRefresh(m, pages, during) && Mirrored(m, during[0]) && IsSteady(m, pages, during)
    ensures var (r, n) := (AfterPages(m, pages), |pages| - 1);
      && 0 <= n && |during| == n + 1 && ValidServer(during[n])
      && Mirrored(r, during[n]) && Bounded(r) && Holds(r.logs, r.nextLogSeq, during[n].history, lo, hi)
      && Agrees(r.logs, during[n], lo, {}) && hi <= |during[n].history|
      && (pages[n].truncated ==> during[n].start <= hi && lo < hi)
      && (pages[n].truncated && (n > 0 || m.nextLogSeq > 0) ==> hi < |during[n].history|)
    decreases |pages|
  {
    RefreshEnds(m, pages, during);
    var n := |pages| - 1;
    if n == 0 {
      OnePage(m, pages, during);
      hide *;
      lo, hi := FirstKeeps(m, during[0], pages[0]);
    } else {
      ShorterRefresh(m, pages, during);
      var shorter := AfterPages(m, pages[..n]);
      hide *;
      var l: nat, h: nat := RefreshKeeps(m, pages[..n], during[..n]);
      SteadyMove(m, pages, during, shorter, l, h);
      lo, hi := NextKeeps(shorter, during[n], l, h, pages[n]);
    }
  }

  lemma FirstKeeps(m: MirrorLog, s: Server, page: LogPage) returns (lo: nat, hi: nat)
    requires Mirrored(m, s) && ValidServer(s) && !CutToNothing(page) && !MustRetail(m.nextLogSeq, page)
    requires IsLogPage(page, s, if m.nextLogSeq > 0 then Some(m.nextLogSeq - 1) else None)
    ensures var r := PageAppended(m, page.lines);
      && Mirrored(r, s) && Bounded(r) && Holds(r.logs, r.nextLogSeq, s.history, lo, hi) && Agrees(r.logs, s, lo, {})
      && hi <= |s.history| && (page.truncated ==> s.start <= hi && lo < hi)
      && (page.truncated && m.nextLogSeq > 0 ==> hi < |s.history|)
  {
    NotCutToNothing(page);
    assert MirroredExcept(m, s, {});
    hide *;
    var l: nat, h: nat, p: nat, stale := FirstContinues(m, s, page, {});
    assert stale == {};
    lo, hi := PageTaken(m, s, l, h, page, p, {});
  }

  lemma NextKeeps(m: MirrorLog, s: Server, l: nat, h: nat, page: LogPage) returns (lo: nat, hi: nat)
    requires ValidServer(s) && Bounded(m) && Holds(m.logs, m.nextLogSeq, s.history, l, h) && Agrees(m.logs, s, l, {})
    requires l < h && s.start <= h && IsServedPage(page, s, Some(m.nextLogSeq))
    ensures var r := PageAppended(m, page.lines);
      && Mirrored(r, s) && Bounded(r) && Holds(r.logs, r.nextLogSeq, s.history, lo, hi) && Agrees(r.logs, s, lo, {})
      && hi <= |s.history| && (page.truncated ==> s.start <= hi && lo < hi < |s.history|)
  {
    hide *;
    ServedIsLogPage(s, Some(m.nextLogSeq), page);
    NextContinues(m, s, l, h, page, {});
    lo, hi := PageTaken(m, s, l, h, page, h, {});
  }

  lemma NotCutToNothing(page: LogPage)
    requires !CutToNothing(page)
    ensures page.lines == [] ==> !page.truncated
  {
  }

  lemma ServedIsLogPage(s: Server, after: Option<nat>, page: LogPage)
    requires ValidServer(s) && IsServedPage(page, s, after)
    ensures IsLogPage(page, s, after) && (page.lines == [] ==> !page.truncated)
  {
    hide IsLogPage;
  }

  /** The server moves, and the copy is still right and not overtaken. */
  lemma SteadyMove(m: MirrorLog, pages: seq<LogPage>, during: seq<Server>, r: MirrorLog, lo: nat, hi: nat)
    requires |pages| == |during| > 1 && KeepsUp(m, pages, during, |pages| - 1)
    requires r == AfterPages(m, pages[..|pages| - 1]) && Evolves(during[|pages| - 2], during[|pages| - 1])
    requires Holds(r.logs, r.nextLogSeq, during[|pages| - 2].history, lo, hi)
    requires Agrees(r.logs, during[|pages| - 2], lo, {}) && lo < hi
    requires |pages| > 2 || m.nextLogSeq > 0 ==> hi < |during[|pages| - 2].history|
    ensures Holds(r.logs, r.nextLogSeq, during[|pages| - 1].history, lo, hi)
    ensures var t := during[|pages| - 1]; Agrees(r.logs, t, lo, {}) && t.start <= hi <= |t.history|
  {
    var s, t := during[|pages| - 2], during[|pages| - 1];
    hide Ascending, Holds, Agrees, Evolves;
    if |pages| > 2 || m.nextLogSeq > 0 {
      CopyEvolves(r, s, t, lo, hi, {});
    } else {
      CopyUnderGrowth(r, s, t, lo, hi);
    }
    NotOvertaken(r, t, lo, hi);
  }

  lemma CopyUnderGrowth(m: MirrorLog, s: Server, t: Server, lo: nat, hi: nat)
    requires Evolves(s, t) && s.history <= t.history
    requires Holds(m.logs, m.nextLogSeq, s.history, lo, hi) && Agrees(m.logs, s, lo, {})
    ensures Holds(m.logs, m.nextLogSeq, t.history, lo, hi) && Agrees(m.logs, t, lo, {})
  {
    hide Ascending;
    assert forall i :: 0 <= i < |s.history| ==> s.history[i] == t.history[i];
  }

  lemma NotOvertaken(m: MirrorLog, t: Server, lo: nat, hi: nat)
    requires ValidServer(t) && Holds(m.logs, m.nextLogSeq, t.history, lo, hi) && lo < hi
    requires forall k :: 0 <= k < t.start && k < |t.history| ==> t.history[k].seqNo <= m.nextLogSeq
    ensures t.start <= hi <= |t.history|
  {
    if t.start > hi {
      AscendingAt(t.history, hi - 1, hi);
    }
  }

  lemma OnePage(m: MirrorLog, pages: seq<LogPage>, during: seq<Server>)
    requires IsRefresh(m, pages, during) && |pages| == 1
    ensures AfterPages(m, pages) == PageAppended(m, pages[0].lines) && |during| == 1 && ValidServer(during[0])
    ensures IsLogPage(pages[0], during[0], if m.nextLogSeq > 0 then Some(m.nextLogSeq - 1) else None)
    ensures IsLogPage(pages[0], during[0], FirstCursor(m.nextLogSeq))
    ensures !CutToNothing(pages[0]) && !MustRetail(m.nextLogSeq, pages[0])
  {
    hide PageAppended, IsLogPage;
    assert pages[..0] == [];
  }

  lemma HappensEvolves(m: MirrorLog, s: Server, e: MirrorEvent, m': MirrorLog, s': Server)
    requires ValidServer(s) && Happens(m, s, e, m', s')
    ensures Evolves(s, s')
  {
    hide IsRefresh, IsServedPage, MustRetail, Evolves, TailReplaced, AfterPages, ValidServer;
    match e {
      case Refreshed(pages, during) => RefreshEvolves(m, pages, during);
      case Retailed(_, _, _) =>
      case Cleared => EvolvesSelf(s);
      case ServerMoved(_) =>
    }
  }

  lemma HappensKeeps(m: MirrorLog, s: Server, e: MirrorEvent, m': MirrorLog, s': Server)
    requires Mirrored(m, s) && ValidServer(s) && Happens(m, s, e, m', s')
    requires e.Refreshed? && |e.pages| == |e.during| ==> IsSteady(m, e.pages, e.during)
    ensures Mirrored(m', s')
  {
    hide MirroredExcept, IsLogPage, MustRetail, PageAppended, Holds, Agrees, Bounded, CaughtUp, IsSteady, IsRefresh;
    match e {
      case Refreshed(pages, during) =>
        RefreshEnds(m, pages, during);
        var lo, hi := RefreshKeeps(m, pages, during);
      case Retailed(page, later, tail) =>
        EvolvesValid(s, later);
        TailCaughtUp(later, tail);
        CaughtUpIsMirrored(m', later);
      case Cleared =>
        TailOfNothing();
        EmptyIsMirrored(s);
      case ServerMoved(later) =>
        MirroredEvolves(m, s, later, {});
    }
  }

  lemma RunStep(ms: seq<MirrorLog>, ss: seq<Server>, events: seq<MirrorEvent>, i: nat)
    requires IsMirrorRun(ms, ss, events) && i < |events|
    ensures |ms| == |ss| == |events| + 1 && ValidServer(ss[i]) && Happens(ms[i], ss[i], events[i], ms[i + 1], ss[i + 1])
    ensures var e := events[i];
      AllSteady(ms, events) && e.Refreshed? && |e.pages| == |e.during| ==> IsSteady(ms[i], e.pages, e.during)
  {
    hide Happens, ValidServer, IsSteady;
  }

  lemma {:induction false} SteadyRunKeeps(ms: seq<MirrorLog>, ss: seq<Server>, events: seq<MirrorEvent>, k: nat)
    requires IsMirrorRun(ms, ss, events) && k < |ms| == |events| + 1 && AllSteady(ms, events)
    ensures k < |ss| && Mirrored(ms[k], ss[k])
  {
    if k == 0 {
      EmptyIsMirrored(ss[0]);
    } else {
      hide *;
      SteadyRunKeeps(ms, ss, events, k - 1);
      RunStep(ms, ss, events, k - 1);
      HappensKeeps(ms[k - 1], ss[k - 1], events[k - 1], ms[k], ss[k]);
    }
  }

  // ---------------------------------------------------------------- any run

  ghost predicate AllValid(during: seq<Server>) {
    forall i :: 0 <= i < |during| ==> ValidServer(during[i])
  }

  /** What is out of date after the answers of one refresh. */
  ghost function BehindAfterPages(
      m: MirrorLog, pages: seq<LogPage>, during: seq<Server>, behind: set<nat>): set<nat>
    requires |pages| == |during| && AllValid(during)
  {
    if pages == [] then behind
    else
      var n := |pages| - 1;
      BehindAfter(if n == 0 then First else Next, AfterPages(m, pages[..n]), during[n], pages[n],
                  BehindAfterPages(m, pages[..n], during[..n], behind))
  }

  ghost function BehindBy(e: MirrorEvent, m: MirrorLog, behind: set<nat>): set<nat> {
    match e
    case Refreshed(pages, during) =>
      if |pages| == |during| && AllValid(during) then BehindAfterPages(m, pages, during, behind) else behind
    case Retailed(_, _, _) => {}
    case Cleared => {}
    case ServerMoved(_) => behind
  }

  /** What the refreshes of a run left out of date. */
  ghost function BehindAt(ms: seq<MirrorLog>, events: seq<MirrorEvent>, k: nat): set<nat>
    requires k < |ms| == |events| + 1
  {
    if k == 0 then {} else BehindBy(events[k - 1], ms[k - 1], BehindAt(ms, events, k - 1))
  }

  lemma {:induction false} RefreshValid(m: MirrorLog, pages: seq<LogPage>, during: seq<Server>)
    requires IsRefresh(m, pages, during)
    ensures |pages| == |during| && AllValid(during)
  {
    forall i | 0 <= i < |during| ensures ValidServer(during[i]) {
      if i > 0 {
        assert GoesOn(m, pages, during, i);
      }
    }
  }

  lemma OnePageServed(m: MirrorLog, pages: seq<LogPage>, during: seq<Server>)
    requires IsRefresh(m, pages, during) && |pages| == 1
    ensures |during| == 1 && ValidServer(during[0]) && IsServedPage(pages[0], during[0], CursorAt(First, m))
    ensures !MustRetail(m.nextLogSeq, pages[0]) && Taken(First, m, pages[0]) == AfterPages(m, pages)
  {
    OnePage(m, pages, during);
  }

  lemma {:induction false} BehindUnfolds(
      m: MirrorLog, pages: seq<LogPage>, during: seq<Server>, behind: set<nat>)
    requires |pages| == |during| > 0 && AllValid(during)
    ensures AllValid(during[..|pages| - 1]) && during[|pages| - 1].start <= |during[|pages| - 1].history|
    ensures var n := |pages| - 1;
      BehindAfterPages(m, pages, during, behind) ==
        BehindAfter(if n == 0 then First else Next, AfterPages(m, pages[..n]), during[n], pages[n],
                    BehindAfterPages(m, pages[..n], during[..n], behind))
    ensures |pages| == 1 ==>
      BehindAfterPages(m, pages, during, behind) == BehindAfter(First, m, during[0], pages[0], behind)
  {
    hide BehindAfter, PageAppended, Ascending;
    assert |pages| == 1 ==> pages[..0] == [];
  }

  lemma {:induction false} RefreshTracks(m: MirrorLog, pages: seq<LogPage>, during: seq<Server>, behind: set<nat>)
    requires IsRefresh(m, pages, during) && Tracks(m, during[0], behind)
    ensures |pages| == |during| > 0 && AllValid(during)
    ensures var (r, n, left) := (AfterPages(m, pages), |pages| - 1, BehindAfterPages(m, pages, during, behind));
      && Tracks(r, during[n], left) && (!pages[n].truncated ==> CaughtUpTo(r, during[n], left))
      && (pages[n].truncated ==> r.logs != [])
    decreases |pages|
  {
    hide *;
    RefreshValid(m, pages, during);
    RefreshEnds(m, pages, during);
    var n := |pages| - 1;
    BehindUnfolds(m, pages, during, behind);
    if n == 0 {
      OnePageServed(m, pages, during);
      TakenTracks(First, m, during[0], pages[0], behind);
    } else {
      ShorterRefresh(m, pages, during);
      var shorter := AfterPages(m, pages[..n]);
      NextIs(shorter, pages[n]);
      RefreshTracks(m, pages[..n], during[..n], behind);
      var left := BehindAfterPages(m, pages[..n], during[..n], behind);
      TracksOn(shorter, during[n - 1], during[n], left);
      TakenTracks(Next, shorter, during[n], pages[n], left);
    }
  }

  lemma NextIs(m: MirrorLog, page: LogPage)
    ensures CursorAt(Next, m) == Some(m.nextLogSeq) && Taken(Next, m, page) == PageAppended(m, page.lines)
  {
    hide PageAppended;
  }

  lemma TakenTracks(stage: Stage, m: MirrorLog, s: Server, page: LogPage, behind: set<nat>)
    requires Tracks(m, s, behind) && ValidServer(s) && IsServedPage(page, s, CursorAt(stage, m)) && !stage.Tail?
    requires stage.First? ==> !MustRetail(m.nextLogSeq, page)
    requires stage.Next? ==> m.logs != []
    ensures s.start <= |s.history|
    ensures var (r, left) := (Taken(stage, m, page), BehindAfter(stage, m, s, page, behind));
      && Tracks(r, s, left) && (!page.truncated ==> CaughtUpTo(r, s, left)) && (page.truncated ==> r.logs != [])
  {
    AnswerTracks(stage, m, s, page, behind);
    if page.truncated {
      assert Taken(stage, m, page) == PageAppended(m, page.lines);
      hide *;
      ServedPage(s, page, CursorAt(stage, m));
      ServedNumbers(s, CursorAt(stage, m), page);
      PageIsHeld(m, s, behind, page.lines);
    }
  }

  lemma HappensTracks(
      m: MirrorLog, s: Server, e: MirrorEvent, m': MirrorLog, s': Server, behind: set<nat>)
    requires Tracks(m, s, behind) && ValidServer(s) && Happens(m, s, e, m', s')
    ensures Tracks(m', s', BehindBy(e, m, behind))
    ensures Completes(e) ==> CaughtUpTo(m', s', BehindBy(e, m, behind))
  {
    hide Tracks, CaughtUpTo, IsRefresh, IsServedPage, MustRetail, TailReplaced, AfterPages, Evolves, BehindAfterPages;
    match e {
      case Refreshed(pages, during) =>
        RefreshTracks(m, pages, during, behind);
      case Retailed(page, later, tail) =>
        EvolvesValid(s, later);
        TailTracks(later, tail);
        CaughtUpTracks(m', later, {});
      case Cleared =>
        TailOfNothing();
        EmptyTracks(s);
      case ServerMoved(later) =>
        TracksOn(m, s, later, behind);
    }
  }

  /** The mirror was brought up to date, as far as the client can tell. */
  predicate Completes(e: MirrorEvent) {
    e.Retailed? || (e.Refreshed? && e.pages != [] && !e.pages[|e.pages| - 1].truncated)
  }

  /**
   Over every run, whatever the server does between the answers: all copied records that the server
   retains are right, but for the newest and those that refreshes left behind; and after a
   completed refresh the mirror is as it should be exactly if none of the latter is stale.
   */
  lemma {:induction false} RunKeepsMirrored(ms: seq<MirrorLog>, ss: seq<Server>, events: seq<MirrorEvent>, k: nat)
    requires IsMirrorRun(ms, ss, events) && k < |ms| == |events| + 1
    ensures k < |ss| && Tracks(ms[k], ss[k], BehindAt(ms, events, k)) && ss[k].start <= |ss[k].history|
    ensures k > 0 && Completes(events[k - 1]) ==>
      && CaughtUpTo(ms[k], ss[k], BehindAt(ms, events, k))
      && (Shows(ms[k], ss[k]) <==> !StaleAmong(ms[k], ss[k], BehindAt(ms, events, k)))
  {
    RunStarts(ms, ss, events);
    hide *;
    if k == 0 {
      EmptyTracks(ss[0]);
    } else {
      RunKeepsMirrored(ms, ss, events, k - 1);
      RunStep(ms, ss, events, k - 1);
      BehindAtStep(ms, events, k);
      HappensTracks(ms[k - 1], ss[k - 1], events[k - 1], ms[k], ss[k], BehindAt(ms, events, k - 1));
      if Completes(events[k - 1]) {
        ShowsExactly(ms[k], ss[k], BehindAt(ms, events, k));
      }
    }
    TracksStart(ms[k], ss[k], BehindAt(ms, events, k));
  }

  lemma RunStarts(ms: seq<MirrorLog>, ss: seq<Server>, events: seq<MirrorEvent>)
    requires IsMirrorRun(ms, ss, events)
    ensures |ms| == |ss| == |events| + 1 && ms[0] == EMPTY_MIRROR && ValidServer(ss[0]) && BehindAt(ms, events, 0) == {}
  {
    hide Happens, ValidServer;
  }

  lemma BehindAtStep(ms: seq<MirrorLog>, events: seq<MirrorEvent>, k: nat)
    requires 0 < k < |ms| == |events| + 1
    ensures BehindAt(ms, events, k) == BehindBy(events[k - 1], ms[k - 1], BehindAt(ms, events, k - 1))
  {
    hide BehindBy;
  }

  lemma TracksStart(m: MirrorLog, s: Server, behind: set<nat>)
    requires Tracks(m, s, behind)
    ensures s.start <= |s.history|
  {
    TracksValid(m, s, behind);
  }

  /** Only hydrations leave records behind: a refresh of a mirror that holds any leaves none. */
  lemma {:induction false} RefreshLeavesNothing(
      m: MirrorLog, pages: seq<LogPage>, during: seq<Server>, behind: set<nat>)
    requires IsRefresh(m, pages, during) && Tracks(m, during[0], behind) && m.logs != []
    ensures |pages| == |during| && AllValid(during) && BehindAfterPages(m, pages, during, behind) <= behind
    decreases |pages|
  {
    hide *;
    RefreshTracks(m, pages, during, behind);
    RefreshEnds(m, pages, during);
    BehindUnfolds(m, pages, during, behind);
    var n := |pages| - 1;
    if n == 0 {
      FirstOutdatesNothing(m, during[0], pages[0], behind);
    } else {
      ShorterRefresh(m, pages, during);
      RefreshLeavesNothing(m, pages[..n], during[..n], behind);
      LastNotReplaced(m, pages[..n], during[..n], behind, during[n]);
      var left := BehindAfterPages(m, pages[..n], during[..n], behind);
      NextOutdates(AfterPages(m, pages[..n]), during[n], pages[n], left);
    }
  }

  lemma FirstOutdatesNothing(m: MirrorLog, s: Server, page: LogPage, behind: set<nat>)
    requires s.start <= |s.history|
    ensures BehindAfter(First, m, s, page, behind) <= behind
  {
  }

  lemma NextOutdates(m: MirrorLog, s: Server, page: LogPage, behind: set<nat>)
    requires s.start <= |s.history| && Replaced(m, s) == {}
    ensures BehindAfter(Next, m, s, page, behind) == behind
  {
  }

  /** Behind its last, shortened answer. */
  lemma {:induction false} LastNotReplaced(
      m: MirrorLog, pages: seq<LogPage>, during: seq<Server>, behind: set<nat>, t: Server)
    requires IsRefresh(m, pages, during) && Tracks(m, during[0], behind) && m.logs != []
    requires pages[|pages| - 1].truncated && Evolves(during[|pages| - 1], t)
    ensures t.start <= |t.history| && Replaced(AfterPages(m, pages), t) == {}
  {
    hide *;
    RefreshEnds(m, pages, during);
    var n := |pages| - 1;
    if n == 0 {
      OnePageServed(m, pages, during);
      NewestCopied(m, during[0], behind);
      OnlyHydrationsOutdate(First, m, during[0], pages[0], t);
    } else {
      ShorterRefresh(m, pages, during);
      var before := AfterPages(m, pages[..n]);
      NextIs(before, pages[n]);
      RefreshTracks(m, pages[..n], during[..n], behind);
      NewestCopied(before, during[n - 1], BehindAfterPages(m, pages[..n], during[..n], behind));
      OnlyHydrationsOutdate(Next, before, during[n], pages[n], t);
    }
  }

  // ---------------------------------------------------------------- without a clear

  /** The server's tail, where the client has to start over, is newer than everything the mirror held. */
  lemma RetailIsNewer(cursor: nat, s: Server, page: LogPage, later: Server, tail: LogPage)
    requires ValidServer(s) && cursor > 0 && IsLogPage(page, s, Some(cursor - 1)) && MustRetail(cursor, page)
    requires Evolves(s, later) && IsLogPage(tail, later, None)
    ensures Ascending(tail.lines) && forall l :: l in tail.lines ==> cursor < l.seqNo
  {
    var p := |later.history| - |tail.lines|;
    AscendingSuffix(later.history, p);
    assert page.firstRetained == FirstRetained(Retained(s)) && cursor < s.history[s.start].seqNo;
    hide IsLogPage, Ascending;
    forall i | 0 <= i < |tail.lines| ensures cursor < tail.lines[i].seqNo {
      AscendingAt(later.history, s.start, p + i);
    }
  }

  lemma ServedNumbers(s: Server, after: Option<nat>, page: LogPage)
    requires ValidServer(s) && IsLogPage(page, s, after)
    ensures forall l :: l in page.lines ==> l in Retained(s) && 1 <= l.seqNo
  {
    var p := match after case Some(cursor) => SinceFrom(s, cursor, s.start) case None => |s.history| - |page.lines|;
    forall i | 0 <= i < |page.lines| ensures page.lines[i] in Retained(s) && 1 <= page.lines[i].seqNo {
      assert page.lines[i] == s.history[p + i] == Retained(s)[p + i - s.start];
    }
  }

  lemma ComesAfterTransitive(m: MirrorLog, v: Server, w: Server)
    requires Evolves(v, w) && ComesAfter(m, w)
    ensures ComesAfter(m, v)
  {
    var x :| Evolves(w, x) && MirrorHistory(m, x);
    EvolvesTransitive(v, w, x);
  }

  lemma {:induction false} RefreshAdvances(m: MirrorLog, pages: seq<LogPage>, during: seq<Server>, v: Server)
    requires IsRefresh(m, pages, during) && ComesAfter(m, v)
    ensures ComesAfter(AfterPages(m, pages), v)
    decreases |pages|
  {
    RefreshEnds(m, pages, during);
    var n := |pages| - 1;
    hide Evolves, MirrorHistory, ValidServer, PageAppended, IsLogPage, IsRefresh, ComesAfter;
    if n == 0 {
      OnePage(m, pages, during);
      ServedNumbers(during[0], FirstCursor(m.nextLogSeq), pages[0]);
      PageComesAfter(m, pages[0].lines, v);
    } else {
      ShorterRefresh(m, pages, during);
      RefreshAdvances(m, pages[..n], during[..n], v);
      ServedNumbers(during[n], Some(AfterPages(m, pages[..n]).nextLogSeq), pages[n]);
      PageComesAfter(AfterPages(m, pages[..n]), pages[n].lines, v);
    }
  }

  lemma PageComesAfter(m: MirrorLog, lines: seq<LogLine>, v: Server)
    requires ComesAfter(m, v) && forall l :: l in lines ==> 1 <= l.seqNo
    ensures ComesAfter(PageAppended(m, lines), v)
  {
    hide Evolves, MirrorHistory, PageAppended;
    var w :| Evolves(v, w) && MirrorHistory(m, w);
    PageAdvancesMirror(m, w, lines);
    ComesAfterTransitive(PageAppended(m, lines), v, w);
  }

  lemma EventAdvances(m: MirrorLog, s: Server, e: MirrorEvent, m': MirrorLog, s': Server, v: Server)
    requires ValidServer(s) && Happens(m, s, e, m', s') && !Clears(e) && ComesAfter(m, v)
    ensures ComesAfter(m', v)
  {
    hide Evolves, MirrorHistory, ValidServer, PageAppended, IsLogPage, MustRetail, TailReplaced, ComesAfter, IsRefresh;
    match e {
      case Refreshed(pages, during) => RefreshAdvances(m, pages, during, v);
      case Retailed(page, later, tail) =>
        RetailIsNewer(m.nextLogSeq, s, page, later, tail);
        RetailComesAfter(m, tail.lines, v);
      case Cleared =>
      case ServerMoved(_) =>
    }
  }

  lemma RetailComesAfter(m: MirrorLog, lines: seq<LogLine>, v: Server)
    requires ComesAfter(m, v) && Ascending(lines) && lines != [] && forall l :: l in lines ==> m.nextLogSeq < l.seqNo
    ensures ComesAfter(TailReplaced(lines), v)
  {
    hide Evolves, MirrorHistory, TailReplaced, Ascending;
    var w :| Evolves(v, w) && MirrorHistory(m, w);
    TailAdvancesMirror(m, w, lines);
    ComesAfterTransitive(TailReplaced(lines), v, w);
  }

  // ---------------------------------------------------------------- after a clear

  /** A record that the server `h` or a later one retained, with its final text where `h` knew it. */
  ghost predicate FromSince(l: LogLine, h: Server) {
    forall i :: 0 <= i < |h.history| ==>
      && (i < h.start ==> h.history[i].seqNo < l.seqNo)
      && (i < |h.history| - 1 && h.history[i].seqNo == l.seqNo ==> h.history[i] == l)
  }

  ghost predicate Reaches(next: nat, h: Server) {
    forall i :: 0 <= i < |h.history| ==> h.history[i].seqNo <= next
  }

  /** All of the mirror was copied since the server was `h`, and it reaches as far as `h` did. */
  ghost predicate CopiedSince(m: MirrorLog, h: Server) {
    && (forall l :: l in m.logs ==> FromSince(l, h))
    && (m.logs != [] ==> Reaches(m.nextLogSeq, h))
  }

  lemma RetainedFromSince(h: Server, s: Server, l: LogLine)
    requires Evolves(h, s) && l in Retained(s)
    ensures FromSince(l, h)
  {
    var q :| s.start <= q < |s.history| && s.history[q] == l;
    forall i | 0 <= i < |h.history|
      ensures i < h.start ==> h.history[i].seqNo < l.seqNo
      ensures i < |h.history| - 1 && h.history[i].seqNo == l.seqNo ==> h.history[i] == l
    {
      hide Ascending;
      if i < q {
        AscendingAt(s.history, i, q);
      } else if i > q {
        AscendingAt(s.history, q, i);
      }
    }
  }

  lemma NewestReaches(h: Server, s: Server)
    requires Evolves(h, s) && s.history != []
    ensures Reaches(s.history[|s.history| - 1].seqNo, h)
  {
    forall i | 0 <= i < |h.history| ensures h.history[i].seqNo <= s.history[|s.history| - 1].seqNo {
      AscendingAt(s.history, i, |s.history| - 1);
    }
  }

  /** A tail, into an empty mirror. */
  lemma TailCopied(h: Server, s: Server, tail: LogPage)
    requires Evolves(h, s) && ValidServer(s) && IsLogPage(tail, s, None)
    ensures CopiedSince(TailReplaced(tail.lines), h)
  {
    ServedNumbers(s, None, tail);
    var p := |s.history| - |tail.lines|;
    AscendingSuffix(s.history, p);
    assert tail.lines == s.history[p..];
    hide IsLogPage, Ascending, Evolves, FromSince, PageAppended;
    TailFrom(tail.lines);
    forall l | l in TailReplaced(tail.lines).logs ensures FromSince(l, h) {
      RetainedFromSince(h, s, l);
    }
    if tail.lines != [] {
      NewTail(tail.lines);
      NewestReaches(h, s);
    }
  }

  lemma TailFrom(lines: seq<LogLine>)
    ensures forall l :: l in TailReplaced(lines).logs ==> l in lines
  {
    PageAppendedFrom(EMPTY_MIRROR, lines);
  }

  lemma PageCopied(m: MirrorLog, h: Server, s: Server, page: LogPage)
    requires CopiedSince(m, h) && Evolves(h, s) && m.logs != []
    requires forall l :: l in page.lines ==> l in Retained(s)
    ensures CopiedSince(PageAppended(m, page.lines), h)
  {
    PageAppendedFrom(m, page.lines);
    var r := PageAppended(m, page.lines);
    hide PageAppended, Evolves, FromSince;
    forall l | l in r.logs ensures FromSince(l, h) {
      if l !in m.logs {
        RetainedFromSince(h, s, l);
      }
    }
  }

  lemma MirroredEmpty(m: MirrorLog, s: Server)
    requires Mirrored(m, s) && m.logs == []
    ensures m == EMPTY_MIRROR
  {
  }

  lemma {:induction false} RefreshCopies(m: MirrorLog, h: Server, pages: seq<LogPage>, during: seq<Server>)
    requires IsRefresh(m, pages, during) && Mirrored(m, during[0]) && IsSteady(m, pages, during)
    requires CopiedSince(m, h) && Evolves(h, during[0])
    ensures CopiedSince(AfterPages(m, pages), h)
    decreases |pages|
  {
    hide *;
    RefreshEnds(m, pages, during);
    var n := |pages| - 1;
    if n == 0 {
      OnePage(m, pages, during);
      FirstCopies(m, h, during[0], pages[0]);
    } else {
      ShorterRefresh(m, pages, during);
      RefreshCopies(m, h, pages[..n], during[..n]);
      var before := AfterPages(m, pages[..n]);
      var lo: nat, hi: nat := RefreshKeeps(m, pages[..n], during[..n]);
      RefreshEvolves(m, pages[..n], during[..n]);
      EvolvesTransitive(h, during[0], during[n - 1]);
      EvolvesTransitive(h, during[n - 1], during[n]);
      ServedIsLogPage(during[n], Some(before.nextLogSeq), pages[n]);
      ServedNumbers(during[n], Some(before.nextLogSeq), pages[n]);
      HeldIsCopy(before, during[n - 1], lo, hi);
      PageCopied(before, h, during[n], pages[n]);
    }
  }

  lemma HeldIsCopy(m: MirrorLog, s: Server, lo: nat, hi: nat)
    requires Holds(m.logs, m.nextLogSeq, s.history, lo, hi) && lo < hi
    ensures m.logs != []
  {
  }

  lemma FirstCopies(m: MirrorLog, h: Server, s: Server, page: LogPage)
    requires ValidServer(s) && Mirrored(m, s) && CopiedSince(m, h) && Evolves(h, s)
    requires IsLogPage(page, s, FirstCursor(m.nextLogSeq))
    ensures CopiedSince(PageAppended(m, page.lines), h)
  {
    hide MirroredExcept, PageAppended, IsLogPage, Evolves, CopiedSince, ValidServer;
    if m.logs == [] {
      MirroredEmpty(m, s);
      TailCopied(h, s, page);
    } else {
      ServedNumbers(s, FirstCursor(m.nextLogSeq), page);
      PageCopied(m, h, s, page);
    }
  }

  /** Since a clear at some server after `s0`. */
  ghost predicate CopiedAfter(s0: Server, m: MirrorLog, s: Server) {
    exists h :: Evolves(s0, h) && Evolves(h, s) && CopiedSince(m, h)
  }

  lemma EventCopies(s0: Server, m: MirrorLog, s: Server, e: MirrorEvent, m': MirrorLog, s': Server)
    requires Mirrored(m, s) && ValidServer(s) && Happens(m, s, e, m', s') && Evolves(s0, s)
    requires e.Refreshed? && |e.pages| == |e.during| ==> IsSteady(m, e.pages, e.during)
    requires CopiedAfter(s0, m, s) || Clears(e)
    ensures CopiedAfter(s0, m', s')
  {
    HappensEvolves(m, s, e, m', s');
    hide MirroredExcept, PageAppended, IsLogPage, MustRetail, CopiedSince, ValidServer, IsRefresh, IsSteady, Evolves;
    if e.Retailed? {
      EvolvesValid(s, s');
      RetailedCopied(s0, s, s', e.tail);
    } else if e.Cleared? {
      TailOfNothing();
      NothingCopied(s);
      EvolvesSelf(s);
      assert Evolves(s0, s) && Evolves(s, s) && CopiedSince(m', s);
    } else {
      var h :| Evolves(s0, h) && Evolves(h, s) && CopiedSince(m, h);
      EvolvesTransitive(h, s, s');
      if e.Refreshed? {
        RefreshEnds(m, e.pages, e.during);
        RefreshCopies(m, h, e.pages, e.during);
      }
      assert Evolves(s0, h) && Evolves(h, s') && CopiedSince(m', h);
    }
  }

  lemma NothingCopied(h: Server)
    ensures CopiedSince(EMPTY_MIRROR, h)
  {
  }

  /** A tail replaces everything, so that it too copies anew. */
  lemma RetailedCopied(s0: Server, s: Server, later: Server, tail: LogPage)
    requires Evolves(s0, s) && Evolves(s, later) && ValidServer(later) && IsLogPage(tail, later, None)
    ensures CopiedAfter(s0, TailReplaced(tail.lines), later)
  {
    TailCopied(s, later, tail);
  }

  // ---------------------------------------------------------------- a pass after a run

  lemma MirroredIsSource(m: MirrorLog, s: Server)
    requires Mirrored(m, s)
    ensures Remote(m).Valid() && Remote(m).Lines() == m.logs
    ensures m.logs != [] ==> m.logs[|m.logs| - 1].seqNo == m.nextLogSeq
  {
    var lo: nat, hi: nat :| Holds(m.logs, m.nextLogSeq, s.history, lo, hi);
    HoldsAscending(m.logs, m.nextLogSeq, s.history, lo, hi);
    hide Ascending;
    assert forall i :: 0 <= i < |m.logs| ==> 1 <= m.logs[i].seqNo;
  }

  /** The cached window starts no later than the source's, or one of them is empty. */
  predicate StartsNoLater(old': seq<LogLine>, new': seq<LogLine>) {
    old' == [] || new' == [] || old'[0].seqNo <= new'[0].seqNo
  }

  lemma AdvancesStartsNoLater(old': seq<LogLine>, new': seq<LogLine>)
    requires Advances(old', new')
    ensures StartsNoLater(old', new')
  {
    if old' != [] && new' != [] {
      var cut: nat :| AdvancesBy(old', new', cut);
      AscendingAt(old', 0, Min(cut, |old'| - 1));
      if cut > 0 {
        AscendingAt(old', 0, cut - 1);
      }
    }
  }

  /** Positions of a copied window in the server's history. */
  lemma WindowOf(m: MirrorLog, s: Server) returns (lo: nat, hi: nat)
    requires Mirrored(m, s)
    ensures lo <= hi <= |s.history| && |m.logs| == hi - lo
    ensures forall i :: 0 <= i < |m.logs| ==> m.logs[i].seqNo == s.history[lo + i].seqNo
    ensures forall i :: 0 <= i < |m.logs| - 1 && s.start <= lo + i ==> m.logs[i] == s.history[lo + i]
    ensures ValidServer(s) && (lo < hi ==> m.nextLogSeq == s.history[hi - 1].seqNo)
  {
    lo, hi :| Holds(m.logs, m.nextLogSeq, s.history, lo, hi) && Agrees(m.logs, s, lo, {} + {m.nextLogSeq});
    forall i | 0 <= i < |m.logs| - 1 && s.start <= lo + i ensures m.logs[i] == s.history[lo + i] {
      AscendingAt(s.history, lo + i, hi - 1);
    }
  }

  /** Where both windows hold a record that `h` had and that was not the newest of `s0`, they agree. */
  lemma CommonRecordAgrees(s0: Server, h: Server, a: LogLine, b: LogLine, q: nat)
    requires Evolves(s0, h) && q < |s0.history| - 1 && FromSince(b, h) && b.seqNo == s0.history[q].seqNo
    requires s0.start <= q ==> a == s0.history[q]
    ensures a == b
  {
    assert h.history[q] == s0.history[q] && q < |h.history| - 1;
  }

  /** What both windows hold is the same, apart from the newest cached record. */
  lemma CommonRecords(m0: MirrorLog, s0: Server, h: Server, m1: MirrorLog, s1: Server, lo0: nat, lo1: nat, hi1: nat)
    requires Evolves(s0, h) && Evolves(s0, s1) && CopiedSince(m1, h)
    requires lo0 <= lo1 && lo0 + |m0.logs| <= |s0.history| && lo0 + |m0.logs| <= hi1 <= |s1.history|
    requires |m1.logs| == hi1 - lo1 && forall i :: 0 <= i < |m1.logs| ==> m1.logs[i].seqNo == s1.history[lo1 + i].seqNo
    requires forall i :: 0 <= i < |m0.logs| - 1 && s0.start <= lo0 + i ==> m0.logs[i] == s0.history[lo0 + i]
    ensures forall i :: lo1 - lo0 <= i < |m0.logs| - 1 ==> m0.logs[i] == m1.logs[lo0 + i - lo1]
  {
    hide CopiedSince, FromSince, Ascending;
    forall i | lo1 - lo0 <= i < |m0.logs| - 1 ensures m0.logs[i] == m1.logs[lo0 + i - lo1] {
      var b := m1.logs[lo0 + i - lo1];
      assert b.seqNo == s1.history[lo1 + (lo0 + i - lo1)].seqNo == s0.history[lo0 + i].seqNo;
      LineFromSince(m1, h, b);
      CommonRecordAgrees(s0, h, m0.logs[i], b, lo0 + i);
    }
  }

  lemma PositionsAdvance(
      old': seq<LogLine>, s0: Server, lo0: nat, hi0: nat, new': seq<LogLine>, s1: Server, lo1: nat, hi1: nat)
    requires Evolves(s0, s1) && lo0 < hi0 <= |s0.history| && lo1 < hi1 <= |s1.history| && lo0 <= lo1 && hi0 <= hi1
    requires |old'| == hi0 - lo0 && forall i :: 0 <= i < |old'| ==> old'[i].seqNo == s0.history[lo0 + i].seqNo
    requires |new'| == hi1 - lo1 && forall i :: 0 <= i < |new'| ==> new'[i].seqNo == s1.history[lo1 + i].seqNo
    requires forall i :: lo1 - lo0 <= i < |old'| - 1 ==> old'[i] == new'[lo0 + i - lo1]
    ensures AdvancesBy(old', new', Min(lo1 - lo0, hi0 - lo0))
  {
    hide Ascending;
    var cut := Min(lo1 - lo0, hi0 - lo0);
    if cut > 0 {
      BeforeInOrder(s1, lo0 + cut - 1, lo1);
      assert old'[cut - 1].seqNo < new'[0].seqNo;
    }
  }

  lemma RehydratedAdvances(m0: MirrorLog, s0: Server, h: Server, m1: MirrorLog, s1: Server)
    requires Mirrored(m0, s0) && Evolves(s0, h) && Evolves(h, s1) && Mirrored(m1, s1) && CopiedSince(m1, h)
    requires m0.logs != [] && m1.logs != [] && m0.logs[0].seqNo <= m1.logs[0].seqNo
    ensures exists cut: nat :: AdvancesBy(m0.logs, m1.logs, cut)
  {
    var lo0: nat, hi0: nat := WindowOf(m0, s0);
    var lo1: nat, hi1: nat := WindowOf(m1, s1);
    EvolvesTransitive(s0, h, s1);
    hide MirroredExcept, Ascending, CopiedSince, FromSince, AdvancesBy;
    assert s1.history[lo0 + 0].seqNo == m0.logs[0].seqNo && s1.history[lo1 + 0].seqNo == m1.logs[0].seqNo;
    hide *;
    SameOrder(s1, lo0, lo1);
    ReachesFurther(s0, h, m1, s1, hi0, hi1);
    CommonRecords(m0, s0, h, m1, s1, lo0, lo1, hi1);
    PositionsAdvance(m0.logs, s0, lo0, hi0, m1.logs, s1, lo1, hi1);
  }

  lemma LineFromSince(m: MirrorLog, h: Server, l: LogLine)
    requires CopiedSince(m, h) && l in m.logs
    ensures FromSince(l, h)
  {
  }

  lemma SameOrder(s: Server, i: nat, j: nat)
    requires ValidServer(s) && i < |s.history| && j < |s.history| && s.history[i].seqNo <= s.history[j].seqNo
    ensures i <= j
  {
    if j < i {
      AscendingAt(s.history, j, i);
    }
  }

  lemma BeforeInOrder(s: Server, i: nat, j: nat)
    requires ValidServer(s) && i < j < |s.history|
    ensures s.history[i].seqNo < s.history[j].seqNo
  {
    AscendingAt(s.history, i, j);
  }

  /** The rehydrated window ends no earlier than the one before. */
  lemma ReachesFurther(s0: Server, h: Server, m1: MirrorLog, s1: Server, hi0: nat, hi1: nat)
    requires Evolves(s0, h) && Evolves(s0, s1) && CopiedSince(m1, h) && m1.logs != []
    requires 0 < hi0 <= |s0.history| && 0 < hi1 <= |s1.history| && m1.nextLogSeq == s1.history[hi1 - 1].seqNo
    ensures hi0 <= hi1 && s0.history[hi0 - 1].seqNo <= m1.nextLogSeq
  {
    hide Ascending;
    assert h.history[hi0 - 1].seqNo <= m1.nextLogSeq;
    SameOrder(s1, hi0 - 1, hi1 - 1);
  }

  lemma {:induction false} LinesCachedKeepFirst(cache: Cache, lines: seq<LogLine>, format: string -> string)
    requires cache != []
    ensures LinesCached(cache, lines, format) != [] && LinesCached(cache, lines, format)[0].0 == cache[0].0
  {
    if lines != [] {
      LinesCachedKeepFirst(cache, lines[..|lines| - 1], format);
    }
  }

  /** A window that reaches back further than the cached one is not copied whole. */
  lemma ReachingBackIsMissed(old': seq<LogLine>, m: MirrorLog, format: string -> string)
    requires Remote(m).Valid() && old' != [] && m.logs != [] && m.logs[0].seqNo < old'[0].seqNo
    requires 1 <= old'[|old'| - 1].seqNo <= m.logs[|m.logs| - 1].seqNo
    ensures Synced(Formatted(old', format), Remote(m), format) != Formatted(m.logs, format)
  {
    var cache := Formatted(old', format);
    var (first, lines) := Remote(m).LogsSince(CursorOf(cache));
    assert first == Some(m.logs[0].seqNo) && PrunedBelow(cache, first.value) == cache;
    hide Filter, Ascending;
    LinesCachedKeepFirst(cache, lines, format);
    hide LinesCached, PrunedBelow;
    assert Synced(cache, Remote(m), format)[0].0 == old'[0].seqNo;
    assert Formatted(m.logs, format)[0].0 == m.logs[0].seqNo;
  }

  lemma RehydratedPass(
      m0: MirrorLog, s0: Server, h: Server, m1: MirrorLog, s1: Server, format: string -> string)
    requires Mirrored(m0, s0) && Evolves(s0, h) && Evolves(h, s1) && Mirrored(m1, s1) && CopiedSince(m1, h)
    ensures Synced(Formatted(m0.logs, format), Remote(m1), format) == Formatted(m1.logs, format)
       <==> StartsNoLater(m0.logs, m1.logs)
  {
    MirroredIsSource(m0, s0);
    MirroredIsSource(m1, s1);
    if StartsNoLater(m0.logs, m1.logs) {
      if m0.logs != [] && m1.logs != [] {
        RehydratedAdvances(m0, s0, h, m1, s1);
      }
      hide *;
      WindowsAdvance(m0.logs, Remote(m1), format);
    } else {
      RehydratedEnds(m0, s0, h, m1, s1);
      hide *;
      ReachingBackIsMissed(m0.logs, m1, format);
    }
  }

  lemma WindowsAdvance(old': seq<LogLine>, source: Source, format: string -> string)
    requires source.Valid() && (old' == [] || source.Lines() == [] || Advances(old', source.Lines()))
    ensures Synced(Formatted(old', format), source, format) == Formatted(source.Lines(), format)
  {
    if old' == [] {
      EmptyCacheSynced(source, format);
    } else if source.Lines() == [] {
      EmptySourceClears(Formatted(old', format), source, format);
    } else {
      PassRestoresCache(old', source, format);
    }
  }

  lemma RehydratedEnds(m0: MirrorLog, s0: Server, h: Server, m1: MirrorLog, s1: Server)
    requires Mirrored(m0, s0) && Evolves(s0, h) && Evolves(h, s1) && Mirrored(m1, s1) && CopiedSince(m1, h)
    requires m0.logs != [] && m1.logs != []
    ensures 1 <= m0.logs[|m0.logs| - 1].seqNo <= m1.logs[|m1.logs| - 1].seqNo
  {
    MirroredIsSource(m0, s0);
    MirroredIsSource(m1, s1);
    var lo0, hi0 := WindowOf(m0, s0);
    var lo1, hi1 := WindowOf(m1, s1);
    EvolvesTransitive(s0, h, s1);
    hide MirroredExcept, Ascending, CopiedSince;
    ReachesFurther(s0, h, m1, s1, hi0, hi1);
  }

  lemma {:induction false} RunEvolvesServer(
      ms: seq<MirrorLog>, ss: seq<Server>, events: seq<MirrorEvent>, j: nat, k: nat)
    requires IsMirrorRun(ms, ss, events) && j <= k < |ms|
    ensures k < |ss| && Evolves(ss[j], ss[k])
    decreases k
  {
    if j == k {
      hide Happens, Evolves;
      EvolvesSelf(ss[j]);
    } else {
      hide *;
      RunShape(ms, ss, events);
      RunEvolvesServer(ms, ss, events, j, k - 1);
      RunStep(ms, ss, events, k - 1);
      HappensEvolves(ms[k - 1], ss[k - 1], events[k - 1], ms[k], ss[k]);
      EvolvesTransitive(ss[j], ss[k - 1], ss[k]);
    }
  }

  ghost predicate NoClears(events: seq<MirrorEvent>, j: nat, k: nat)
    requires k <= |events|
  {
    forall i :: j <= i < k ==> !Clears(events[i])
  }

  lemma NoClearsStep(events: seq<MirrorEvent>, j: nat, k: nat)
    requires j < k <= |events|
    ensures NoClears(events, j, k) <==> NoClears(events, j, k - 1) && !Clears(events[k - 1])
  {
  }

  /** Whatever happens, the mirror is the end of a history of its own. */
  lemma {:induction false} RunIsSource(ms: seq<MirrorLog>, ss: seq<Server>, events: seq<MirrorEvent>, k: nat)
    returns (v: Server)
    requires IsMirrorRun(ms, ss, events) && k < |ms|
    ensures Remote(ms[k]).Valid() && MirrorHistory(ms[k], v)
  {
    if k == 0 {
      v := Server([], 0);
    } else {
      hide *;
      RunShape(ms, ss, events);
      var before := RunIsSource(ms, ss, events, k - 1);
      RunStep(ms, ss, events, k - 1);
      var e := events[k - 1];
      if Clears(e) {
        v := Server([], 0);
        ClearedIsSource(ms[k - 1], ss[k - 1], e, ms[k], ss[k]);
      } else {
        StaysWhereItIs(ms[k - 1], before);
        EventAdvances(ms[k - 1], ss[k - 1], e, ms[k], ss[k], before);
        v := LaterIsSource(ms[k], before);
      }
    }
  }

  lemma ClearedIsSource(m: MirrorLog, s: Server, e: MirrorEvent, m': MirrorLog, s': Server)
    requires ValidServer(s) && Happens(m, s, e, m', s') && Clears(e)
    ensures Remote(m').Valid() && MirrorHistory(m', Server([], 0))
  {
    TailOfNothing();
    hide IsServedPage, MustRetail, Evolves, TailReplaced;
  }

  lemma LaterIsSource(m: MirrorLog, v: Server) returns (w: Server)
    requires ComesAfter(m, v)
    ensures Remote(m).Valid() && MirrorHistory(m, w)
  {
    w :| Evolves(v, w) && MirrorHistory(m, w);
    RetainedIsSource(w);
  }

  /** Along a run without a clear the mirror comes after what it was. */
  lemma {:induction false} RunComesAfter(
      ms: seq<MirrorLog>, ss: seq<Server>, events: seq<MirrorEvent>, j: nat, k: nat, v: Server)
    requires IsMirrorRun(ms, ss, events) && j <= k < |ms| == |events| + 1 && NoClears(events, j, k)
    requires MirrorHistory(ms[j], v)
    ensures ComesAfter(ms[k], v)
    decreases k
  {
    hide *;
    if j == k {
      StaysWhereItIs(ms[j], v);
    } else {
      NoClearsStep(events, j, k);
      RunComesAfter(ms, ss, events, j, k - 1, v);
      RunStep(ms, ss, events, k - 1);
      EventAdvances(ms[k - 1], ss[k - 1], events[k - 1], ms[k], ss[k], v);
    }
  }

  /** After a clear it has been copied anew. */
  lemma {:induction false} RunCopies(
      ms: seq<MirrorLog>, ss: seq<Server>, events: seq<MirrorEvent>, j: nat, k: nat)
    requires IsMirrorRun(ms, ss, events) && j <= k < |ms| == |events| + 1 && AllSteady(ms, events)
    requires !NoClears(events, j, k)
    ensures k < |ss| && CopiedAfter(ss[j], ms[k], ss[k])
    decreases k
  {
    hide *;
    RunShape(ms, ss, events);
    SomethingClears(events, j, k);
    if NoClears(events, j, k - 1) {
      NoClearsStep(events, j, k);
    } else {
      RunCopies(ms, ss, events, j, k - 1);
    }
    SteadyRunKeeps(ms, ss, events, k - 1);
    RunEvolvesServer(ms, ss, events, j, k - 1);
    CopiesStep(ms, ss, events, k - 1, ss[j]);
  }

  lemma CopiesStep(ms: seq<MirrorLog>, ss: seq<Server>, events: seq<MirrorEvent>, i: nat, s0: Server)
    requires IsMirrorRun(ms, ss, events) && i < |events| && i + 1 < |ms| == |ss| && |ms| == |events| + 1
    requires AllSteady(ms, events) && Mirrored(ms[i], ss[i]) && Evolves(s0, ss[i])
    requires CopiedAfter(s0, ms[i], ss[i]) || Clears(events[i])
    ensures CopiedAfter(s0, ms[i + 1], ss[i + 1])
  {
    hide *;
    RunStep(ms, ss, events, i);
    EventCopies(s0, ms[i], ss[i], events[i], ms[i + 1], ss[i + 1]);
  }

  lemma SomethingClears(events: seq<MirrorEvent>, j: nat, k: nat)
    requires j <= k <= |events| && !NoClears(events, j, k)
    ensures j < k
  {
  }

  lemma StaysWhereItIs(m: MirrorLog, v: Server)
    requires MirrorHistory(m, v)
    ensures ComesAfter(m, v)
  {
    EvolvesSelf(v);
  }

  lemma ComesAfterAdvances(m0: MirrorLog, v: Server, m1: MirrorLog)
    requires MirrorHistory(m0, v) && ComesAfter(m1, v)
    ensures Advances(m0.logs, m1.logs)
  {
    var w :| Evolves(v, w) && MirrorHistory(m1, w);
    EvolvesAdvances(v, w);
  }

  /**
   The mirror as a source, over every run of refreshes, tails and server moves without a clear:
   whatever happened between two points, one dirty pass makes the cache of the first the formatted
   mirror of the second.
   */
  lemma PassWithoutClears(
      ms: seq<MirrorLog>, ss: seq<Server>, events: seq<MirrorEvent>, j: nat, k: nat, format: string -> string)
    requires IsMirrorRun(ms, ss, events) && j <= k < |ms| == |events| + 1 && NoClears(events, j, k)
    ensures Synced(Formatted(ms[j].logs, format), Remote(ms[k]), format) == Formatted(ms[k].logs, format)
    ensures StartsNoLater(ms[j].logs, ms[k].logs)
  {
    var v := RunIsSource(ms, ss, events, j);
    var w := RunIsSource(ms, ss, events, k);
    assert Remote(ms[k]).Lines() == ms[k].logs;
    hide *;
    RunComesAfter(ms, ss, events, j, k, v);
    ComesAfterAdvances(ms[j], v, ms[k]);
    AdvancesStartsNoLater(ms[j].logs, ms[k].logs);
    PassRestoresCache(ms[j].logs, Remote(ms[k]), format);
  }

  /** Over every run, clears and all: exactly if the two windows agree where the pass does not ask again. */
  lemma PassAfterAnyRun(
      ms: seq<MirrorLog>, ss: seq<Server>, events: seq<MirrorEvent>, j: nat, k: nat, format: string -> string)
    requires IsMirrorRun(ms, ss, events) && j <= k < |ms|
    ensures Synced(Formatted(ms[j].logs, format), Remote(ms[k]), format) == Formatted(ms[k].logs, format)
       <==> OverlapIsRight(ms[j].logs, ms[k].logs, format)
  {
    var v := RunIsSource(ms, ss, events, j);
    var w := RunIsSource(ms, ss, events, k);
    assert Remote(ms[j]).Lines() == ms[j].logs;
    hide *;
    SourceAscends(ms[j]);
    PassRestoresExactly(ms[j].logs, ms[k], format);
  }

  lemma SourceAscends(m: MirrorLog)
    requires Remote(m).Valid()
    ensures Ascending(m.logs) && forall l :: l in m.logs ==> 1 <= l.seqNo
  {
    assert Remote(m).Lines() == m.logs;
  }

  /**
   If the refreshes of the run are steady, that is exactly if the mirror's window does not start
   before the cached one, or either is empty.
   */
  lemma PassAfterMirrorRun(
      ms: seq<MirrorLog>, ss: seq<Server>, events: seq<MirrorEvent>, j: nat, k: nat, format: string -> string)
    requires IsMirrorRun(ms, ss, events) && j <= k < |ms| == |events| + 1 && AllSteady(ms, events)
    ensures Synced(Formatted(ms[j].logs, format), Remote(ms[k]), format) == Formatted(ms[k].logs, format)
       <==> StartsNoLater(ms[j].logs, ms[k].logs)
  {
    hide *;
    if NoClears(events, j, k) {
      PassWithoutClears(ms, ss, events, j, k, format);
    } else {
      SteadyRunKeeps(ms, ss, events, j);
      SteadyRunKeeps(ms, ss, events, k);
      RunCopies(ms, ss, events, j, k);
      var h := CopiedAt(ss[j], ms[k], ss[k]);
      RehydratedPass(ms[j], ss[j], h, ms[k], ss[k], format);
    }
  }

  lemma CopiedAt(s0: Server, m: MirrorLog, s: Server) returns (h: Server)
    requires CopiedAfter(s0, m, s)
    ensures Evolves(s0, h) && Evolves(h, s) && CopiedSince(m, h)
  {
    h :| Evolves(s0, h) && Evolves(h, s) && CopiedSince(m, h);
  }

  // ---------------------------------------------------------------- a clear can lose lines of the view

  /** Between the two points of this run, the view loses lines that the mirror holds. */
  ghost predicate MissesLines(
      ms: seq<MirrorLog>, ss: seq<Server>, events: seq<MirrorEvent>, j: nat, k: nat, format: string -> string)
  {
    && IsMirrorRun(ms, ss, events) && j <= k < |ms| == |events| + 1 && AllSteady(ms, events)
    && Synced(Formatted(ms[j].logs, format), Remote(ms[k]), format) != Formatted(ms[k].logs, format)
  }

  /**
   The server's newest record of two is replaced by a shorter one, so that its size-bounded tail
   holds both; a restart clears the mirror, which is hydrated before the view passes again. The server
   keeps its records when an enable follows the restart (crates/micromux/src/scheduler.rs:463-488).
   The cache starts at the second record, and never gets the first.
   */
  lemma RehydratedReachesBack(format: string -> string)
    ensures exists ms, ss, events, j: nat, k: nat :: MissesLines(ms, ss, events, j, k, format)
  {
    var first, long, short := LogLine(1, 1, 0, "started"), LogLine(2, 1, 0, "50% done"), LogLine(2, 1, 0, "done");
    var s, t := Server([first, long], 0), Server([first, short], 0);
    var tail, rest := LogPage([long], true, Some(1)), LogPage([], false, Some(1));
    var all := LogPage([first, short], false, Some(1));
    var m, n := MirrorLog([long], 2, Some(2)), MirrorLog([first, short], 2, Some(1));
    assert Evolves(s, t) && !StartsNoLater(m.logs, n.logs);
    TailTaken(s, tail, rest, m);
    AllTaken(t, all, n);
    hide *;
    var ms, ss, events := ReplacedThenCleared(s, t, [tail, rest], [all], m, n);
    PassAfterMirrorRun(ms, ss, events, 1, 4, format);
    MissesWitness(ms, ss, events, 1, 4, format);
  }

  lemma MissesWitness(
      ms: seq<MirrorLog>, ss: seq<Server>, events: seq<MirrorEvent>, j: nat, k: nat, format: string -> string)
    requires IsMirrorRun(ms, ss, events) && j <= k < |ms| == |events| + 1 && AllSteady(ms, events)
    requires Synced(Formatted(ms[j].logs, format), Remote(ms[k]), format) != Formatted(ms[k].logs, format)
    ensures MissesLines(ms, ss, events, j, k, format)
  {
  }

  lemma ReplacedThenCleared(
      s: Server, t: Server, before: seq<LogPage>, after: seq<LogPage>, m: MirrorLog, n: MirrorLog)
    returns (ms: seq<MirrorLog>, ss: seq<Server>, events: seq<MirrorEvent>)
    requires Evolves(s, t) && |before| == 2 && |after| == 1
    requires IsRefresh(EMPTY_MIRROR, before, [s, s]) && AfterPages(EMPTY_MIRROR, before) == m
    requires IsSteady(EMPTY_MIRROR, before, [s, s])
    requires IsRefresh(EMPTY_MIRROR, after, [t]) && AfterPages(EMPTY_MIRROR, after) == n
    ensures IsMirrorRun(ms, ss, events) && |ms| == 5 && |events| == 4 && AllSteady(ms, events)
    ensures ms[1] == m && ms[4] == n
  {
    TailOfNothing();
    hide Evolves, IsRefresh, AfterPages, TailReplaced, ValidServer, KeepsUp;
    EvolvesEnds(s, t);
    ms, ss := [EMPTY_MIRROR, m, m, EMPTY_MIRROR, n], [s, s, t, t, t];
    events := [MirrorEvent.Refreshed(before, [s, s]), ServerMoved(t), Cleared, MirrorEvent.Refreshed(after, [t])];
    forall i | 0 <= i < 4 ensures Happens(ms[i], ss[i], events[i], ms[i + 1], ss[i + 1]) {
    }
    assert IsSteady(EMPTY_MIRROR, after, [t]);
  }

  lemma EvolvesEnds(s: Server, t: Server)
    requires Evolves(s, t)
    ensures ValidServer(s) && ValidServer(t)
  {
  }

  lemma TailTaken(s: Server, tail: LogPage, rest: LogPage, m: MirrorLog)
    requires ValidServer(s) && s.start == 0 && |s.history| == 2 && s.history[0].seqNo == 1 && s.history[1].seqNo == 2
    requires tail == LogPage([s.history[1]], true, Some(1)) && rest == LogPage([], false, Some(1))
    requires m == MirrorLog([s.history[1]], 2, Some(2))
    ensures IsRefresh(EMPTY_MIRROR, [tail, rest], [s, s]) && AfterPages(EMPTY_MIRROR, [tail, rest]) == m
    ensures IsSteady(EMPTY_MIRROR, [tail, rest], [s, s])
  {
    TailAnswers(s, tail, rest);
    OneLineAppended(s.history[1]);
    EmptyPageAppended(m);
    hide *;
    OnePageTaken(EMPTY_MIRROR, tail);
    assert m == PageAppended(EMPTY_MIRROR, tail.lines);
    TwoPages(EMPTY_MIRROR, s, tail, rest);
  }

  lemma OnePageTaken(m: MirrorLog, page: LogPage)
    ensures AfterPages(m, [page]) == PageAppended(m, page.lines)
  {
    assert [page][..0] == [];
  }

  lemma TwoPages(m: MirrorLog, s: Server, first: LogPage, rest: LogPage)
    requires ValidServer(s) && m.nextLogSeq == 0 && first.truncated && IsServedPage(first, s, None)
    requires IsServedPage(rest, s, Some(PageAppended(m, first.lines).nextLogSeq))
    ensures IsRefresh(m, [first, rest], [s, s]) && (s.start == 0 ==> IsSteady(m, [first, rest], [s, s]))
    ensures AfterPages(m, [first, rest]) == PageAppended(PageAppended(m, first.lines), rest.lines)
  {
    hide PageAppended, IsServedPage;
    OnePageTaken(m, first);
    assert [first, rest][..1] == [first];
    EvolvesSelf(s);
    hide Evolves;
    assert GoesOn(m, [first, rest], [s, s], 1);
  }

  lemma TailAnswers(s: Server, tail: LogPage, rest: LogPage)
    requires ValidServer(s) && s.start == 0 && |s.history| == 2 && s.history[0].seqNo == 1 && s.history[1].seqNo == 2
    requires tail == LogPage([s.history[1]], true, Some(1)) && rest == LogPage([], false, Some(1))
    ensures IsServedPage(tail, s, None) && IsServedPage(rest, s, Some(2))
  {
    hide Ascending;
    assert SinceFrom(s, 2, 0) == 2;
  }

  lemma AllTaken(s: Server, all: LogPage, n: MirrorLog)
    requires ValidServer(s) && s.start == 0 && |s.history| == 2 && s.history[0].seqNo == 1 && s.history[1].seqNo == 2
    requires all == LogPage(s.history, false, Some(1)) && n == MirrorLog(s.history, 2, Some(1))
    ensures IsRefresh(EMPTY_MIRROR, [all], [s]) && AfterPages(EMPTY_MIRROR, [all]) == n
  {
    hide Ascending;
    var a, b := s.history[0], s.history[1];
    assert s.history == [a] + [b] && [] + [a] == [a] && [all][..0] == [];
    LinesAppendedStep([], 0, [], a);
    LinesAppendedStep([], 0, [a], b);
  }
}
