/**
 What the attach client holds of one service's log, together with what is known about it: the server it
 was copied from, and the records that are out of date (crates/micromux-tui/src/remote.rs).
 */
module LogCopies {
  import opened Mirror
  import opened MirrorPages
  import opened Prelude
  import opened Replication

  /** A service that is added again under its id numbers its log from one: that is another log. */
  datatype Log = Log(born: nat, server: Server)

  /**
   `basis` is the log at the last applied answer, and `complete` says that the refresh ended there with
   the newest record as it is. A mirror is `mixed` if it goes on from what it held of another log.
   */
  datatype LogCopy = LogCopy(
    mirror: MirrorLog, basis: Option<Log>, complete: bool, behind: set<nat>, mixed: bool)

  const NO_LOGS := LogCopy(EMPTY_MIRROR, None, false, {}, false)

  /** The log that the last refresh was about, if it came to its end. */
  function AsOf(c: LogCopy): Option<Log> {
    if c.complete then c.basis else None
  }

  ghost predicate Grows(a: Log, b: Log) {
    a.born <= b.born && (a.born == b.born ==> Evolves(a.server, b.server))
  }

  lemma GrowsTransitive(a: Log, b: Log, c: Log)
    requires Grows(a, b) && Grows(b, c)
    ensures Grows(a, c)
  {
    if a.born == c.born {
      EvolvesTransitive(a.server, b.server, c.server);
    }
  }

  ghost predicate WellCopied(c: LogCopy) {
    && (c.mirror.logs == [] ==> c.mirror == EMPTY_MIRROR)
    && (if c.basis.None? then c == NO_LOGS
        else c.mixed || (
               && Tracks(c.mirror, c.basis.value.server, c.behind)
               && (c.complete ==> CaughtUpTo(c.mirror, c.basis.value.server, c.behind))))
  }

  /** The copy is of another log, and not empty. */
  predicate Foreign(c: LogCopy, log: Log) {
    c.mirror != EMPTY_MIRROR && (c.mixed || c.basis.None? || c.basis.value.born != log.born)
  }

  /** A later answer of a refresh finds the newest copied record replaced, and others behind it. */
  ghost predicate Outdates(c: LogCopy, stage: Stage, log: Log, page: LogPage)
    requires log.server.start <= |log.server.history|
  {
    stage.Next? && page.lines != [] && Replaced(c.mirror, log.server) != {}
  }

  /** It is replaced and nothing follows: the next refresh asks for it again. */
  ghost predicate EndsReplaced(c: LogCopy, stage: Stage, log: Log, page: LogPage)
    requires log.server.start <= |log.server.history|
  {
    stage.Next? && page.lines == [] && Replaced(c.mirror, log.server) != {} && !Foreign(c, log)
  }

  /** What the answer to one request makes of the copy. */
  ghost function Took(c: LogCopy, stage: Stage, log: Log, page: LogPage): LogCopy
    requires log.server.start <= |log.server.history|
  {
    var behind := if c.mirror == EMPTY_MIRROR then {} else c.behind;
    LogCopy(Taken(stage, c.mirror, page), Some(log),
            (stage.Tail? || !page.truncated) && !EndsReplaced(c, stage, log, page),
            if stage.Next? && page.lines == [] then behind
            else BehindAfter(stage, c.mirror, log.server, page, behind),
            !stage.Tail? && Foreign(c, log))
  }

  /** Between two answers of a refresh: the newest copied record was right at the first of them. */
  ghost predicate IsFresh(c: LogCopy) {
    c.mirror.logs != []
    && (c.mixed || (
          && c.basis.Some? && c.basis.value.server.start <= |c.basis.value.server.history|
          && Replaced(c.mirror, c.basis.value.server) == {}))
  }

  lemma EndsReplacedMoved(c: LogCopy, stage: Stage, log: Log, page: LogPage)
    requires IsFresh(c) && log.server.start <= |log.server.history| && EndsReplaced(c, stage, log, page)
    ensures c.basis.Some? && c.basis.value != log
  {
    hide Replaced;
  }

  predicate StartsOver(c: LogCopy, stage: Stage, page: LogPage) {
    stage.First? && MustRetail(c.mirror.nextLogSeq, page)
  }

  ghost function After(c: LogCopy, stage: Stage, log: Log, page: LogPage): LogCopy
    requires log.server.start <= |log.server.history|
  {
    if StartsOver(c, stage, page) then c else Took(c, stage, log, page)
  }

  /** What is to be asked next; nothing after the last answer. */
  function NextStage(c: LogCopy, stage: Stage, page: LogPage): Option<Stage> {
    if StartsOver(c, stage, page) then Some(Tail)
    else if !stage.Tail? && page.truncated then Some(Next)
    else None
  }

  // ---------------------------------------------------------------- one answer

  lemma TracksIsCopy(m: MirrorLog, s: Server, behind: set<nat>)
    requires Tracks(m, s, behind)
    ensures m.logs == [] ==> m == EMPTY_MIRROR
  {
    if m.logs == [] {
      NothingCopied(m, s, behind);
    }
  }

  lemma MixedIsHeld(m: MirrorLog, page: LogPage)
    requires m.logs != []
    ensures PageAppended(m, page.lines).logs != []
  {
    NeverEmptied(m.logs, m.nextLogSeq, page.lines);
  }

  /** What is known to hold of the copy at the log that answers. */
  lemma CopyTracks(c: LogCopy, log: Log)
    requires WellCopied(c) && ValidServer(log.server) && !Foreign(c, log)
    requires c.basis.Some? ==> Grows(c.basis.value, log)
    ensures Tracks(c.mirror, log.server, if c.mirror == EMPTY_MIRROR then {} else c.behind)
  {
    if c.mirror == EMPTY_MIRROR {
      EmptyTracks(log.server);
    } else {
      hide Tracks, CaughtUpTo, Evolves;
      TracksOn(c.mirror, c.basis.value.server, log.server, c.behind);
    }
  }

  /** Every answer of a refresh keeps the copy's invariant. */
  lemma TookKeeps(c: LogCopy, stage: Stage, log: Log, page: LogPage)
    requires WellCopied(c) && ValidServer(log.server) && IsServedPage(page, log.server, CursorAt(stage, c.mirror))
    requires c.basis.Some? ==> Grows(c.basis.value, log)
    requires !StartsOver(c, stage, page) && (stage.Next? ==> c.mirror.logs != [])
    ensures log.server.start <= |log.server.history| && WellCopied(Took(c, stage, log, page))
  {
    assert log.server.start <= |log.server.history|;
    hide Tracks, CaughtUpTo, IsServedPage, PageAppended, TailReplaced, Replaced, ValidServer, Grows, EndsReplaced;
    var m := c.mirror;
    if stage.Tail? {
      TailTracks(log.server, page);
      CaughtUpTracks(TailReplaced(page.lines), log.server, {});
      TracksIsCopy(TailReplaced(page.lines), log.server, {});
    } else if Foreign(c, log) {
      MixedIsHeld(m, page);
    } else {
      var behind := if m == EMPTY_MIRROR then {} else c.behind;
      CopyTracks(c, log);
      AnswerTracks(stage, m, log.server, page, behind);
      TracksIsCopy(Taken(stage, m, page), log.server, BehindAfter(stage, m, log.server, page, behind));
      if stage.Next? && page.lines == [] {
        NothingTook(c, log, page, behind);
      }
    }
  }

  /** An empty answer leaves the copy, which was right but for its newest record. */
  lemma NothingTook(c: LogCopy, log: Log, page: LogPage, behind: set<nat>)
    requires log.server.start <= |log.server.history| && page.lines == [] && Tracks(c.mirror, log.server, behind)
    requires !page.truncated ==>
      CaughtUpTo(Taken(Next, c.mirror, page), log.server, BehindAfter(Next, c.mirror, log.server, page, behind))
    requires !Foreign(c, log)
    ensures Taken(Next, c.mirror, page) == c.mirror
    ensures !page.truncated && !EndsReplaced(c, Next, log, page) ==> CaughtUpTo(c.mirror, log.server, behind)
  {
    TracksBounded(c.mirror, log.server, behind);
    EmptyPageAppended(c.mirror);
    hide Tracks, CaughtUpTo, PageAppended, Replaced;
    assert behind + {} == behind;
  }

  /** A shortened answer ends on a record as it is. */
  lemma TookFresh(c: LogCopy, stage: Stage, log: Log, page: LogPage)
    requires WellCopied(c) && ValidServer(log.server) && IsServedPage(page, log.server, CursorAt(stage, c.mirror))
    requires c.basis.Some? ==> Grows(c.basis.value, log)
    requires !StartsOver(c, stage, page) && (stage.Next? ==> c.mirror.logs != []) && NextStage(c, stage, page).Some?
    ensures log.server.start <= |log.server.history|
    ensures IsFresh(Took(c, stage, log, page))
  {
    assert log.server.start <= |log.server.history|;
    var m := c.mirror;
    if Foreign(c, log) {
      MixedIsHeld(m, page);
    } else {
      var behind := if m == EMPTY_MIRROR then {} else c.behind;
      CopyTracks(c, log);
      hide *;
      TruncatedFresh(c, stage, log, page, behind);
    }
  }

  lemma TruncatedFresh(c: LogCopy, stage: Stage, log: Log, page: LogPage, behind: set<nat>)
    requires ValidServer(log.server) && Tracks(c.mirror, log.server, behind)
    requires IsServedPage(page, log.server, CursorAt(stage, c.mirror)) && NextStage(c, stage, page).Some?
    requires !StartsOver(c, stage, page) && log.server.start <= |log.server.history|
    ensures Took(c, stage, log, page).mirror.logs != [] && Replaced(Took(c, stage, log, page).mirror, log.server) == {}
  {
    assert !stage.Tail? && page.truncated && Took(c, stage, log, page).mirror == PageAppended(c.mirror, page.lines);
    hide Took;
    FreshAfter(stage, c.mirror, log.server, page, behind);
  }

  // ---------------------------------------------------------------- what it means

  /** Something of the copy may be out of date although the last refresh was about this very log. */
  predicate Damaged(c: LogCopy) {
    c.mixed || c.behind != {}
  }

  /** A copy that no refresh damaged is right; otherwise exactly if nothing left behind is stale. */
  lemma RightExactly(c: LogCopy, log: Log)
    requires WellCopied(c) && AsOf(c) == Some(log) && !c.mixed
    ensures log.server.start <= |log.server.history|
    ensures Shows(c.mirror, log.server) <==> !StaleAmong(c.mirror, log.server, c.behind)
    ensures !Damaged(c) ==> Shows(c.mirror, log.server)
  {
    ShowsExactly(c.mirror, log.server, c.behind);
  }

  /** Where damage comes from. */
  ghost predicate Damages(c: LogCopy, stage: Stage, log: Log, page: LogPage) {
    log.server.start <= |log.server.history| && !StartsOver(c, stage, page)
    && (Outdates(c, stage, log, page) || (!stage.Tail? && Foreign(c, log)))
  }

  lemma AfterDamages(c: LogCopy, stage: Stage, log: Log, page: LogPage)
    requires log.server.start <= |log.server.history| && !Damaged(c) && !Damages(c, stage, log, page)
    ensures !Damaged(After(c, stage, log, page))
  {
    hide Replaced;
  }

  // ---------------------------------------------------------------- the requests of one refresh

  /** Where a refresh of `c` stands once it has these answers. */
  function StageAfter(c: LogCopy, answers: seq<LogPage>): Option<Stage> {
    if answers == [] then Some(First)
    else
      var n := |answers| - 1;
      match StageAfter(c, answers[..n])
      case Some(stage) => NextStage(c, stage, answers[n])
      case None => None
  }

  /** Every answer but the last called for the next, and none was cut to nothing. */
  ghost predicate AreServed(m: MirrorLog, answers: seq<LogPage>) {
    forall i :: 0 <= i < |answers| ==> NeedsAnswer(m, answers[..i]) && !CutToNothing(answers[i])
  }

  /** Taken one by one, the requests of a refresh are those of the loop in `RefreshLogs`, and end with them. */
  lemma {:induction false} StagesAreRefresh(c: LogCopy, answers: seq<LogPage>)
    requires AreServed(c.mirror, answers)
    ensures StageAfter(c, answers).Some? <==> NeedsAnswer(c.mirror, answers)
    ensures StageAfter(c, answers).Some? ==>
      var copied := if MustStartOver(c.mirror, answers) then c.mirror else AfterPages(c.mirror, answers);
      CursorAt(StageAfter(c, answers).value, copied) == RequestAfter(c.mirror, answers)
    ensures StageAfter(c, answers) == Some(First) <==> answers == []
    ensures StageAfter(c, answers) == Some(Tail) <==> |answers| == 1 && MustStartOver(c.mirror, answers)
  {
    hide PageAppended, MustRetail;
    if answers != [] {
      var n := |answers| - 1;
      var before := answers[..n];
      forall i | 0 <= i < n ensures NeedsAnswer(c.mirror, before[..i]) && !CutToNothing(before[i]) {
        assert before[..i] == answers[..i];
      }
      StagesAreRefresh(c, before);
      assert NeedsAnswer(c.mirror, answers[..n]);
    }
  }

  predicate MustStartOver(m: MirrorLog, answers: seq<LogPage>) {
    answers != [] && MustRetail(m.nextLogSeq, answers[0])
  }
}
