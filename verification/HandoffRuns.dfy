/**
 Runs of the attach protocol in which the mirror ends up connected, with nothing queued and nothing under
 way, and not as the server (crates/micromux-tui/src/remote.rs).
 */
module HandoffRuns {
  import opened Handoff
  import opened LogBuffer
  import opened LogCopies
  import opened Mirror
  import opened MirrorPages
  import opened MirrorStore
  import opened Prelude
  import opened Replication

  ghost predicate Reachable(s: State) {
    exists states, actions :: IsHandoff(states, actions) && states[|actions|] == s
  }

  lemma ReachableStep(s: State, a: Action, t: State)
    requires Reachable(s) && Does(s, a, t)
    ensures Reachable(t)
  {
    var states, actions :| IsHandoff(states, actions) && states[|actions|] == s;
    var states', actions' := states + [t], actions + [a];
    assert states'[|actions|] == s && actions'[|actions|] == a;
    forall i | 0 <= i < |actions'| ensures Does(states'[i], actions'[i], states'[i + 1]) {
      if i < |actions| {
        assert Does(states[i], actions[i], states[i + 1]);
      }
    }
    assert IsHandoff(states', actions');
  }

  ghost predicate IsSettled(s: State) {
    Reachable(s) && s.phase.Connected? && s.queue == [] && s.todo == [] && ValidWorld(s.world)
  }

  const EMPTY_WORLD := World([], map[])
  const EMPTY_COPY: Copy := Store([], map[])
  const UNATTACHED :=
    State(EMPTY_WORLD, 0, {}, EMPTY_COPY, Disconnected, false, [], [], First, None, iset{})
  const ATTACHED := UNATTACHED.(phase := Connected, live := true)
  const NO_PAGE := LogPage([], false, None)

  lemma EmptyRosterSync(s: State)
    requires Reachable(s) && s.world == EMPTY_WORLD && s.copy == EMPTY_COPY && s.stage.First?
    requires (s.phase.FirstSync? || s.phase.SecondSync?) && s.todo == [Roster] && s.answer.None? && s.lost == iset{}
    ensures Reachable(s.(todo := []))
  {
    var asked := s.(answer := Some(Listed'([])));
    assert Listing(EMPTY_WORLD) == [];
    assert s.lost - iset{Roster} == iset{};
    assert Does(s, Ask(NO_PAGE), asked);
    ReachableStep(s, Ask(NO_PAGE), asked);
    assert Ids([]) == [] && Filter<Snapshot>([], (sn: Snapshot) => NeedsHydration(EMPTY_COPY.entries, sn)) == [];
    assert IsReconciled(EMPTY_COPY, [], NO_LOGS, None, EMPTY_COPY, []);
    var done := s.(todo := []);
    assert [] + asked.todo[1..] == [] && SyncTasks([]) == [];
    assert Does(asked, Apply([]), done);
    ReachableStep(asked, Apply([]), done);
  }

  lemma AttachedReachable()
    ensures Reachable(ATTACHED)
  {
    var states, actions: seq<Action> := [UNATTACHED], [];
    assert IsHandoff(states, actions) && states[|actions|] == UNATTACHED;
    assert Reachable(UNATTACHED);
    var first := UNATTACHED.(phase := FirstSync, todo := [Roster]);
    ReachableStep(UNATTACHED, StartSync(true), first);
    EmptyRosterSync(first);
    var second := UNATTACHED.(phase := SecondSync, live := true, todo := [Roster]);
    ReachableStep(first.(todo := []), Subscribe, second);
    EmptyRosterSync(second);
    ReachableStep(second.(todo := []), Connect, ATTACHED);
  }

  // ---------------------------------------------------------------- one service

  const SNAPSHOT := Snapshot("a", 0, 0)

  function OneService(log: Log, health: nat): World {
    World(["a"], map["a" := Service(SNAPSHOT, log, health)])
  }

  function OneEntry(c: LogCopy, health: Option<nat>): Copy {
    Store(["a"], map["a" := Entry(SNAPSHOT, c, health, None)])
  }

  const ROSTER_NOTE := Change("a", RosterChange)
  const LOGS_NOTE := Change("a", LogsChange)

  lemma OneServiceValid(log: Log, health: nat)
    requires ValidServer(log.server)
    ensures var w := OneService(log, health);
      ValidWorld(w) && Listing(w) == [SNAPSHOT] && RosterDiffers(w, EMPTY_COPY)
  {
  }

  /** The service is added. */
  lemma ToldReachable(log: Log, told: State)
    requires log.born == 0 && ValidServer(log.server)
    requires told == ATTACHED.(world := OneService(log, 0), births := 1, seen := {"a"}, queue := [ROSTER_NOTE])
    ensures Reachable(told)
  {
    AttachedReachable();
    OneServiceValid(log, 0);
    var world := OneService(log, 0);
    assert ATTACHED.queue + [ROSTER_NOTE] == [ROSTER_NOTE];
    assert ATTACHED.seen + world.services.Keys == {"a"};
    assert ROSTER_NOTE in [ROSTER_NOTE] && Concerns(ROSTER_NOTE, Roster);
    assert forall k :: Changed(EMPTY_WORLD, world, {}, k) ==> k == Roster;
    assert (iset k | Unheard(ATTACHED, world, [ROSTER_NOTE], k)) == iset{};
    assert ATTACHED.lost + iset{} == iset{};
    assert Does(ATTACHED, ServerMoves(world, 1, [ROSTER_NOTE]), told);
    ReachableStep(ATTACHED, ServerMoves(world, 1, [ROSTER_NOTE]), told);
  }

  /** A settled state that has lost the roster, and does not have the server's. */
  ghost predicate LostRoster(s: State) {
    IsSettled(s) && Roster in s.lost && Differs(s.world, s.copy, Roster)
  }

  const NEW_LOG := Log(0, Server([], 0))
  const TOLD :=
    ATTACHED.(world := OneService(NEW_LOG, 0), births := 1, seen := {"a"}, queue := [ROSTER_NOTE])

  /**
   The reading arm of the loop records a notice for an answer that is neither a transport error nor
   expected, and goes on (crates/micromux-tui/src/remote.rs:375-381). A run in which that happens
   once ends without the service.
   */
  lemma SwallowedErrorLosesChange()
    ensures exists s :: LostRoster(s) && s.live
  {
    ToldReachable(NEW_LOG, TOLD);
    OneServiceValid(NEW_LOG, 0);
    var working := TOLD.(queue := [], todo := BatchTasks(Coalesced(TOLD.queue[..1])));
    assert TOLD.queue[1..] == [];
    ReachableStep(TOLD, TakeBatch(1), working);
    assert TOLD.queue[0] in TOLD.queue[..1] && Concerns(TOLD.queue[0], Roster);
    BatchTasksCover(TOLD.queue[..1], Roster);
    var lost := working.(todo := [], lost := working.lost + iset k | k in working.todo);
    ReachableStep(working, SwallowError, lost);
    assert LostRoster(lost) && lost.live;
  }

  /**
   So does a notification that cannot be read, which is skipped with a notice
   (crates/micromux-tui/src/remote.rs:371,390).
   */
  lemma SkippedFrameLosesChange()
    ensures exists s :: LostRoster(s) && s.live
  {
    ToldReachable(NEW_LOG, TOLD);
    OneServiceValid(NEW_LOG, 0);
    var lost := TOLD.(queue := [], lost := TOLD.lost + iset k | Concerns(TOLD.queue[0], k));
    assert TOLD.queue[..0] + TOLD.queue[1..] == [];
    ReachableStep(TOLD, SkipFrame(0), lost);
    assert LostRoster(lost) && lost.live;
  }

  /** The mirror also stays marked connected between the end of its subscription and noticing it. */
  lemma EndedSubscriptionLosesChange()
    ensures exists s :: LostRoster(s) && !s.live
  {
    AttachedReachable();
    var ended := ATTACHED.(live := false);
    ReachableStep(ATTACHED, SubscriptionEnds, ended);
    var moved := UntoldAddition(ended);
  }

  lemma UntoldAddition(ended: State) returns (moved: State)
    requires Reachable(ended) && ended == ATTACHED.(live := false)
    ensures LostRoster(moved) && !moved.live
  {
    var world, notes := OneService(NEW_LOG, 0), [ROSTER_NOTE];
    AdditionMoves(world);
    OneServiceValid(NEW_LOG, 0);
    var missed := iset k | Unheard(ended, world, notes, k);
    moved := ended.(world := world, births := 1, seen := {"a"}, lost := ended.lost + missed);
    hide Moves, Announces, Changed, Reachable;
    assert ended.seen + world.services.Keys == {"a"} && ended.queue == [];
    assert Does(ended, ServerMoves(world, 1, notes), moved);
    ReachableStep(ended, ServerMoves(world, 1, notes), moved);
  }

  lemma AdditionMoves(world: World)
    requires world == OneService(NEW_LOG, 0)
    ensures ValidWorld(EMPTY_WORLD) && ValidWorld(world) && Changed(EMPTY_WORLD, world, {}, Roster)
    ensures Announces(EMPTY_WORLD, world, [ROSTER_NOTE]) && Moves(EMPTY_WORLD, world, 0, 1)
  {
    OneServiceValid(NEW_LOG, 0);
    assert ROSTER_NOTE in [ROSTER_NOTE] && Concerns(ROSTER_NOTE, Roster);
    assert Listing(EMPTY_WORLD) != Listing(world);
    assert forall k :: Changed(EMPTY_WORLD, world, {}, k) ==> k == Roster;
  }

  // ---------------------------------------------------------------- requests

  /** Connected and live, at work on the one service. */
  ghost predicate AtWork(s: State) {
    && Reachable(s) && s.phase.Connected? && s.live && s.answer.None? && ValidWorld(s.world)
    && s.seen == {"a"} && s.births <= 2
  }

  function WithLogs(copy: Copy, c: LogCopy): Copy
    requires "a" in copy.entries
  {
    copy.(entries := copy.entries["a" := copy.entries["a"].(logs := c)])
  }

  /** One request for logs, and the use of its answer. */
  lemma LogsRequested(s: State, page: LogPage) returns (t: State)
    requires AtWork(s) && s.todo != [] && s.todo[0] == Of("a", Logs)
    requires "a" in s.world.services && "a" in s.copy.entries
    requires var (c, log) := (s.copy.entries["a"].logs, s.world.services["a"].log);
      ValidServer(log.server) && IsServedPage(page, log.server, CursorAt(s.stage, c.mirror))
    ensures var (c, log) := (s.copy.entries["a"].logs, s.world.services["a"].log);
      && AtWork(t) && log.server.start <= |log.server.history|
      && var next := NextStage(c, s.stage, page);
         t == s.(copy := WithLogs(s.copy, After(c, s.stage, log, page)),
                 todo := if next.Some? then s.todo else s.todo[1..],
                 stage := if next.Some? then next.value else First,
                 lost := if s.stage.Next? then s.lost else s.lost - iset{Of("a", Logs)})
  {
    var c, log := s.copy.entries["a"].logs, s.world.services["a"].log;
    hide *;
    var asked := LogsAsked(s, page);
    t := LogsAnswered(asked, log, page);
  }

  lemma LogsAsked(s: State, page: LogPage) returns (asked: State)
    requires AtWork(s) && s.todo != [] && s.todo[0] == Of("a", Logs)
    requires "a" in s.world.services && "a" in s.copy.entries && ValidServer(s.world.services["a"].log.server)
    requires IsServedPage(page, s.world.services["a"].log.server, CursorAt(s.stage, s.copy.entries["a"].logs.mirror))
    ensures Reachable(asked) && s.world.services["a"].log.server.start <= |s.world.services["a"].log.server.history|
    ensures asked == s.(answer := Some(LogsPage("a", s.world.services["a"].log, page)),
                        lost := if s.stage.Next? then s.lost else s.lost - iset{Of("a", Logs)})
    ensures asked.phase.Connected? && asked.live && ValidWorld(asked.world) && asked.seen == {"a"} && asked.births <= 2
    ensures s.answer.None?
  {
    hide IsServedPage, Reachable, CursorAt;
    asked := s.(answer := Some(LogsPage("a", s.world.services["a"].log, page)),
                lost := if s.stage.Next? then s.lost else s.lost - iset{Of("a", Logs)});
    assert Does(s, Ask(page), asked);
    ReachableStep(s, Ask(page), asked);
  }

  lemma LogsAnswered(asked: State, log: Log, page: LogPage) returns (t: State)
    requires Reachable(asked) && asked.phase.Connected? && asked.live && ValidWorld(asked.world)
    requires asked.seen == {"a"} && asked.births <= 2 && asked.todo != [] && "a" in asked.copy.entries
    requires asked.answer == Some(LogsPage("a", log, page)) && log.server.start <= |log.server.history|
    ensures AtWork(t)
    ensures var c := asked.copy.entries["a"].logs;
      var next := NextStage(c, asked.stage, page);
      t == asked.(copy := WithLogs(asked.copy, After(c, asked.stage, log, page)),
                  todo := if next.Some? then asked.todo else asked.todo[1..],
                  stage := if next.Some? then next.value else First, answer := None)
  {
    hide After, NextStage, Reachable, ValidWorld;
    var c := asked.copy.entries["a"].logs;
    var next := NextStage(c, asked.stage, page);
    t := asked.(copy := WithLogs(asked.copy, After(c, asked.stage, log, page)),
                todo := if next.Some? then asked.todo else asked.todo[1..],
                stage := if next.Some? then next.value else First, answer := None);
    assert Does(asked, Apply([]), t);
    ReachableStep(asked, Apply([]), t);
  }

  lemma HealthRequested(s: State) returns (t: State)
    requires AtWork(s) && s.todo != [] && s.todo[0] == Of("a", Health) && s.stage.First?
    requires "a" in s.world.services && "a" in s.copy.entries
    ensures AtWork(t)
    ensures t == s.(todo := s.todo[1..], lost := s.lost - iset{Of("a", Health)},
        copy := s.copy.(entries := s.copy.entries["a" := s.copy.entries["a"].(
                  health := Some(s.world.services["a"].health))]))
  {
    var health := s.world.services["a"].health;
    hide Reachable;
    var asked := s.(answer := Some(HealthIs("a", health)), lost := s.lost - iset{Of("a", Health)});
    assert Does(s, Ask(NO_PAGE), asked);
    ReachableStep(s, Ask(NO_PAGE), asked);
    t := s.(todo := s.todo[1..], lost := asked.lost,
            copy := s.copy.(entries := s.copy.entries["a" := s.copy.entries["a"].(health := Some(health))]));
    assert Does(asked, Apply([]), t);
    ReachableStep(asked, Apply([]), t);
  }

  lemma RosterRequested(s: State, hydrate: seq<Id>, copy: Copy) returns (t: State)
    requires AtWork(s) && s.todo != [] && s.todo[0] == Roster && s.stage.First?
    requires IsReconciled(s.copy, Listing(s.world), NO_LOGS, None, copy, hydrate)
    ensures AtWork(t)
    ensures t == s.(todo := SyncTasks(hydrate) + s.todo[1..], copy := copy, lost := s.lost - iset{Roster})
  {
    hide Reachable, IsReconciled;
    var asked := s.(answer := Some(Listed'(Listing(s.world))), lost := s.lost - iset{Roster});
    assert Does(s, Ask(NO_PAGE), asked);
    ReachableStep(s, Ask(NO_PAGE), asked);
    t := asked.(todo := SyncTasks(hydrate) + s.todo[1..], copy := copy, answer := None);
    assert Does(asked, Apply(hydrate), t);
    ReachableStep(asked, Apply(hydrate), t);
  }

  lemma BatchTaken(s: State, tasks: seq<Key>) returns (t: State)
    requires AtWork(s) && s.todo == [] && s.stage.First? && s.queue != [] && tasks == BatchTasks(Coalesced(s.queue))
    ensures AtWork(t) && t == s.(queue := [], todo := tasks)
  {
    hide Reachable, BatchTasks, Coalesced;
    var n := |s.queue|;
    assert s.queue[..n] == s.queue && s.queue[n..] == [];
    t := s.(queue := [], todo := tasks);
    ReachableStep(s, TakeBatch(n), t);
  }

  /** The server moves; what changes and is not announced is lost. */
  lemma MovedOn(s: State, world: World, births: nat, notes: seq<Change>, missed: iset<Key>) returns (t: State)
    requires AtWork(s) && ValidWorld(world) && Moves(s.world, world, s.births, births) && births <= 2
    requires world.services.Keys <= {"a"} && Announces(s.world, world, notes)
    requires forall k :: Changed(s.world, world, s.seen, k) && !Heard(notes, k) <==> k in missed
    ensures AtWork(t)
    ensures t == s.(world := world, births := births, queue := s.queue + notes, lost := s.lost + missed)
  {
    hide Reachable, Moves, Changed, ValidWorld, Announces;
    assert s.seen + world.services.Keys == s.seen;
    assert (iset k | Unheard(s, world, notes, k)) == missed;
    t := s.(world := world, births := births, queue := s.queue + notes, lost := s.lost + missed);
    assert Does(s, ServerMoves(world, births, notes), t);
    ReachableStep(s, ServerMoves(world, births, notes), t);
  }

  /** About to hydrate the one service. */
  lemma HydratingReachable(log: Log) returns (t: State)
    requires log.born == 0 && ValidServer(log.server)
    ensures AtWork(t) && t.world == OneService(log, 0) && t.births == 1 && t.copy == OneEntry(NO_LOGS, None)
    ensures t.queue == [] && t.todo == [Of("a", Logs), Of("a", Health)] && t.stage.First? && t.lost == iset{}
  {
    var told := ATTACHED.(world := OneService(log, 0), births := 1, seen := {"a"}, queue := [ROSTER_NOTE]);
    ToldReachable(log, told);
    OneServiceValid(log, 0);
    RosterTasks();
    assert AtWork(told);
    var working := BatchTaken(told, [Roster]);
    OneReconciled();
    t := RosterRequested(working, ["a"], OneEntry(NO_LOGS, None));
    assert SyncTasks(["a"]) == [Of("a", Logs), Of("a", Health)] + SyncTasks(["a"][1..]) && ["a"][1..] == [];
    assert working.todo[1..] == [];
  }

  lemma CoalescedOne(c: Change)
    ensures Coalesced([c]) == [c] && FacetTasks([]) == [] && [c][1..] == []
  {
    assert [c][..0] == [] && Coalesced([]) == [] && [] + [c] == [c];
  }

  lemma RosterTasks()
    ensures BatchTasks(Coalesced([ROSTER_NOTE])) == [Roster]
  {
    CoalescedOne(ROSTER_NOTE);
    assert ROSTER_NOTE in [ROSTER_NOTE] && ROSTER_NOTE.kind.RosterChange?;
    assert FacetTasks([ROSTER_NOTE]) == [];
  }

  lemma LogsTasks()
    ensures BatchTasks(Coalesced([LOGS_NOTE])) == [Of("a", Logs)]
  {
    CoalescedOne(LOGS_NOTE);
    assert FacetTasks([LOGS_NOTE]) == [Of("a", Logs)];
  }

  lemma BothTasks()
    ensures BatchTasks(Coalesced([ROSTER_NOTE, LOGS_NOTE])) == [Roster, Of("a", Logs)]
  {
    CoalescedOne(ROSTER_NOTE);
    CoalescedOne(LOGS_NOTE);
    var both := [ROSTER_NOTE, LOGS_NOTE];
    assert both[..1] == [ROSTER_NOTE] && both[1..] == [LOGS_NOTE];
    assert Coalesced(both) == both;
    assert ROSTER_NOTE in both && ROSTER_NOTE.kind.RosterChange?;
    assert FacetTasks([LOGS_NOTE]) == [Of("a", Logs)];
    assert FacetTasks(both) == [Of("a", Logs)];
  }

  lemma OneReconciled()
    ensures IsReconciled(EMPTY_COPY, [SNAPSHOT], NO_LOGS, None, OneEntry(NO_LOGS, None), ["a"])
  {
    var needs := (sn: Snapshot) => NeedsHydration(EMPTY_COPY.entries, sn);
    assert needs(SNAPSHOT) && [SNAPSHOT][1..] == [];
    assert Filter([SNAPSHOT], needs) == [SNAPSHOT];
  }

  // ---------------------------------------------------------------- a hydration leaves a record behind

  /** Settled, with nothing lost, and with logs that are not the server's. */
  ghost predicate WrongLogs(s: State) {
    IsSettled(s) && s.live && s.lost == iset{} && Differs(s.world, s.copy, Of("a", Logs))
  }

  /**
   A service is hydrated from a tail without its oldest record. Before the second request the newest
   record is replaced and another follows. The client is told, and refreshes again, from its cursor
   on: the old text stays. None of the steps that drop news is in this run.
   */
  lemma HydrationLosesChange()
    ensures exists s :: WrongLogs(s) && !s.copy.entries["a"].logs.mixed
  {
    var l, r := TwoTexts(2);
    var a, b := LogLine(1, 1, 0, ""), LogLine(3, 1, 0, "");
    var s, t := Server([a, l], 0), Server([a, r, b], 0);
    ReplacedAndFollowed(a, l, r, b);
    EvolvesEnds(s, t);
    hide *;
    var end := HydratedAcross(a, l, r, b, Log(0, s), Log(0, t));
  }

  lemma EvolvesEnds(s: Server, t: Server)
    requires Evolves(s, t)
    ensures ValidServer(s) && ValidServer(t)
  {
  }

  /** Between the first two answers of a hydration. */
  ghost predicate IsAsked(s: State, log: Log, c: LogCopy) {
    && AtWork(s) && s.world == OneService(log, 0) && s.births == 1 && s.copy == OneEntry(c, None)
    && s.queue == [] && s.todo == [Of("a", Logs), Of("a", Health)] && s.stage.Next? && s.lost == iset{}
  }

  lemma Asked(s: State, log: Log, c: LogCopy)
    requires AtWork(s) && s.world == OneService(log, 0) && s.births == 1 && s.copy == OneEntry(c, None)
    requires s.queue == [] && s.todo == [Of("a", Logs), Of("a", Health)] && s.stage.Next? && s.lost == iset{}
    ensures IsAsked(s, log, c)
  {
  }

  /** The first answer: a tail. */
  lemma TailReachable(before: Log, l: LogLine, first: LogPage) returns (asked: State, c: LogCopy)
    requires before.born == 0 && ValidServer(before.server) && IsServedPage(first, before.server, None)
    requires l.seqNo == 2 && first == LogPage([l], true, Some(1))
    ensures c.mirror == MirrorLog([l], 2, Some(2)) && c.basis == Some(before) && !c.mixed
    ensures IsAsked(asked, before, c)
  {
    hide *;
    var start := HydratingReachable(before);
    AtFirst(NO_LOGS);
    StartsInside(before.server);
    OneIs(NO_LOGS, None, before);
    NothingToLose();
    c := FirstPage(l, before, first);
    asked := LogsRequested(start, first);
    Asked(asked, before, c);
  }

  /** The server moves, and the second answer comes. */
  lemma HydratedReachable(asked: State, c: LogCopy, before: Log, after: Log, l: LogLine, b: LogLine, next: LogPage)
    returns (healthy: State, c': LogCopy)
    requires IsAsked(asked, before, c)
    requires c.mirror == MirrorLog([l], 2, Some(2)) && c.basis == Some(before) && !c.mixed
    requires before.born == after.born == 0 && Evolves(before.server, after.server)
    requires ValidServer(before.server) && ValidServer(after.server) && IsServedPage(next, after.server, Some(2))
    requires l.seqNo == 2 && b.seqNo == 3 && next == LogPage([b], false, Some(1))
    ensures c'.mirror == MirrorLog([l, b], 3, Some(2)) && c'.basis == Some(after) && !c'.mixed
    ensures AtWork(healthy) && healthy.world == OneService(after, 0) && healthy.copy == OneEntry(c', Some(0))
    ensures healthy.queue == [LOGS_NOTE] && healthy.todo == [] && healthy.stage.First? && healthy.lost == iset{}
  {
    NextCursor(asked, c, after);
    OneIs(c, None, after);
    hide *;
    var moved := MovedBetween(asked, before, after);
    c' := NextPage(c, l, b, after, next);
    OneIs(c', None, after);
    var hydrated := LogsRequested(moved, next);
    assert hydrated.copy == OneEntry(c', None);
    healthy := HealthRequested(hydrated);
    NothingToLose();
  }

  lemma NothingToLose()
    ensures iset{} - iset{Of("a", Logs)} == iset{} && iset{} - iset{Of("a", Health)} == iset{}
  {
  }

  lemma StartsInside(s: Server)
    requires ValidServer(s)
    ensures s.start <= |s.history|
  {
  }

  lemma SeesOne(s: State)
    requires AtWork(s)
    ensures s.seen == {"a"}
  {
  }

  lemma NextCursor(asked: State, c: LogCopy, after: Log)
    requires AtWork(asked) && ValidServer(after.server) && c.mirror.nextLogSeq == 2
    ensures asked.seen == {"a"} && after.server.start <= |after.server.history|
    ensures CursorAt(Next, c.mirror) == Some(2)
  {
  }

  lemma MovedBetween(asked: State, before: Log, after: Log) returns (moved: State)
    requires AtWork(asked) && asked.world == OneService(before, 0) && asked.births == 1 && asked.seen == {"a"}
    requires before.born == after.born == 0 && Evolves(before.server, after.server) && asked.queue == []
    requires ValidServer(before.server) && ValidServer(after.server) && asked.lost == iset{}
    ensures AtWork(moved) && moved == asked.(world := OneService(after, 0), queue := [LOGS_NOTE])
  {
    LogsMove(before, after, 1);
    hide *;
    assert [] + [LOGS_NOTE] == [LOGS_NOTE];
    moved := MovedOn(asked, OneService(after, 0), 1, [LOGS_NOTE], iset{});
    assert asked.lost + iset{} == asked.lost;
  }

  lemma OneIs(c: LogCopy, health: Option<nat>, log: Log)
    ensures var (copy, w) := (OneEntry(c, health), OneService(log, 0));
      && "a" in copy.entries && copy.entries["a"] == Entry(SNAPSHOT, c, health, None)
      && "a" in w.services && w.services["a"] == Service(SNAPSHOT, log, 0)
      && forall c' :: WithLogs(copy, c') == OneEntry(c', health)
    ensures var copy := OneEntry(c, None);
      OneEntry(c, Some(0)) == copy.(entries := copy.entries["a" := copy.entries["a"].(health := Some(0))])
  {
  }

  /** The client is told, and refreshes again. */
  lemma ToldAgain(healthy: State, c: LogCopy, after: Log, l: LogLine, b: LogLine, next: LogPage)
    returns (end: State, c': LogCopy)
    requires AtWork(healthy) && healthy.world == OneService(after, 0) && healthy.copy == OneEntry(c, Some(0))
    requires healthy.queue == [LOGS_NOTE] && healthy.todo == [] && healthy.stage.First? && healthy.lost == iset{}
    requires c.mirror == MirrorLog([l, b], 3, Some(2)) && c.basis == Some(after) && !c.mixed
    requires ValidServer(after.server) && IsServedPage(next, after.server, Some(2))
    requires l.seqNo == 2 && b.seqNo == 3 && next == LogPage([b], false, Some(1))
    ensures AtWork(end) && end.world == OneService(after, 0) && end.copy == OneEntry(c', Some(0))
    ensures end.queue == [] && end.todo == [] && end.lost == iset{}
    ensures c'.mirror == MirrorLog([l, b], 3, Some(2)) && !c'.mixed
  {
    hide *;
    LogsTasks();
    StartsInside(after.server);
    OneIs(c, Some(0), after);
    NothingToLose();
    c' := PageAgain(c, l, b, after, next);
    var told := BatchTaken(healthy, [Of("a", Logs)]);
    end := LogsRequested(told, next);
  }

  lemma HydratedAcross(a: LogLine, l: LogLine, r: LogLine, b: LogLine, before: Log, after: Log) returns (end: State)
    requires a.seqNo == 1 && l.seqNo == r.seqNo == 2 && b.seqNo == 3 && l != r
    requires before == Log(0, Server([a, l], 0)) && after == Log(0, Server([a, r, b], 0))
    requires Evolves(before.server, after.server) && ValidServer(before.server) && ValidServer(after.server)
    ensures WrongLogs(end) && "a" in end.copy.entries && !end.copy.entries["a"].logs.mixed
  {
    hide *;
    var first, next := LogPage([l], true, Some(1)), LogPage([b], false, Some(1));
    HydrationAnswers(before.server, after.server, first, next);
    AnswersServed(after.server, next);
    var asked, c1 := TailReachable(before, l, first);
    var healthy, c2 := HydratedReachable(asked, c1, before, after, l, b, next);
    var c3;
    end, c3 := ToldAgain(healthy, c2, after, l, b, next);
    StaysInMirror(c3.mirror, l, r, b, after.server);
    EndsWrong(end, c3, after);
  }

  lemma AnswersServed(s: Server, next: LogPage)
    requires ValidServer(s) && IsLogPage(next, s, Some(2)) && !next.truncated
    ensures IsServedPage(next, s, Some(2))
  {
    hide IsLogPage;
  }

  lemma StaysInMirror(m: MirrorLog, l: LogLine, r: LogLine, b: LogLine, s: Server)
    requires m.logs == [l, b] && l.seqNo == r.seqNo && l != r && ValidServer(s) && s.start == 0
    requires |s.history| == 3 && s.history[1] == r
    ensures !Shows(m, s)
  {
    assert Retained(s)[1] == r && m.logs[0] == l;
    OldTextStays(m, l, r, s);
  }

  lemma EndsWrong(end: State, c: LogCopy, log: Log)
    requires AtWork(end) && end.world == OneService(log, 0) && end.copy == OneEntry(c, Some(0))
    requires end.queue == [] && end.todo == [] && end.lost == iset{} && !Shows(c.mirror, log.server)
    ensures WrongLogs(end) && "a" in end.copy.entries && end.copy.entries["a"].logs == c
  {
    hide Shows, Reachable;
  }

  lemma AtFirst(c: LogCopy)
    ensures CursorAt(First, NO_LOGS.mirror) == None
  {
  }

  lemma FirstPage(l: LogLine, log: Log, page: LogPage) returns (c: LogCopy)
    requires l.seqNo == 2 && page == LogPage([l], true, Some(1)) && log.server.start <= |log.server.history|
    ensures c == After(NO_LOGS, First, log, page) && NextStage(NO_LOGS, First, page) == Some(Next)
    ensures c.mirror == MirrorLog([l], 2, Some(2)) && c.basis == Some(log) && !c.mixed
    ensures CursorAt(Next, c.mirror) == Some(2)
  {
    OneLineAppended(l);
    c := After(NO_LOGS, First, log, page);
    hide PageAppended;
  }

  lemma NextPage(c: LogCopy, l: LogLine, b: LogLine, log: Log, page: LogPage) returns (c': LogCopy)
    requires c.mirror == MirrorLog([l], 2, Some(2)) && c.basis.Some? && c.basis.value.born == log.born && !c.mixed
    requires l.seqNo == 2 && b.seqNo == 3 && page == LogPage([b], false, Some(1))
    requires log.server.start <= |log.server.history|
    ensures c' == After(c, Next, log, page) && NextStage(c, Next, page) == None
    ensures c'.mirror == MirrorLog([l, b], 3, Some(2)) && c'.basis == Some(log) && !c'.mixed
  {
    SecondLineAppended(l, b);
    c' := After(c, Next, log, page);
    hide PageAppended;
  }

  /** The newest record again. */
  lemma PageAgain(c: LogCopy, l: LogLine, b: LogLine, log: Log, page: LogPage) returns (c': LogCopy)
    requires c.mirror == MirrorLog([l, b], 3, Some(2)) && c.basis.Some? && c.basis.value.born == log.born && !c.mixed
    requires l.seqNo == 2 && b.seqNo == 3 && page == LogPage([b], false, Some(1))
    requires log.server.start <= |log.server.history|
    ensures c' == After(c, First, log, page) && NextStage(c, First, page) == None
    ensures c'.mirror == c.mirror && !c'.mixed && CursorAt(First, c.mirror) == Some(2)
  {
    NewestAgain(l, b);
    hide PageAppended;
    c' := After(c, First, log, page);
  }

  lemma NewestAgain(l: LogLine, b: LogLine)
    requires l.seqNo == 2 && b.seqNo == 3
    ensures PageAppended(MirrorLog([l, b], 3, Some(2)), [b]) == MirrorLog([l, b], 3, Some(2))
  {
    LinesAppendedStep([l, b], 3, [], b);
    assert [] + [b] == [b] && [l, b][..1] + [b] == [l, b];
  }

  lemma LogsMove(before: Log, after: Log, births: nat)
    requires before.born == after.born < births && Evolves(before.server, after.server)
    requires ValidServer(before.server) && ValidServer(after.server)
    ensures var (w, w') := (OneService(before, 0), OneService(after, 0));
      && ValidWorld(w) && ValidWorld(w') && Moves(w, w', births, births) && w'.services.Keys <= {"a"}
      && Announces(w, w', [LOGS_NOTE])
      && forall k :: !(Changed(w, w', {"a"}, k) && !Heard([LOGS_NOTE], k))
  {
    var w, w' := OneService(before, 0), OneService(after, 0);
    hide ValidServer, Evolves;
    assert Listing(w) == Listing(w');
    assert LOGS_NOTE in [LOGS_NOTE];
    forall k | Changed(w, w', {"a"}, k) ensures Heard([LOGS_NOTE], k) {
      assert k == Of("a", Logs) && Concerns(LOGS_NOTE, k);
    }
  }

  lemma OldTextStays(m: MirrorLog, l: LogLine, r: LogLine, s: Server)
    requires l in m.logs && l.seqNo == r.seqNo && l != r && ValidServer(s) && r in Retained(s)
    ensures !Shows(m, s)
  {
    assert s.start <= |s.history|;
    hide Shows;
    if Shows(m, s) {
      ShowsNoStale(m, s, {l.seqNo});
    }
  }

  // ---------------------------------------------------------------- a service is added again

  /** Settled; the health is lost, and the logs are not, but both are those of a service that is gone. */
  ghost predicate HoldsRemoved(s: State) {
    && IsSettled(s) && s.live && "a" in s.copy.entries && s.copy.entries["a"].logs.mixed
    && Of("a", Health) in s.lost && Differs(s.world, s.copy, Of("a", Health))
    && Of("a", Logs) !in s.lost && Differs(s.world, s.copy, Of("a", Logs))
  }

  /**
   A service is removed and added again under its id before the client lists services. It is listed as
   before, so that the client keeps its entry. Its log begins anew, and is announced; but the client
   asks for what comes after its old cursor, and keeps the old lines.
   */
  lemma RecreatedServiceLosesChange()
    ensures exists s :: HoldsRemoved(s)
  {
    hide *;
    var l, r := TwoTexts(1);
    var before, after := Log(0, Server([l, LogLine(2, 1, 0, "")], 0)), Log(1, Server([r], 0));
    RecreatedValid(before, after);
    var end := Recreation(before, after);
  }

  lemma RecreatedValid(before: Log, after: Log)
    requires before.server.start == 0 && |before.server.history| == 2 && after.server.start == 0
    requires before.server.history[0].seqNo == 1 && before.server.history[1].seqNo == 2
    requires |after.server.history| == 1 && after.server.history[0].seqNo == 1
    ensures ValidServer(before.server) && ValidServer(after.server)
  {
  }

  lemma Recreation(before: Log, after: Log) returns (end: State)
    requires ValidServer(before.server) && ValidServer(after.server) && before.born == 0 && after.born == 1
    requires before.server.start == 0 && |before.server.history| == 2 && after.server.start == 0
    requires before.server.history[0].seqNo == 1 && before.server.history[1].seqNo == 2
    requires |after.server.history| == 1 && after.server.history[0].seqNo == 1
    requires after.server.history[0] != before.server.history[0]
    ensures HoldsRemoved(end)
  {
    hide *;
    var healthy, c := CopiedWhole(before);
    RecreationMoves(before, after);
    BothTasks();
    var notes := [ROSTER_NOTE, LOGS_NOTE];
    var moved := MovedOn(healthy, OneService(after, 1), 2, notes, iset{Of("a", Health)});
    assert [] + notes == notes;
    var told := BatchTaken(moved, [Roster, Of("a", Logs)]);
    StaysReconciled(after, c);
    var listed := RosterRequested(told, [], OneEntry(c, Some(0)));
    NothingHydrated(told.todo);
    NothingBeyond(c, before, after);
    EntryIs(c, after);
    end := LogsRequested(listed, NOTHING);
    EndsRemoved(end, c, after, After(c, First, after, NOTHING));
  }

  const NOTHING := LogPage([], false, Some(1))

  /** The service's two lines are copied, and its health. */
  lemma CopiedWhole(before: Log) returns (healthy: State, c: LogCopy)
    requires ValidServer(before.server) && before.born == 0 && before.server.start == 0
    requires |before.server.history| == 2
    requires before.server.history[0].seqNo == 1 && before.server.history[1].seqNo == 2
    ensures AtWork(healthy) && healthy.world == OneService(before, 0) && healthy.births == 1
    ensures healthy.copy == OneEntry(c, Some(0)) && healthy.queue == [] && healthy.todo == [] && healthy.stage.First?
    ensures healthy.lost == iset{} && healthy.seen == {"a"}
    ensures c.mirror == MirrorLog(before.server.history, 2, Some(1)) && c.basis == Some(before)
  {
    hide *;
    var page := LogPage(before.server.history, false, Some(1));
    var start := HydratingReachable(before);
    AtFirst(NO_LOGS);
    WholePage(before, page);
    c := After(NO_LOGS, First, before, page);
    OneIs(NO_LOGS, None, before);
    OneIs(c, None, before);
    NothingToLose();
    var hydrated := LogsRequested(start, page);
    assert hydrated.copy == OneEntry(c, None);
    healthy := HealthRequested(hydrated);
    SeesOne(healthy);
  }

  lemma WholePage(log: Log, page: LogPage)
    requires ValidServer(log.server) && log.server.start == 0 && |log.server.history| == 2
    requires log.server.history[0].seqNo == 1 && log.server.history[1].seqNo == 2
    requires page == LogPage(log.server.history, false, Some(1))
    ensures IsServedPage(page, log.server, None) && log.server.start <= |log.server.history|
    ensures NextStage(NO_LOGS, First, page) == None
    ensures var c := After(NO_LOGS, First, log, page);
      c.mirror == MirrorLog(log.server.history, 2, Some(1)) && c.basis == Some(log)
  {
    var a, b := log.server.history[0], log.server.history[1];
    assert log.server.history == [a, b] && log.server.history[0..] == log.server.history;
    TwoLinesAppended(a, b);
    hide PageAppended, Ascending;
  }

  lemma TwoLinesAppended(a: LogLine, b: LogLine)
    requires a.seqNo == 1 && b.seqNo == 2
    ensures PageAppended(EMPTY_MIRROR, [a, b]) == MirrorLog([a, b], 2, Some(1))
  {
    LinesAppendedStep([], 0, [], a);
    LinesAppendedStep([], 0, [a], b);
    assert [] + [a] == [a] && [a] + [b] == [a, b];
  }

  lemma HealthUntold()
    ensures !Heard([ROSTER_NOTE, LOGS_NOTE], Of("a", Health))
  {
    var notes := [ROSTER_NOTE, LOGS_NOTE];
    forall c | c in notes ensures !Concerns(c, Of("a", Health)) {
      assert c == ROSTER_NOTE || c == LOGS_NOTE;
      assert c.kind.RosterChange? || c.kind.LogsChange?;
    }
  }

  lemma RecreationMoves(before: Log, after: Log)
    requires ValidServer(before.server) && ValidServer(after.server) && before.born == 0 && after.born == 1
    ensures var (w, w', notes) := (OneService(before, 0), OneService(after, 1), [ROSTER_NOTE, LOGS_NOTE]);
      && ValidWorld(w) && ValidWorld(w') && Moves(w, w', 1, 2) && w'.services.Keys <= {"a"}
      && Announces(w, w', notes)
      && forall k :: Changed(w, w', {"a"}, k) && !Heard(notes, k) <==> k in iset{Of("a", Health)}
  {
    var w, w', notes := OneService(before, 0), OneService(after, 1), [ROSTER_NOTE, LOGS_NOTE];
    hide ValidServer;
    assert Listing(w) == Listing(w');
    assert LOGS_NOTE in notes && Concerns(LOGS_NOTE, Of("a", Logs));
    HealthUntold();
    forall k | Changed(w, w', {"a"}, k) ensures k == Of("a", Logs) || k == Of("a", Health) {
    }
  }

  lemma StaysReconciled(after: Log, c: LogCopy)
    requires ValidServer(after.server)
    ensures var (w, copy) := (OneService(after, 1), OneEntry(c, Some(0)));
      && ValidWorld(w) && IsReconciled(copy, Listing(w), NO_LOGS, None, copy, [])
  {
    var copy := OneEntry(c, Some(0));
    var needs := (sn: Snapshot) => NeedsHydration(copy.entries, sn);
    OneServiceValid(after, 1);
    assert !needs(SNAPSHOT) && [SNAPSHOT][1..] == [];
    IdsGrow([], SNAPSHOT);
    assert Filter([SNAPSHOT], needs) == [];
  }

  lemma NothingHydrated(todo: seq<Key>)
    requires todo == [Roster, Of("a", Logs)]
    ensures SyncTasks([]) + todo[1..] == [Of("a", Logs)]
    ensures iset{Of("a", Health)} - iset{Roster} == iset{Of("a", Health)}
  {
  }

  /** The log of the new service has nothing beyond the old cursor. */
  lemma NothingBeyond(c: LogCopy, before: Log, after: Log)
    requires c.mirror == MirrorLog(before.server.history, 2, Some(1)) && c.basis == Some(before)
    requires before.born != after.born && ValidServer(after.server) && after.server.start == 0
    requires |before.server.history| == 2 && before.server.history[0].seqNo == 1
    requires |after.server.history| == 1 && after.server.history[0].seqNo == 1
    requires after.server.history[0] != before.server.history[0]
    ensures after.server.start <= |after.server.history|
    ensures IsServedPage(NOTHING, after.server, CursorAt(First, c.mirror))
    ensures NextStage(c, First, NOTHING) == None
    ensures var c' := After(c, First, after, NOTHING); c'.mirror == c.mirror && c'.mixed
    ensures !Shows(c.mirror, after.server)
  {
    NothingAnswers(c, after);
    NothingTaken(c, before, after);
    var l, r := before.server.history[0], after.server.history[0];
    assert l in c.mirror.logs && Retained(after.server)[0] == r;
    hide Shows, IsServedPage, After, NextStage;
    OldTextStays(c.mirror, l, r, after.server);
  }

  lemma NothingAnswers(c: LogCopy, after: Log)
    requires c.mirror.nextLogSeq == 2 && ValidServer(after.server) && after.server.start == 0
    requires |after.server.history| == 1 && after.server.history[0].seqNo == 1
    ensures IsServedPage(NOTHING, after.server, CursorAt(First, c.mirror))
  {
    assert SinceFrom(after.server, 1, 0) == 1;
  }

  lemma NothingTaken(c: LogCopy, before: Log, after: Log)
    requires c.mirror == MirrorLog(before.server.history, 2, Some(1)) && c.basis == Some(before)
    requires before.born != after.born && after.server.start <= |after.server.history|
    requires |before.server.history| == 2 && before.server.history[0].seqNo == 1
    ensures NextStage(c, First, NOTHING) == None
    ensures var c' := After(c, First, after, NOTHING); c'.mirror == c.mirror && c'.mixed
  {
    EmptyPageAppended(c.mirror);
    hide PageAppended, BehindAfter;
  }

  lemma EntryIs(c: LogCopy, after: Log)
    ensures OneEntry(c, Some(0)).entries.Keys == {"a"} && OneEntry(c, Some(0)).entries["a"].logs == c
    ensures OneService(after, 1).services.Keys == {"a"} && OneService(after, 1).services["a"].log == after
  {
  }

  lemma EndsRemoved(end: State, c: LogCopy, after: Log, c': LogCopy)
    requires AtWork(end) && end.world == OneService(after, 1) && end.queue == [] && end.todo == []
    requires end.copy == WithLogs(OneEntry(c, Some(0)), c') && end.lost == iset{Of("a", Health)} - iset{Of("a", Logs)}
    requires c'.mixed && c'.mirror == c.mirror && !Shows(c.mirror, after.server)
    ensures HoldsRemoved(end)
  {
    hide Shows, Reachable;
  }
}
