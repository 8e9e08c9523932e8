/**
 The attach client's handoff from polling to notifications (crates/micromux-tui/src/remote.rs):
 full sync, subscribe, full sync again, then drain notifications in coalesced batches and refresh
 what they name. Server and client steps interleave freely, between the requests of one refresh too.

 Logs are the real ones, copied page by page; the contents of health are version numbers.
 */
module Handoff {
  import opened LogCopies
  import opened Mirror
  import opened MirrorPages
  import opened MirrorStore
  import opened Prelude
  import opened Replication

  datatype Kind =
    | StatusChange | RosterChange | UnknownChange | LogsChange | HealthChange | EventsChange | Heartbeat

  datatype Change = Change(service: Id, kind: Kind)

  datatype Facet = Logs | Health

  /** What one refresh brings up to date. */
  datatype Key = Roster | Of(id: Id, facet: Facet)

  /** What a change calls for: the roster for its own kinds and for those of a newer server. */
  predicate Concerns(c: Change, k: Key) {
    match k
    case Roster => c.kind == StatusChange || c.kind == RosterChange || c.kind == UnknownChange
    case Of(id, facet) => c == Change(id, if facet.Logs? then LogsChange else HealthChange)
  }

  ghost predicate Heard(changes: seq<Change>, k: Key) {
    exists c :: c in changes && Concerns(c, k)
  }

  // ---------------------------------------------------------------- batches

  /** The first occurrence of every change, in order. */
  function Coalesced(changes: seq<Change>): seq<Change> {
    if changes == [] then []
    else
      var before, last := Coalesced(changes[..|changes| - 1]), changes[|changes| - 1];
      if last in before then before else before + [last]
  }

  lemma {:induction false} CoalescedHearsTheSame(changes: seq<Change>)
    ensures forall c :: c in Coalesced(changes) <==> c in changes
    ensures Distinct(Coalesced(changes))
  {
    if changes != [] {
      var n := |changes| - 1;
      CoalescedHearsTheSame(changes[..n]);
      assert changes == changes[..n] + [changes[n]];
    }
  }

  /** `a` comes before any `b`. */
  ghost predicate ComesFirst<T(!new)>(s: seq<T>, a: T, b: T) {
    exists p :: 0 <= p < |s| && s[p] == a && b !in s[..p + 1]
  }

  /** And in the order of the first occurrences. */
  lemma {:induction false} CoalescedInOrder(changes: seq<Change>, i: nat, j: nat)
    requires i < j < |Coalesced(changes)|
    ensures ComesFirst(changes, Coalesced(changes)[i], Coalesced(changes)[j])
  {
    var n := |changes| - 1;
    var before, kept := changes[..n], Coalesced(changes);
    CoalescedHearsTheSame(before);
    if j < |Coalesced(before)| {
      CoalescedInOrder(before, i, j);
      var p :| 0 <= p < n && before[p] == kept[i] && kept[j] !in before[..p + 1];
      assert before[..p + 1] == changes[..p + 1] && changes[p] == kept[i];
    } else {
      assert kept[i] in before;
      var p :| 0 <= p < n && before[p] == kept[i];
      assert kept[j] !in before && changes[..p + 1] == before[..p + 1];
      assert changes[p] == kept[i];
    }
  }

  /** `CoalescedChanges::new`. */
  method CoalesceChanges(changes: seq<Change>) returns (kept: seq<Change>)
    ensures kept == Coalesced(changes)
    ensures Distinct(kept) && forall c :: c in kept <==> c in changes
    ensures forall i, j :: 0 <= i < j < |kept| ==> ComesFirst(changes, kept[i], kept[j])
  {
    var seen: set<Change> := {};
    kept := [];
    for i := 0 to |changes|
      invariant kept == Coalesced(changes[..i])
      invariant forall c :: c in seen <==> c in kept
    {
      PrefixGrows(changes, i);
      assert changes[..i + 1][..i] == changes[..i];
      if changes[i] !in seen {
        kept := kept + [changes[i]];
      }
      seen := seen + {changes[i]};
    }
    assert changes[..|changes|] == changes;
    CoalescedHearsTheSame(changes);
    forall i, j | 0 <= i < j < |kept| ensures ComesFirst(changes, kept[i], kept[j]) {
      CoalescedInOrder(changes, i, j);
    }
  }

  function FacetTasks(changes: seq<Change>): seq<Key> {
    if changes == [] then []
    else
      (match changes[0].kind
       case LogsChange => [Of(changes[0].service, Logs)]
       case HealthChange => [Of(changes[0].service, Health)]
       case _ => [])
      + FacetTasks(changes[1..])
  }

  /** The refreshes of one batch: at most one of the roster, and that one first. */
  function BatchTasks(changes: seq<Change>): seq<Key> {
    (if exists c :: c in changes && (c.kind.StatusChange? || c.kind.RosterChange? || c.kind.UnknownChange?)
     then [Roster] else [])
    + FacetTasks(changes)
  }

  /** The change that a refresh of logs or health answers to. */
  function NoteFor(k: Key): Change
    requires k.Of?
  {
    Change(k.id, if k.facet.Logs? then LogsChange else HealthChange)
  }

  lemma {:induction false} FacetTasksAre(changes: seq<Change>, k: Key)
    ensures k in FacetTasks(changes) <==> k.Of? && NoteFor(k) in changes
  {
    if changes != [] {
      FacetTasksAre(changes[1..], k);
      assert changes == [changes[0]] + changes[1..];
    }
  }

  /** The change that the `i`-th of them answers to; a later task answers to a later change. */
  lemma {:induction false} FacetTaskAt(changes: seq<Change>, i: nat) returns (p: nat)
    requires i < |FacetTasks(changes)|
    ensures p < |changes| && FacetTasks(changes)[i].Of? && changes[p] == NoteFor(FacetTasks(changes)[i])
    ensures |FacetTasks(changes[..p])| == i
  {
    var front := |FacetTasks(changes)| - |FacetTasks(changes[1..])|;
    if i < front {
      p := 0;
      assert changes[..0] == [];
    } else {
      var q := FacetTaskAt(changes[1..], i - front);
      p := q + 1;
      assert changes[..p][1..] == changes[1..][..q] && changes[..p][0] == changes[0];
    }
  }

  lemma {:induction false} FacetTasksGrow(changes: seq<Change>, p: nat, q: nat)
    requires p <= q <= |changes|
    ensures |FacetTasks(changes[..p])| <= |FacetTasks(changes[..q])|
    decreases p
  {
    if p > 0 {
      FacetTasksGrow(changes[1..], p - 1, q - 1);
      assert changes[..p][1..] == changes[1..][..p - 1] && changes[..q][1..] == changes[1..][..q - 1];
    } else {
      assert changes[..0] == [];
    }
  }

  lemma FacetTasksInOrder(changes: seq<Change>, i: nat, j: nat)
    requires Distinct(changes) && i < j < |FacetTasks(changes)|
    ensures FacetTasks(changes)[i].Of? && FacetTasks(changes)[j].Of?
    ensures ComesFirst(changes, NoteFor(FacetTasks(changes)[i]), NoteFor(FacetTasks(changes)[j]))
  {
    hide FacetTasks, NoteFor;
    var p := FacetTaskAt(changes, i);
    var q := FacetTaskAt(changes, j);
    if q < p {
      FacetTasksGrow(changes, q, p);
    }
    assert p < q;
  }

  /** Two refreshes are not the same, and the first is the roster's or answers to news that came first. */
  ghost predicate IsBeforeIn(tasks: seq<Key>, changes: seq<Change>, i: nat, j: nat)
    requires i < j < |tasks|
  {
    && tasks[j].Of? && tasks[i] != tasks[j]
    && (tasks[i].Of? ==> ComesFirst(changes, NoteFor(tasks[i]), NoteFor(tasks[j])))
  }

  ghost predicate InOrderOfNews(tasks: seq<Key>, changes: seq<Change>) {
    forall i: nat, j: nat :: i < j < |tasks| ==> IsBeforeIn(tasks, changes, i, j)
  }

  /**
   What a batch calls for: the roster, once and before all else, exactly if some change is of status, of
   the roster or of a kind this client does not know; logs and health exactly of the services whose logs
   and health changed, once and in the order of the news; events and heartbeats call for nothing.
   */
  lemma BatchTasksAre(changes: seq<Change>)
    ensures var tasks := BatchTasks(Coalesced(changes));
      && (Roster in tasks
          <==> exists c :: c in changes
                 && (c.kind == StatusChange || c.kind == RosterChange || c.kind == UnknownChange))
      && (forall id :: Of(id, Logs) in tasks <==> Change(id, LogsChange) in changes)
      && (forall id :: Of(id, Health) in tasks <==> Change(id, HealthChange) in changes)
      && InOrderOfNews(tasks, changes)
  {
    var batch := Coalesced(changes);
    var tasks := BatchTasks(batch);
    CoalescedHearsTheSame(changes);
    forall k ensures k in tasks <==>
      if k.Roster? then exists c :: c in changes && Concerns(c, Roster) else NoteFor(k) in changes
    {
      FacetTasksAre(batch, k);
    }
    NewsInOrder(changes);
  }

  lemma NewsInOrder(changes: seq<Change>)
    ensures InOrderOfNews(BatchTasks(Coalesced(changes)), changes)
  {
    var tasks := BatchTasks(Coalesced(changes));
    hide Coalesced, BatchTasks, IsBeforeIn;
    forall i: nat, j: nat | i < j < |tasks| ensures IsBeforeIn(tasks, changes, i, j) {
      BatchInOrder(changes, i, j);
    }
  }

  lemma RosterFirst(batch: seq<Change>) returns (front: nat)
    ensures front <= 1 && BatchTasks(batch) == (if front == 1 then [Roster] else []) + FacetTasks(batch)
    ensures forall k :: front <= k < |BatchTasks(batch)| ==> BatchTasks(batch)[k] == FacetTasks(batch)[k - front]
  {
    front := |BatchTasks(batch)| - |FacetTasks(batch)|;
    hide FacetTasks;
  }

  lemma BatchInOrder(changes: seq<Change>, i: nat, j: nat)
    requires i < j < |BatchTasks(Coalesced(changes))|
    ensures IsBeforeIn(BatchTasks(Coalesced(changes)), changes, i, j)
  {
    var batch := Coalesced(changes);
    var (tasks, facets) := (BatchTasks(batch), FacetTasks(batch));
    hide BatchTasks, Coalesced, FacetTasks, ComesFirst;
    CoalescedHearsTheSame(changes);
    var front := RosterFirst(batch);
    assert tasks[j] == facets[j - front];
    FacetTasksAre(batch, tasks[j]);
    if i >= front {
      assert tasks[i] == facets[i - front];
      FacetTasksInOrder(batch, i - front, j - front);
      KeptInOrder(changes, NoteFor(tasks[i]), NoteFor(tasks[j]));
    }
  }

  lemma KeptInOrder(changes: seq<Change>, a: Change, b: Change)
    requires ComesFirst(Coalesced(changes), a, b) && b in Coalesced(changes)
    ensures ComesFirst(changes, a, b) && a != b
  {
    var batch := Coalesced(changes);
    hide Coalesced;
    var p :| 0 <= p < |batch| && batch[p] == a && b !in batch[..p + 1];
    var q :| 0 <= q < |batch| && batch[q] == b;
    assert forall i :: 0 <= i <= p ==> batch[i] == batch[..p + 1][i];
    CoalescedInOrder(changes, p, q);
  }

  /** Whatever a batch is told about, it refreshes. */
  lemma BatchTasksCover(changes: seq<Change>, k: Key)
    requires Heard(changes, k)
    ensures k in BatchTasks(Coalesced(changes))
  {
    BatchTasksAre(changes);
    var c :| c in changes && Concerns(c, k);
  }

  function SyncTasks(ids: seq<Id>): seq<Key> {
    if ids == [] then [] else [Of(ids[0], Logs), Of(ids[0], Health)] + SyncTasks(ids[1..])
  }

  /** The logs and the health of every listed service, service by service, and nothing else. */
  lemma {:induction false} SyncTasksCover(ids: seq<Id>)
    ensures |SyncTasks(ids)| == 2 * |ids|
    ensures forall i :: 0 <= i < |SyncTasks(ids)| ==>
      SyncTasks(ids)[i] == Of(ids[i / 2], if i % 2 == 0 then Logs else Health)
    ensures forall k :: k in SyncTasks(ids) <==> k.Of? && k.id in ids
  {
    if ids != [] {
      var first, rest := ids[0], ids[1..];
      var tasks, later := SyncTasks(ids), SyncTasks(rest);
      SyncTasksCover(rest);
      assert ids == [first] + rest && tasks == [Of(first, Logs), Of(first, Health)] + later;
      hide SyncTasks;
      forall i | 0 <= i < |tasks| ensures tasks[i] == Of(ids[i / 2], if i % 2 == 0 then Logs else Health) {
        if i >= 2 {
          assert tasks[i] == later[i - 2] && (i - 2) / 2 == i / 2 - 1 && (i - 2) % 2 == i % 2;
          assert ids[i / 2] == rest[i / 2 - 1];
        }
      }
      forall k ensures k in tasks <==> k.Of? && k.id in ids {
        assert k in tasks <==> k in [Of(first, Logs), Of(first, Health)] || k in later;
        var both := [Of(first, Logs), Of(first, Health)];
        assert both[0] in both && both[1] in both && (k.Of? ==> k.facet == Logs || k.facet == Health);
        assert k in both <==> k.Of? && k.id == first;
        assert forall id :: id in ids <==> id == first || id in rest;
      }
    }
  }

  // ---------------------------------------------------------------- the server

  datatype Service = Service(snapshot: Snapshot, log: Log, health: nat)

  datatype World = World(order: seq<Id>, services: map<Id, Service>)

  ghost predicate ValidWorld(w: World) {
    && Distinct(w.order)
    && (forall id :: id in w.order <==> id in w.services)
    && (forall id :: id in w.services ==>
          w.services[id].snapshot.id == id && ValidServer(w.services[id].log.server))
  }

  datatype Content = LogContent(log: Log) | HealthContent(health: nat)

  function Version(s: Service, facet: Facet): Content {
    if facet.Logs? then LogContent(s.log) else HealthContent(s.health)
  }

  function Listing(w: World): (r: seq<Snapshot>)
    requires ValidWorld(w)
    ensures |r| == |w.order|
    ensures forall i :: 0 <= i < |r| ==> r[i] == w.services[w.order[i]].snapshot
  {
    seq(|w.order|, i requires 0 <= i < |w.order| => w.services[w.order[i]].snapshot)
  }

  /** `seen` are the ids that were ever listed: a fresh id brings nothing older with it. */
  ghost predicate Changed(w: World, w': World, seen: set<Id>, k: Key)
    requires ValidWorld(w) && ValidWorld(w')
  {
    match k
    case Roster => Listing(w) != Listing(w')
    case Of(id, facet) =>
      id in w'.services
      && if id in w.services then Version(w.services[id], facet) != Version(w'.services[id], facet)
         else id in seen
  }

  /** The service was removed, and added again under its id. */
  predicate Recreated(w: World, w': World, k: Key) {
    k.Of? && k.id in w'.services
    && (k.id in w.services ==> w'.services[k.id].log.born != w.services[k.id].log.born)
  }

  /**
   What the subscriber is told; it may be told more. A changed snapshot is announced as a change of status
   (crates/micromux/src/model.rs:1486-1502), by a newer server perhaps as a kind that this client does not
   know; whoever comes or goes, and a service that is added again, as a change of the roster only
   (crates/micromux/src/model.rs:1408-1441); contents as what they are.
   */
  ghost predicate Announces(w: World, w': World, notes: seq<Change>)
    requires ValidWorld(w) && ValidWorld(w')
  {
    && (w.order != w'.order ==> exists id :: Change(id, RosterChange) in notes)
    && forall id :: id in w.services && id in w'.services ==>
         var (old', new') := (w.services[id], w'.services[id]);
         if old'.log.born != new'.log.born then Change(id, RosterChange) in notes
         else
           && (old'.snapshot != new'.snapshot ==>
                 Change(id, StatusChange) in notes || Change(id, UnknownChange) in notes)
           && (old'.log != new'.log ==> Change(id, LogsChange) in notes)
           && (old'.health != new'.health ==> Change(id, HealthChange) in notes)
  }

  /** So a client that heeds what it is told hears of everything but the contents of a service added again. */
  lemma AnnouncedIsHeard(w: World, w': World, seen: set<Id>, notes: seq<Change>, k: Key)
    requires ValidWorld(w) && ValidWorld(w') && Announces(w, w', notes)
    requires Changed(w, w', seen, k) && !Recreated(w, w', k)
    ensures Heard(notes, k)
  {
    if k.Roster? {
      if w.order != w'.order {
        var id :| Change(id, RosterChange) in notes;
        assert Concerns(Change(id, RosterChange), k);
      } else {
        var i :| 0 <= i < |w.order| && Listing(w)[i] != Listing(w')[i];
        var id := w.order[i];
        assert Concerns(Change(id, RosterChange), k) && Concerns(Change(id, StatusChange), k);
        assert Concerns(Change(id, UnknownChange), k);
      }
    } else {
      assert Concerns(NoteFor(k), k);
    }
  }

  /** Every log goes on, or begins; `births` tells logs apart. */
  ghost predicate Moves(w: World, w': World, births: nat, births': nat) {
    && births <= births'
    && forall id :: id in w'.services ==>
         var log := w'.services[id].log;
         && log.born < births'
         && (if id in w.services && log.born == w.services[id].log.born
             then Evolves(w.services[id].log.server, log.server)
             else births <= log.born)
  }

  // ---------------------------------------------------------------- the client

  type Copy = Store<LogCopy, Option<nat>>

  /** What the last complete refresh was about. */
  function Held(e: Entry<LogCopy, Option<nat>>, facet: Facet): Option<Content> {
    if facet.Logs? then
      match AsOf(e.logs)
      case Some(log) => Some(LogContent(log))
      case None => None
    else
      match e.health
      case Some(version) => Some(HealthContent(version))
      case None => None
  }

  ghost predicate RosterDiffers(w: World, copy: Copy) {
    !(copy.order == w.order
      && forall id :: id in w.services ==>
           id in copy.entries && copy.entries[id].snapshot == w.services[id].snapshot)
  }

  /** Whether the last refresh of `k` was about another state of the server. */
  ghost predicate Lags(w: World, copy: Copy, k: Key)
    requires ValidWorld(w)
  {
    match k
    case Roster => RosterDiffers(w, copy)
    case Of(id, facet) =>
      id in w.services && id in copy.entries
      && Held(copy.entries[id], facet) != Some(Version(w.services[id], facet))
  }

  /** Whether the copy differs from the server under `k`. */
  ghost predicate Differs(w: World, copy: Copy, k: Key)
    requires ValidWorld(w)
  {
    match k
    case Roster => RosterDiffers(w, copy)
    case Of(id, facet) =>
      id in w.services && id in copy.entries
      && if facet.Logs? then !Shows(copy.entries[id].logs.mirror, w.services[id].log.server)
         else copy.entries[id].health != Some(w.services[id].health)
  }

  datatype Answer =
    | Listed'(snapshots: seq<Snapshot>)
    | LogsPage(id: Id, log: Log, page: LogPage)
    | HealthIs(id: Id, health: nat)
    | NotFound(id: Id, facet: Facet)   // the `UnknownService` error

  function Question(a: Answer): Key {
    match a
    case Listed'(_) => Roster
    case LogsPage(id, _, _) => Of(id, Logs)
    case HealthIs(id, _) => Of(id, Health)
    case NotFound(id, facet) => Of(id, facet)
  }

  /** The server's answer now; which page of logs it is, is left open. */
  function AnswerTo(w: World, k: Key, page: LogPage): Answer
    requires ValidWorld(w)
  {
    match k
    case Roster => Listed'(Listing(w))
    case Of(id, facet) =>
      if id !in w.services then NotFound(id, facet)
      else if facet.Logs? then LogsPage(id, w.services[id].log, page)
      else HealthIs(id, w.services[id].health)
  }

  /** The answer is about the server as it is. */
  ghost predicate Current(w: World, a: Answer)
    requires ValidWorld(w)
  {
    match a
    case Listed'(snapshots) => snapshots == Listing(w)
    case LogsPage(id, log, _) => id in w.services && w.services[id].log == log
    case HealthIs(id, health) => id in w.services && w.services[id].health == health
    case NotFound(id, _) => id !in w.services
  }

  datatype Phase = Disconnected | FirstSync | SecondSync | Connected

  /**
   `todo` is the unrefreshed part of the current sync or batch; `answer` answers its first entry, at
   `stage` of its refresh. `lost` is bookkeeping of the model: what the client will not hear of
   again, and has not asked for since.
   */
  datatype State = State(
    world: World, births: nat, seen: set<Id>, copy: Copy, phase: Phase, live: bool, queue: seq<Change>,
    todo: seq<Key>, stage: Stage, answer: Option<Answer>, lost: iset<Key>)

  datatype Action =
    | ServerMoves(world: World, births: nat, notes: seq<Change>)
    | StartSync(sameInstance: bool)      // (re)connect, describe, begin the first full sync
    | Subscribe                          // first sync done: subscribe and begin the second
    | Connect                            // second sync done: mark the mirror connected
    | TakeBatch(n: nat)                  // drain what is queued, coalesce, and set to work
    | Ask(page: LogPage) | Apply(hydrate: seq<Id>) | Skip
    | AcknowledgeRestart(acks: seq<Ack>)
    | SubscriptionEnds                   // the server's end of the subscription is gone
    | Disconnect                         // a transport error, or the end of the subscription seen
    | SwallowError                       // an unexpected answer: a notice, and the batch is dropped
    | SkipFrame(i: nat)                  // an unreadable notification: a notice, and it is skipped

  /** From the second sync on, the client relies on what it is told. */
  ghost predicate Synced(s: State) {
    s.phase.SecondSync? || s.phase.Connected?
  }

  ghost predicate Idle(s: State) {
    s.todo == [] && s.answer.None? && s.stage.First?
  }

  /** What changes without the client being told. */
  ghost predicate Unheard(s: State, world: World, notes: seq<Change>, k: Key)
    requires ValidWorld(s.world) && ValidWorld(world)
  {
    Changed(s.world, world, s.seen, k) && !(s.live && Heard(notes, k))
  }

  /** Whether `page` may answer the next request for the first task. */
  ghost predicate MayAnswer(s: State, page: LogPage)
    requires ValidWorld(s.world) && s.todo != []
  {
    s.todo[0].Of? && s.todo[0].facet.Logs? ==>
      var id := s.todo[0].id;
      && id in s.copy.entries
      && (id in s.world.services ==>
            IsServedPage(page, s.world.services[id].log.server, CursorAt(s.stage, s.copy.entries[id].logs.mirror)))
  }

  ghost predicate Applies(s: State, a: Answer, hydrate: seq<Id>, t: State)
    requires s.todo != []
  {
    match a
    case Listed'(snapshots) =>
      && IsReconciled(s.copy, snapshots, NO_LOGS, None, t.copy, hydrate)
      && t == s.(copy := t.copy, stage := First, answer := None,
                 todo := SyncTasks(if s.phase.Connected? then hydrate else t.copy.order) + s.todo[1..])
    case LogsPage(id, log, page) =>
      && id in s.copy.entries && log.server.start <= |log.server.history|
      && var (e, next) := (s.copy.entries[id], NextStage(s.copy.entries[id].logs, s.stage, page));
         t == s.(copy := s.copy.(entries := s.copy.entries[id := e.(logs := After(e.logs, s.stage, log, page))]),
                 todo := if next.Some? then s.todo else s.todo[1..],
                 stage := if next.Some? then next.value else First, answer := None)
    case HealthIs(id, health) =>
      t == s.(copy := if id in s.copy.entries
                      then s.copy.(entries := s.copy.entries[id := s.copy.entries[id].(health := Some(health))])
                      else s.copy,
              todo := s.todo[1..], stage := First, answer := None)
    case NotFound(id, _) =>
      t == s.(copy := Store(Without(s.copy.order, id), s.copy.entries - {id}),
              todo := s.todo[1..], stage := First, answer := None)
  }

  ghost predicate Does(s: State, a: Action, t: State) {
    match a
    case ServerMoves(world, births, notes) =>
      && ValidWorld(s.world) && ValidWorld(world) && Announces(s.world, world, notes)
      && Moves(s.world, world, s.births, births)
      && t == s.(world := world, births := births, seen := s.seen + world.services.Keys,
                 queue := if s.live then s.queue + notes else s.queue,
                 lost := if Synced(s) then s.lost + iset k | Unheard(s, world, notes, k) else s.lost)
    case StartSync(sameInstance) =>
      && s.phase.Disconnected?
      && t == s.(copy := if sameInstance then s.copy else Store([], map[]),
                 phase := FirstSync, todo := [Roster], stage := First, answer := None)
    case Subscribe =>
      && s.phase.FirstSync? && Idle(s)
      && t == s.(phase := SecondSync, live := true, queue := [], todo := [Roster], lost := iset{})
    case Connect =>
      s.phase.SecondSync? && Idle(s) && t == s.(phase := Connected)
    case TakeBatch(n) =>
      && s.phase.Connected? && Idle(s) && 1 <= n <= |s.queue|
      && t == s.(queue := s.queue[n..], todo := BatchTasks(Coalesced(s.queue[..n])))
    case Ask(page) =>
      && ValidWorld(s.world) && s.todo != [] && s.answer.None? && MayAnswer(s, page)
      && t == s.(answer := Some(AnswerTo(s.world, s.todo[0], page)),
                 lost := if s.stage.Next? then s.lost else s.lost - iset{s.todo[0]})
    case Apply(hydrate) =>
      s.todo != [] && s.answer.Some? && Applies(s, s.answer.value, hydrate, t)
    case Skip =>
      && s.todo != [] && s.answer.None? && s.todo[0].Of? && s.todo[0].facet.Logs?
      && s.todo[0].id !in s.copy.entries && t == s.(todo := s.todo[1..], stage := First)
    case AcknowledgeRestart(acks) =>
      && s.phase.Connected? && Idle(s)
      && t == s.(copy := s.copy.(entries := MarkedAll(s.copy.entries, acks)))
    case SubscriptionEnds =>
      t == s.(live := false)
    case Disconnect =>
      t == s.(phase := Disconnected, live := false, queue := [], todo := [], stage := First, answer := None,
              lost := iset{})
    case SwallowError =>
      && s.phase.Connected?
      && t == s.(todo := [], stage := First, answer := None, lost := s.lost + iset k | k in s.todo)
    case SkipFrame(i) =>
      && s.phase.Connected? && Idle(s) && i < |s.queue|
      && t == s.(queue := s.queue[..i] + s.queue[i + 1..], lost := s.lost + iset k | Concerns(s.queue[i], k))
  }

  ghost predicate Starts(s: State) {
    && ValidWorld(s.world) && s.seen == s.world.services.Keys && s.copy == Store([], map[])
    && (forall id :: id in s.world.services ==> s.world.services[id].log.born < s.births)
    && s.phase.Disconnected? && !s.live && s.queue == [] && Idle(s) && s.lost == iset{}
  }

  ghost predicate IsHandoff(states: seq<State>, actions: seq<Action>) {
    && |states| == |actions| + 1 && Starts(states[0])
    && forall i :: 0 <= i < |actions| ==> Does(states[i], actions[i], states[i + 1])
  }

  // ---------------------------------------------------------------- the invariant

  /** The refreshes that are still to ask the server. */
  function Waiting(s: State): seq<Key> {
    if s.answer.Some? && s.todo != [] then s.todo[1..] else s.todo
  }

  /** An answer about the server as it is has come in. */
  ghost predicate AnsweredNow(s: State, k: Key)
    requires ValidWorld(s.world)
  {
    s.answer.Some? && Question(s.answer.value) == k && Current(s.world, s.answer.value)
  }

  /** What `k` names is going to be as on the server, if that moves no more. */
  ghost predicate UnderWay(s: State, k: Key)
    requires ValidWorld(s.world)
  {
    Heard(s.queue, k) || k in Waiting(s) || AnsweredNow(s, k)
  }

  ghost predicate Pending(s: State, k: Key)
    requires ValidWorld(s.world)
  {
    UnderWay(s, k) || (s.phase.SecondSync? && Roster in s.todo)
  }

  ghost predicate HeardOrLost(s: State, k: Key) {
    Heard(s.queue, k) || k in s.lost
  }

  /** What an answer is about when the server has moved on since. */
  function Concerned(a: Answer): Key {
    if a.NotFound? then Roster else Question(a)
  }

  /** An answer that the server has since outdated was outdated audibly, or is known to be lost. */
  ghost predicate StaleAnswerHeard(s: State)
    requires ValidWorld(s.world)
  {
    var a := s.answer;
    a.Some? && !Current(s.world, a.value) && (Question(a.value).Of? ==> Question(a.value).id in s.world.services)
    ==> HeardOrLost(s, Concerned(a.value))
  }

  ghost predicate WellShaped(s: State) {
    && ValidWorld(s.world) && WellFormed(s.copy)
    && s.world.services.Keys <= s.seen && s.copy.entries.Keys <= s.seen
    && (s.answer.Some? ==>
          && s.todo != [] && Question(s.answer.value) == s.todo[0]
          && (s.answer.value.Listed'? ==>
                Distinct(Ids(s.answer.value.snapshots))
                && forall sn :: sn in s.answer.value.snapshots ==> sn.id in s.seen)
          && (s.answer.value.HealthIs? || s.answer.value.LogsPage? ==> s.answer.value.id in s.seen))
  }

  /** The log goes on to what the service's log is now. */
  ghost predicate FitsWorld(w: World, births: nat, id: Id, log: Log) {
    && log.born < births && ValidServer(log.server)
    && (id in w.services ==> Grows(log, w.services[id].log))
  }

  ghost predicate FitsEntry(w: World, births: nat, id: Id, c: LogCopy) {
    WellCopied(c) && (c.basis.Some? ==> FitsWorld(w, births, id, c.basis.value))
  }

  ghost predicate EntriesFit(s: State) {
    forall id :: id in s.copy.entries ==> FitsEntry(s.world, s.births, id, s.copy.entries[id].logs)
  }

  /** Between the requests of one refresh, and between an answer and its use. */
  ghost predicate StageFits(s: State) {
    && (!s.stage.First? ==>
          && s.todo != [] && s.todo[0].Of? && s.todo[0].facet.Logs? && s.todo[0].id in s.copy.entries
          && (s.stage.Next? ==> IsFresh(s.copy.entries[s.todo[0].id].logs)))
    && (s.answer.Some? && s.answer.value.LogsPage? ==>
          var a := s.answer.value;
          && a.id in s.copy.entries && FitsWorld(s.world, s.births, a.id, a.log)
          && IsServedPage(a.page, a.log.server, CursorAt(s.stage, s.copy.entries[a.id].logs.mirror))
          && (s.copy.entries[a.id].logs.basis.Some? ==> Grows(s.copy.entries[a.id].logs.basis.value, a.log)))
  }

  ghost predicate BornBefore(w: World, births: nat) {
    forall id :: id in w.services ==> w.services[id].log.born < births
  }

  /** Every copied log is what its last answer made it. */
  ghost predicate LogsFit(s: State) {
    BornBefore(s.world, s.births) && EntriesFit(s) && StageFits(s)
  }

  ghost predicate AllAccounted(s: State)
    requires ValidWorld(s.world)
  {
    forall k :: Lags(s.world, s.copy, k) ==> Pending(s, k) || k in s.lost
  }

  /** The log that the next page is from. */
  function PageLog(s: State, id: Id): Log
    requires id in s.world.services
  {
    if s.answer.Some? && s.answer.value.LogsPage? then s.answer.value.log else s.world.services[id].log
  }

  /** What moved on since the last answer of a refresh under way did so audibly, or is known to be lost. */
  ghost predicate StageHeard(s: State) {
    s.stage.Next? && s.todo != [] && s.todo[0].Of? ==>
      var id := s.todo[0].id;
      id in s.world.services && id in s.copy.entries ==>
        var basis := s.copy.entries[id].logs.basis;
        basis.Some? && basis.value != PageLog(s, id) ==> HeardOrLost(s, Of(id, Logs))
  }

  ghost predicate Accounts(s: State) {
    WellShaped(s) && (Synced(s) ==> StaleAnswerHeard(s) && AllAccounted(s) && StageHeard(s))
  }

  ghost predicate Inv(s: State) {
    Accounts(s) && LogsFit(s)
  }

  lemma InvShape(s: State)
    requires Inv(s)
    ensures ValidWorld(s.world) && WellShaped(s) && LogsFit(s) && Accounts(s)
  {
  }

  // ---------------------------------------------------------------- the copied logs

  lemma FitsAfterMove(w: World, births: nat, w': World, births': nat, id: Id, log: Log)
    requires FitsWorld(w, births, id, log) && Moves(w, w', births, births')
    ensures FitsWorld(w', births', id, log)
  {
    if id in w'.services && id in w.services && w'.services[id].log.born == w.services[id].log.born {
      GrowsTransitive(log, w.services[id].log, w'.services[id].log);
    }
  }

  lemma MovesKeepLogs(s: State, world: World, births: nat, t: State)
    requires LogsFit(s) && Moves(s.world, world, s.births, births)
    requires t.world == world && t.births == births && t.copy == s.copy
    requires t.todo == s.todo && t.stage == s.stage && t.answer == s.answer
    ensures LogsFit(t)
  {
    hide FitsWorld, WellCopied, Grows, IsServedPage;
    forall id | id in t.copy.entries ensures FitsEntry(t.world, t.births, id, t.copy.entries[id].logs) {
      var c := s.copy.entries[id].logs;
      assert FitsEntry(s.world, s.births, id, c);
      if c.basis.Some? {
        FitsAfterMove(s.world, s.births, world, births, id, c.basis.value);
      }
    }
    if s.answer.Some? && s.answer.value.LogsPage? {
      FitsAfterMove(s.world, s.births, world, births, s.answer.value.id, s.answer.value.log);
    }
    assert BornBefore(t.world, t.births);
  }

  lemma WorldLogFits(w: World, births: nat, id: Id)
    requires ValidWorld(w) && BornBefore(w, births) && id in w.services
    ensures FitsWorld(w, births, id, w.services[id].log)
  {
  }

  lemma EntryGrows(w: World, births: nat, id: Id, c: LogCopy)
    requires FitsEntry(w, births, id, c) && id in w.services && c.basis.Some?
    ensures Grows(c.basis.value, w.services[id].log)
  {
  }

  lemma AskKeepsLogs(s: State, page: LogPage, t: State)
    requires WellShaped(s) && LogsFit(s) && Does(s, Ask(page), t)
    ensures LogsFit(t)
  {
    hide FitsWorld, FitsEntry, WellCopied, Grows, IsServedPage;
    var a := t.answer.value;
    if a.LogsPage? {
      var c := s.copy.entries[a.id].logs;
      assert FitsEntry(s.world, s.births, a.id, c);
      WorldLogFits(s.world, s.births, a.id);
      if c.basis.Some? {
        EntryGrows(s.world, s.births, a.id, c);
      }
    }
  }

  lemma AfterFits(w: World, births: nat, id: Id, c: LogCopy, stage: Stage, log: Log, page: LogPage)
    requires FitsEntry(w, births, id, c) && FitsWorld(w, births, id, log)
    requires IsServedPage(page, log.server, CursorAt(stage, c.mirror))
    requires (c.basis.Some? ==> Grows(c.basis.value, log)) && (stage.Next? ==> IsFresh(c))
    ensures log.server.start <= |log.server.history| && FitsEntry(w, births, id, After(c, stage, log, page))
    ensures NextStage(c, stage, page) == Some(Next) ==> IsFresh(After(c, stage, log, page))
  {
    assert log.server.start <= |log.server.history|;
    hide WellCopied, Grows, IsServedPage, Taken, BehindAfter, Replaced, Foreign, EndsReplaced;
    if !StartsOver(c, stage, page) {
      TookKeeps(c, stage, log, page);
      if NextStage(c, stage, page).Some? {
        TookFresh(c, stage, log, page);
      }
    }
  }

  lemma ApplyPageKeepsLogs(s: State, t: State)
    requires WellShaped(s) && LogsFit(s) && Does(s, Apply([]), t) && s.answer.Some? && s.answer.value.LogsPage?
    ensures LogsFit(t)
  {
    hide FitsWorld, FitsEntry, WellCopied, Grows, IsServedPage, After, NextStage;
    var LogsPage(id, log, page) := s.answer.value;
    var c := s.copy.entries[id].logs;
    assert FitsEntry(s.world, s.births, id, c);
    AfterFits(s.world, s.births, id, c, s.stage, log, page);
    forall i | i in t.copy.entries ensures FitsEntry(t.world, t.births, i, t.copy.entries[i].logs) {
      if i != id {
        assert FitsEntry(s.world, s.births, i, s.copy.entries[i].logs);
      }
    }
    assert t.stage.Next? ==> NextStage(c, s.stage, page) == Some(Next);
  }

  lemma NoLogsFit(w: World, births: nat, id: Id)
    ensures FitsEntry(w, births, id, NO_LOGS)
  {
  }

  /** An entry that a reconcile neither made nor cleared holds what it held. */
  lemma ReconcileKeepsOrHydrates(copy: Copy, snapshots: seq<Snapshot>, copy': Copy, hydrate: seq<Id>, id: Id)
    requires IsReconciled(copy, snapshots, NO_LOGS, None, copy', hydrate) && Distinct(Ids(snapshots))
    requires id in copy'.entries
    ensures id in copy'.order
    ensures if id in copy.entries
            then copy'.entries[id].health == copy.entries[id].health
                 && (|| copy'.entries[id].logs == copy.entries[id].logs
                     || (copy'.entries[id].logs == NO_LOGS && id in hydrate))
            else id in hydrate && copy'.entries[id].logs == NO_LOGS && copy'.entries[id].health == None
  {
    var i :| 0 <= i < |copy'.order| && copy'.order[i] == id;
    assert snapshots[i] in snapshots && snapshots[i].id == id;
    HydratesNewAndCleared(copy, snapshots, NO_LOGS, None, copy', hydrate, snapshots[i]);
  }

  lemma ApplyRosterKeepsLogs(s: State, hydrate: seq<Id>, t: State)
    requires WellShaped(s) && LogsFit(s) && Does(s, Apply(hydrate), t) && s.answer.Some? && s.answer.value.Listed'?
    ensures LogsFit(t)
  {
    hide FitsEntry, IsReconciled, IsServedPage;
    forall id | id in t.copy.entries ensures FitsEntry(t.world, t.births, id, t.copy.entries[id].logs) {
      ReconcileKeepsOrHydrates(s.copy, s.answer.value.snapshots, t.copy, hydrate, id);
      if t.copy.entries[id].logs == NO_LOGS {
        NoLogsFit(t.world, t.births, id);
      } else {
        assert FitsEntry(s.world, s.births, id, s.copy.entries[id].logs);
      }
    }
  }

  lemma {:induction false} MarkedAllKeepsContents(entries: map<Id, Entry<LogCopy, Option<nat>>>, acks: seq<Ack>)
    ensures MarkedAll(entries, acks).Keys == entries.Keys
    ensures forall id :: id in entries ==>
      var e := MarkedAll(entries, acks)[id];
      e.snapshot == entries[id].snapshot && e.logs == entries[id].logs && e.health == entries[id].health
  {
    if acks != [] {
      MarkedAllKeepsContents(entries, acks[..|acks| - 1]);
    }
  }

  /** Steps that leave the copied logs alone, or drop entries. */
  lemma SameLogsFit(s: State, t: State)
    requires LogsFit(s) && t.world == s.world && t.births == s.births && t.stage.First? && t.answer.None?
    requires forall id :: id in t.copy.entries ==>
      id in s.copy.entries && t.copy.entries[id].logs == s.copy.entries[id].logs
    ensures LogsFit(t)
  {
    hide FitsEntry, IsServedPage;
    forall id | id in t.copy.entries ensures FitsEntry(t.world, t.births, id, t.copy.entries[id].logs) {
      assert FitsEntry(s.world, s.births, id, s.copy.entries[id].logs);
    }
  }

  lemma StepKeepsLogs(s: State, a: Action, t: State)
    requires WellShaped(s) && LogsFit(s) && Does(s, a, t)
    ensures LogsFit(t)
  {
    hide FitsEntry, FitsWorld, IsReconciled, Moves, IsServedPage, After, NextStage;
    match a
    case ServerMoves(world, births, notes) => MovesKeepLogs(s, world, births, t);
    case Ask(page) => AskKeepsLogs(s, page, t);
    case Apply(hydrate) =>
      match s.answer.value {
        case Listed'(_) => ApplyRosterKeepsLogs(s, hydrate, t);
        case LogsPage(_, _, _) => ApplyPageKeepsLogs(s, t);
        case HealthIs(_, _) => SameLogsFit(s, t);
        case NotFound(_, _) => SameLogsFit(s, t);
      }
    case AcknowledgeRestart(acks) =>
      MarkedAllKeepsContents(s.copy.entries, acks);
      SameLogsFit(s, t);
    case SubscriptionEnds =>
    case _ => SameLogsFit(s, t);
  }

  // ---------------------------------------------------------------- every step keeps the accounts

  lemma HeardMore(a: seq<Change>, b: seq<Change>, k: Key)
    ensures Heard(a + b, k) <==> Heard(a, k) || Heard(b, k)
  {
    if c :| c in a && Concerns(c, k) {
      assert c in a + b;
    }
    if c :| c in b && Concerns(c, k) {
      assert c in a + b;
    }
  }

  lemma ListingIds(w: World)
    requires ValidWorld(w)
    ensures Ids(Listing(w)) == w.order
  {
  }

  lemma SameRoster(w: World, w': World)
    requires ValidWorld(w) && ValidWorld(w') && Listing(w) == Listing(w')
    ensures w.order == w'.order
    ensures forall id :: id in w'.services ==> id in w.services && w'.services[id].snapshot == w.services[id].snapshot
  {
    ListingIds(w);
    ListingIds(w');
    forall id | id in w'.services
      ensures id in w.services && w'.services[id].snapshot == w.services[id].snapshot
    {
      var i :| 0 <= i < |w'.order| && w'.order[i] == id;
      assert Listing(w')[i] == Listing(w)[i];
    }
  }

  /** What did not change is as it was. */
  lemma UnchangedStays(s: State, world: World, k: Key)
    requires WellShaped(s) && ValidWorld(world) && !Changed(s.world, world, s.seen, k)
    ensures Lags(world, s.copy, k) ==> Lags(s.world, s.copy, k)
    ensures Differs(world, s.copy, k) ==> Differs(s.world, s.copy, k)
    ensures AnsweredNow(s, k) && (k.Of? ==> k.id in s.copy.entries && k.id in world.services) ==>
      Current(world, s.answer.value)
  {
    hide Shows;
    if k.Roster? {
      SameRoster(s.world, world);
    }
  }

  /** Every change is heard of, or is counted as lost. */
  lemma MovesNoted(s: State, world: World, births: nat, notes: seq<Change>, t: State, k: Key)
    requires Does(s, ServerMoves(world, births, notes), t) && Synced(s)
    ensures Changed(s.world, world, s.seen, k) ==> HeardOrLost(t, k)
    ensures HeardOrLost(s, k) ==> HeardOrLost(t, k)
    ensures Heard(s.queue, k) ==> Heard(t.queue, k)
  {
    hide Moves, Announces, Changed;
    HeardMore(s.queue, notes, k);
  }

  lemma ServerMovesKeeps(s: State, world: World, births: nat, notes: seq<Change>, t: State)
    requires Accounts(s) && Does(s, ServerMoves(world, births, notes), t)
    ensures Accounts(t)
  {
    hide Moves, Announces;
    if Synced(t) {
      forall k | Lags(t.world, t.copy, k) ensures Pending(t, k) || k in t.lost {
        MovesNoted(s, world, births, notes, t, k);
        if !Changed(s.world, world, s.seen, k) {
          UnchangedStays(s, world, k);
          assert Pending(s, k) || k in s.lost;
        }
      }
      StaleStaysHeard(s, world, births, notes, t);
    }
  }

  lemma StaleStaysHeard(s: State, world: World, births: nat, notes: seq<Change>, t: State)
    requires WellShaped(s) && StaleAnswerHeard(s) && Does(s, ServerMoves(world, births, notes), t) && Synced(t)
    ensures StaleAnswerHeard(t)
  {
    hide Moves, Announces;
    if s.answer.Some? {
      var a := s.answer.value;
      MovesNoted(s, world, births, notes, t, Concerned(a));
      ListingIds(s.world);
      ListingIds(world);
      if a.NotFound? && a.id in world.services && a.id !in s.world.services {
        assert Changed(s.world, world, s.seen, Roster);
      }
    }
  }

  lemma TakeBatchKeeps(s: State, n: nat, t: State)
    requires Accounts(s) && Does(s, TakeBatch(n), t)
    ensures Accounts(t)
  {
    hide Lags;
    forall k | Lags(t.world, t.copy, k) ensures Pending(t, k) || k in t.lost {
      assert s.queue == s.queue[..n] + s.queue[n..];
      HeardMore(s.queue[..n], s.queue[n..], k);
      if Heard(s.queue[..n], k) {
        BatchTasksCover(s.queue[..n], k);
      }
      assert Pending(s, k) || k in s.lost;
    }
  }

  lemma SwallowErrorKeeps(s: State, t: State)
    requires Accounts(s) && Does(s, SwallowError, t)
    ensures Accounts(t)
  {
    hide Lags;
    forall k | Lags(t.world, t.copy, k) ensures Pending(t, k) || k in t.lost {
      assert Pending(s, k) || k in s.lost;
    }
  }

  lemma SkipFrameKeeps(s: State, i: nat, t: State)
    requires Accounts(s) && Does(s, SkipFrame(i), t)
    ensures Accounts(t)
  {
    hide Lags;
    forall k | Lags(t.world, t.copy, k) ensures Pending(t, k) || k in t.lost {
      FrameSkipped(s.queue, i, k);
      assert Pending(s, k) || k in s.lost;
    }
  }

  lemma FrameSkipped(queue: seq<Change>, i: nat, k: Key)
    requires i < |queue|
    ensures Heard(queue, k) <==> Heard(queue[..i] + queue[i + 1..], k) || Concerns(queue[i], k)
  {
    assert queue == queue[..i] + [queue[i]] + queue[i + 1..];
    HeardMore(queue[..i] + [queue[i]], queue[i + 1..], k);
    HeardMore(queue[..i], [queue[i]], k);
    HeardMore(queue[..i], queue[i + 1..], k);
    assert Heard([queue[i]], k) <==> Concerns(queue[i], k) by {
      assert queue[i] in [queue[i]];
    }
  }

  lemma ListedAreSeen(w: World, seen: set<Id>)
    requires ValidWorld(w) && w.services.Keys <= seen
    ensures Distinct(Ids(Listing(w))) && forall sn :: sn in Listing(w) ==> sn.id in seen
  {
    ListingIds(w);
    forall sn | sn in Listing(w) ensures sn.id in seen {
      var i :| 0 <= i < |w.order| && Listing(w)[i] == sn;
      assert w.order[i] in w.services;
    }
  }

  lemma AskKeeps(s: State, page: LogPage, t: State)
    requires Accounts(s) && Does(s, Ask(page), t)
    ensures Accounts(t)
  {
    ListedAreSeen(s.world, s.seen);
    hide Lags, IsServedPage;
    assert s.todo == [s.todo[0]] + s.todo[1..] && Current(s.world, t.answer.value);
    forall k | Synced(t) && Lags(t.world, t.copy, k) ensures Pending(t, k) || k in t.lost {
      assert Pending(s, k) || k in s.lost;
    }
  }

  /** A current roster answer makes the rosters agree. */
  lemma CurrentRosterAgrees(w: World, copy: Copy, copy': Copy, hydrate: seq<Id>)
    requires ValidWorld(w) && IsReconciled(copy, Listing(w), NO_LOGS, None, copy', hydrate)
    ensures !RosterDiffers(w, copy')
  {
    ListingIds(w);
    forall id | id in w.services
      ensures id in copy'.entries && copy'.entries[id].snapshot == w.services[id].snapshot
    {
      var i :| 0 <= i < |w.order| && w.order[i] == id;
      assert Listing(w)[i].id == id;
    }
  }

  lemma ReconcileShape(s: State, snapshots: seq<Snapshot>, copy': Copy, hydrate: seq<Id>)
    requires IsReconciled(s.copy, snapshots, NO_LOGS, None, copy', hydrate) && Distinct(Ids(snapshots))
    requires forall sn :: sn in snapshots ==> sn.id in s.seen
    ensures WellFormed(copy') && copy'.entries.Keys <= s.seen
  {
    ReconciledWellFormed(s.copy, snapshots, NO_LOGS, None, copy', hydrate);
    forall id | id in copy'.entries ensures id in s.seen {
      var i :| 0 <= i < |copy'.order| && copy'.order[i] == id;
      assert snapshots[i] in snapshots && snapshots[i].id == id;
    }
  }

  lemma ApplyRosterKeeps(s: State, hydrate: seq<Id>, t: State)
    requires Accounts(s) && Does(s, Apply(hydrate), t) && s.answer.Some? && s.answer.value.Listed'?
    ensures Accounts(t)
  {
    var snapshots := s.answer.value.snapshots;
    ReconcileShape(s, snapshots, t.copy, hydrate);
    hide IsReconciled, WellFormed;
    if Synced(t) {
      forall k | Lags(t.world, t.copy, k) ensures Pending(t, k) || k in t.lost {
        if k.Roster? {
          if snapshots == Listing(s.world) {
            CurrentRosterAgrees(s.world, s.copy, t.copy, hydrate);
          }
        } else {
          RosterKeepsFacet(s, hydrate, t, k);
        }
      }
    }
  }

  /** Whatever a roster refresh does not leave as it was, it hydrates. */
  lemma RosterKeepsFacet(s: State, hydrate: seq<Id>, t: State, k: Key)
    requires WellShaped(s) && s.answer.Some? && s.answer.value.Listed'? && Synced(s)
    requires Applies(s, s.answer.value, hydrate, t) && k.Of?
    requires (k.id in s.world.services && k.id in s.copy.entries && k.id in t.copy.entries
              && Held(t.copy.entries[k.id], k.facet) == Held(s.copy.entries[k.id], k.facet)
              && Lags(s.world, s.copy, k)) ==> Pending(s, k) || k in s.lost
    requires Lags(t.world, t.copy, k)
    ensures Pending(t, k) || k in t.lost
  {
    var ids := if s.phase.Connected? then hydrate else t.copy.order;
    ReconcileKeepsOrHydrates(s.copy, s.answer.value.snapshots, t.copy, hydrate, k.id);
    hide IsReconciled, WellFormed;
    assert s.todo == [s.todo[0]] + s.todo[1..];
    if k.id in ids {
      SyncTasksCover(ids);
    }
  }

  lemma WithoutAbsent<T>(s: seq<T>, x: T)
    requires x !in s
    ensures Without(s, x) == s
  {
    if s != [] {
      assert s == [s[0]] + s[1..];
      WithoutAbsent(s[1..], x);
    }
  }

  /** What an applied answer was not about stays pending. */
  lemma PendingElsewhere(s: State, t: State, k: Key)
    requires WellShaped(s) && s.answer.Some? && !s.answer.value.Listed'? && k != s.todo[0]
    requires t.world == s.world && t.queue == s.queue && t.phase == s.phase
    requires (t.todo == s.todo[1..] || t.todo == s.todo) && t.answer.None?
    ensures Pending(s, k) ==> Pending(t, k)
    ensures UnderWay(s, k) ==> UnderWay(t, k)
  {
    assert s.todo == [s.todo[0]] + s.todo[1..];
  }

  /** An unknown service leaves the copy; whatever else lags, lagged before. */
  lemma ForgottenLags(w: World, copy: Copy, id: Id, k: Key)
    requires ValidWorld(w) && WellFormed(copy)
    ensures var copy' := Store(Without(copy.order, id), copy.entries - {id});
      && WellFormed(copy')
      && (Lags(w, copy', k) ==> Lags(w, copy, k) || (k == Roster && id in w.services))
      && (Differs(w, copy', k) ==> Differs(w, copy, k) || (k == Roster && id in w.services))
      && (k.Of? && k.id == id ==> !Lags(w, copy', k) && !Differs(w, copy', k))
  {
    hide Shows;
    if id !in copy.entries {
      WithoutAbsent(copy.order, id);
      assert copy.entries - {id} == copy.entries;
    } else {
      WithoutRemoves(copy.order, id);
    }
  }

  /** With one entry's contents replaced, nothing else comes to lag or to differ. */
  lemma ReplacedLags(w: World, copy: Copy, id: Id, e: Entry<LogCopy, Option<nat>>, k: Key)
    requires ValidWorld(w) && WellFormed(copy) && id in copy.entries && e.snapshot == copy.entries[id].snapshot
    ensures var copy' := copy.(entries := copy.entries[id := e]);
      && WellFormed(copy')
      && (k.Roster? || k.id != id || (k.facet.Logs? && e.logs == copy.entries[id].logs)
                    || (k.facet.Health? && e.health == copy.entries[id].health) ==>
            (Lags(w, copy', k) <==> Lags(w, copy, k)) && (Differs(w, copy', k) <==> Differs(w, copy, k)))
  {
    hide Shows;
  }

  lemma ApplyPageKeeps(s: State, t: State)
    requires Accounts(s) && LogsFit(s) && Does(s, Apply([]), t) && s.answer.Some? && s.answer.value.LogsPage?
    ensures Accounts(t)
  {
    PageKeepsShape(s, t);
    if Synced(s) {
      PageKeepsStage(s, t);
    }
    EndsAudibly(s);
    hide LogsFit, WellShaped, Lags, Pending, Applies, StageHeard;
    forall k | Synced(t) && Lags(t.world, t.copy, k) ensures Pending(t, k) || k in t.lost {
      PageAccounted(s, t, k);
    }
  }

  /** Where a refresh ends on a replaced record, the log had moved on since the answer before. */
  ghost predicate EndsMoved(s: State)
    requires s.answer.Some? && s.answer.value.LogsPage?
  {
    var LogsPage(id, log, page) := s.answer.value;
    id in s.copy.entries && log.server.start <= |log.server.history| ==>
      var c := s.copy.entries[id].logs;
      EndsReplaced(c, s.stage, log, page) ==> c.basis.Some? && c.basis.value != log
  }

  lemma EndsAudibly(s: State)
    requires WellShaped(s) && LogsFit(s) && s.answer.Some? && s.answer.value.LogsPage?
    ensures EndsMoved(s)
  {
    var LogsPage(id, log, page) := s.answer.value;
    var c := s.copy.entries[id].logs;
    hide EntriesFit, FitsWorld, IsServedPage, IsFresh;
    if log.server.start <= |log.server.history| && EndsReplaced(c, s.stage, log, page) {
      assert s.stage.Next?;
      EndsReplacedMoved(c, s.stage, log, page);
    }
  }

  lemma PageKeepsStage(s: State, t: State)
    requires WellShaped(s) && StaleAnswerHeard(s) && s.todo != [] && s.answer.Some? && s.answer.value.LogsPage?
    requires Applies(s, s.answer.value, [], t)
    ensures StageHeard(t)
  {
    var LogsPage(id, log, page) := s.answer.value;
    LastPageIsAsOf(s.copy.entries[id].logs, s.stage, log, page);
    hide After, NextStage, WellFormed;
  }

  lemma PageKeepsShape(s: State, t: State)
    requires WellShaped(s) && s.todo != [] && s.answer.Some? && s.answer.value.LogsPage?
    requires Applies(s, s.answer.value, [], t)
    ensures WellShaped(t) && Synced(t) == Synced(s) && t.answer.None?
  {
    hide After, NextStage;
  }

  lemma PageAccounted(s: State, t: State, k: Key)
    requires WellShaped(s) && StaleAnswerHeard(s) && StageHeard(s) && s.answer.Some? && s.answer.value.LogsPage?
    requires Applies(s, s.answer.value, [], t) && (Lags(s.world, s.copy, k) ==> Pending(s, k) || k in s.lost)
    requires Lags(t.world, t.copy, k) && EndsMoved(s)
    ensures Pending(t, k) || k in t.lost
  {
    var LogsPage(id, log, page) := s.answer.value;
    var e := s.copy.entries[id];
    var e' := e.(logs := After(e.logs, s.stage, log, page));
    LastPageIsAsOf(e.logs, s.stage, log, page);
    hide After, NextStage;
    if k != Of(id, Logs) {
      ReplacedLags(s.world, s.copy, id, e', k);
      PendingElsewhere(s, t, k);
    } else if t.todo == s.todo[1..] {
      LastPageAccounted(s, t);
    }
  }

  lemma LastPageAccounted(s: State, t: State)
    requires WellShaped(s) && StaleAnswerHeard(s) && StageHeard(s) && s.answer.Some? && s.answer.value.LogsPage?
    requires Applies(s, s.answer.value, [], t) && t.todo == s.todo[1..] && EndsMoved(s)
    requires Lags(t.world, t.copy, s.todo[0])
    ensures HeardOrLost(t, s.todo[0])
  {
    var LogsPage(id, log, page) := s.answer.value;
    var c := s.copy.entries[id].logs;
    LastPageIsAsOf(c, s.stage, log, page);
    assert s.todo != s.todo[1..];
    hide After, NextStage, WellFormed, ValidWorld;
    assert AsOf(t.copy.entries[id].logs) == Some(log) || EndsReplaced(c, s.stage, log, page);
    if EndsReplaced(c, s.stage, log, page) {
      assert s.stage.Next? && PageLog(s, id) == log;
    }
  }

  /** Behind the last answer, the copy is as of its log, or is about to be asked for again. */
  lemma LastPageIsAsOf(c: LogCopy, stage: Stage, log: Log, page: LogPage)
    requires log.server.start <= |log.server.history|
    ensures NextStage(c, stage, page).None? ==>
      AsOf(After(c, stage, log, page)) == Some(log) || EndsReplaced(c, stage, log, page)
    ensures NextStage(c, stage, page) == Some(Next) ==> After(c, stage, log, page).basis == Some(log)
  {
    hide Taken, BehindAfter, MustRetail, EndsReplaced;
  }

  lemma ApplyHealthKeeps(s: State, t: State)
    requires Accounts(s) && Does(s, Apply([]), t) && s.answer.Some? && s.answer.value.HealthIs?
    ensures Accounts(t)
  {
    HealthKeepsShape(s, t);
    hide WellShaped, Lags, Pending, Applies;
    forall k | Synced(t) && Lags(t.world, t.copy, k) ensures Pending(t, k) || k in t.lost {
      HealthAccounted(s, t, k);
    }
  }

  lemma HealthKeepsShape(s: State, t: State)
    requires WellShaped(s) && s.todo != [] && s.answer.Some? && s.answer.value.HealthIs?
    requires Applies(s, s.answer.value, [], t)
    ensures WellShaped(t) && Synced(t) == Synced(s) && t.answer.None?
  {
  }

  lemma HealthAccounted(s: State, t: State, k: Key)
    requires WellShaped(s) && StaleAnswerHeard(s) && s.answer.Some? && s.answer.value.HealthIs?
    requires Applies(s, s.answer.value, [], t) && (Lags(s.world, s.copy, k) ==> Pending(s, k) || k in s.lost)
    requires Lags(t.world, t.copy, k)
    ensures Pending(t, k) || k in t.lost
  {
    var HealthIs(id, health) := s.answer.value;
    if id in s.copy.entries {
      ReplacedLags(s.world, s.copy, id, s.copy.entries[id].(health := Some(health)), k);
    }
    if k != Of(id, Health) {
      PendingElsewhere(s, t, k);
    }
  }

  lemma ApplyNotFoundKeeps(s: State, t: State)
    requires Accounts(s) && Does(s, Apply([]), t) && s.answer.Some? && s.answer.value.NotFound?
    ensures Accounts(t)
  {
    var NotFound(id, facet) := s.answer.value;
    ForgottenLags(s.world, s.copy, id, Roster);
    hide Lags;
    forall k | Synced(t) && Lags(t.world, t.copy, k) ensures Pending(t, k) || k in t.lost {
      ForgottenLags(s.world, s.copy, id, k);
      if k != Of(id, facet) {
        PendingElsewhere(s, t, k);
        assert Lags(s.world, s.copy, k) ==> Pending(s, k) || k in s.lost;
      }
    }
  }

  lemma AcknowledgeKeeps(s: State, acks: seq<Ack>, t: State)
    requires Accounts(s) && Does(s, AcknowledgeRestart(acks), t)
    ensures Accounts(t)
  {
    MarkedAllKeepsContents(s.copy.entries, acks);
    hide ValidWorld;
    forall k | Synced(t) && Lags(t.world, t.copy, k) ensures Pending(t, k) || k in t.lost {
      assert Lags(s.world, s.copy, k);
    }
  }

  lemma SkipKeeps(s: State, t: State)
    requires Accounts(s) && Does(s, Skip, t)
    ensures Accounts(t)
  {
    assert s.todo == [s.todo[0]] + s.todo[1..];
    forall k | Synced(t) && Lags(t.world, t.copy, k) ensures Pending(t, k) || k in t.lost {
      assert Pending(s, k) || k in s.lost;
    }
  }

  lemma PhaseKeeps(s: State, a: Action, t: State)
    requires Accounts(s) && Does(s, a, t)
    requires a.StartSync? || a.Subscribe? || a.Connect? || a.SubscriptionEnds? || a.Disconnect?
    ensures Accounts(t)
  {
    var empty: Copy := Store([], map[]);
    assert WellFormed(empty);
    hide Lags, ValidWorld, WellFormed;
    forall k | Synced(t) && Lags(t.world, t.copy, k) ensures Pending(t, k) || k in t.lost {
      assert Synced(s) ==> Pending(s, k) || k in s.lost;
    }
  }

  lemma StepKeeps(s: State, a: Action, t: State)
    requires Inv(s) && Does(s, a, t)
    ensures Inv(t)
  {
    InvShape(s);
    StepKeepsLogs(s, a, t);
    hide Accounts, LogsFit, Applies, WellShaped, StaleAnswerHeard, AllAccounted;
    match a
    case ServerMoves(world, births, notes) => ServerMovesKeeps(s, world, births, notes, t);
    case TakeBatch(n) => TakeBatchKeeps(s, n, t);
    case Ask(page) => AskKeeps(s, page, t);
    case Apply(hydrate) => ApplyKeeps(s, hydrate, t);
    case Skip => SkipKeeps(s, t);
    case AcknowledgeRestart(acks) => AcknowledgeKeeps(s, acks, t);
    case SwallowError => SwallowErrorKeeps(s, t);
    case SkipFrame(i) => SkipFrameKeeps(s, i, t);
    case _ => PhaseKeeps(s, a, t);
  }

  lemma ApplyKeeps(s: State, hydrate: seq<Id>, t: State)
    requires Accounts(s) && LogsFit(s) && Does(s, Apply(hydrate), t)
    ensures Accounts(t)
  {
    HydrateIsForRosters(s, hydrate, t);
    hide Accounts, Does, LogsFit;
    match s.answer.value
    case Listed'(_) => ApplyRosterKeeps(s, hydrate, t);
    case LogsPage(_, _, _) => ApplyPageKeeps(s, t);
    case HealthIs(_, _) => ApplyHealthKeeps(s, t);
    case NotFound(_, _) => ApplyNotFoundKeeps(s, t);
  }

  lemma HydrateIsForRosters(s: State, hydrate: seq<Id>, t: State)
    requires Does(s, Apply(hydrate), t)
    ensures s.answer.Some? && (!s.answer.value.Listed'? ==> Does(s, Apply([]), t))
  {
    hide After, NextStage;
  }

  lemma StartsRight(s: State)
    requires Starts(s)
    ensures Inv(s)
  {
  }

  lemma {:induction false} RunKeeps(states: seq<State>, actions: seq<Action>)
    requires IsHandoff(states, actions)
    ensures Inv(states[|actions|])
  {
    hide Inv, Does, Starts;
    if actions == [] {
      StartsRight(states[0]);
    } else {
      var n := |actions| - 1;
      assert IsHandoff(states[..n + 1], actions[..n]);
      RunKeeps(states[..n + 1], actions[..n]);
      assert Does(states[n], actions[n], states[n + 1]);
      StepKeeps(states[n], actions[n], states[n + 1]);
    }
  }

  // ---------------------------------------------------------------- what it means

  /** A copied log that a refresh left out of date, or of which it made a mixture. */
  ghost predicate DamagedKey(s: State, k: Key) {
    k.Of? && k.facet.Logs? && k.id in s.copy.entries && Damaged(s.copy.entries[k.id].logs)
  }

  /** What the last refresh was about as the server now is, differs only where it is damaged. */
  lemma DiffersIfDamaged(s: State, k: Key)
    requires WellShaped(s) && LogsFit(s) && Differs(s.world, s.copy, k)
    ensures Lags(s.world, s.copy, k) || DamagedKey(s, k)
  {
    hide WellCopied, FitsWorld, Shows, StageFits;
    if !Lags(s.world, s.copy, k) && k.Of? && k.facet.Logs? {
      var c := s.copy.entries[k.id].logs;
      assert FitsEntry(s.world, s.births, k.id, c);
      if !Damaged(c) {
        RightExactly(c, s.world.services[k.id].log);
      }
    }
  }

  /** And then exactly if a record left behind is stale. */
  lemma DamageDiffersExactly(s: State, id: Id)
    requires Inv(s) && id in s.world.services && id in s.copy.entries
    requires !Lags(s.world, s.copy, Of(id, Logs)) && !s.copy.entries[id].logs.mixed
    ensures var (c, log) := (s.copy.entries[id].logs, s.world.services[id].log);
      && log.server.start <= |log.server.history|
      && (Differs(s.world, s.copy, Of(id, Logs)) <==> StaleAmong(c.mirror, log.server, c.behind))
  {
    var c := s.copy.entries[id].logs;
    assert FitsEntry(s.world, s.births, id, c);
    hide WellCopied, FitsWorld, Shows, StageFits;
    RightExactly(c, s.world.services[id].log);
  }

  lemma Accounted(s: State, k: Key)
    requires Inv(s) && s.phase.Connected? && Differs(s.world, s.copy, k)
    ensures UnderWay(s, k) || k in s.lost || DamagedKey(s, k)
  {
    DiffersIfDamaged(s, k);
    hide LogsFit, Lags, Differs;
  }

  /** The guarantee: what differs from the server is going to be refreshed. */
  ghost predicate Guaranteed(s: State)
    requires ValidWorld(s.world)
  {
    forall k :: Differs(s.world, s.copy, k) ==> UnderWay(s, k)
  }

  /**
   No lost change: in every interleaving, while the mirror is connected, whatever differs from the
   server is named by a queued change, is still to be asked for, or has been answered as the server
   is; or it is lost, or damaged by a refresh.
   */
  lemma NoLostChange(states: seq<State>, actions: seq<Action>, k: Key)
    requires IsHandoff(states, actions) && states[|actions|].phase.Connected?
    ensures var s := states[|actions|];
      && ValidWorld(s.world)
      && (Differs(s.world, s.copy, k) ==> UnderWay(s, k) || k in s.lost || DamagedKey(s, k))
  {
    RunKeeps(states, actions);
    var s := states[|actions|];
    InvShape(s);
    hide *;
    if Differs(s.world, s.copy, k) {
      Accounted(s, k);
    }
  }

  /** The guarantee fails in a connected state exactly if something lost or damaged differs unheard of. */
  lemma GuaranteedExactly(states: seq<State>, actions: seq<Action>)
    requires IsHandoff(states, actions) && states[|actions|].phase.Connected?
    ensures var s := states[|actions|];
      && ValidWorld(s.world)
      && (Guaranteed(s) <==>
            forall k :: (k in s.lost || DamagedKey(s, k)) && Differs(s.world, s.copy, k) ==> UnderWay(s, k))
  {
    var s := states[|actions|];
    NoLostChange(states, actions, Roster);
    hide Differs, UnderWay, DamagedKey, Does, Starts, ValidWorld;
    forall k | Differs(s.world, s.copy, k) ensures UnderWay(s, k) || k in s.lost || DamagedKey(s, k) {
      NoLostChange(states, actions, k);
    }
  }

  // ---------------------------------------------------------------- which steps keep the guarantee

  /** A swallowed error keeps the guarantee exactly if every dropped key that still differs is queued. */
  lemma SwallowKeepsExactly(s: State, t: State)
    requires Inv(s) && Guaranteed(s) && Does(s, SwallowError, t)
    ensures ValidWorld(t.world)
    ensures Guaranteed(t) <==> forall k :: k in s.todo && Differs(s.world, s.copy, k) ==> Heard(s.queue, k)
  {
    hide Differs, LogsFit, Lags;
  }

  /** So does a skipped frame, for the keys that it concerned. */
  lemma SkipFrameKeepsExactly(s: State, i: nat, t: State)
    requires Inv(s) && Guaranteed(s) && Does(s, SkipFrame(i), t)
    ensures ValidWorld(t.world)
    ensures Guaranteed(t) <==>
      forall k :: Concerns(s.queue[i], k) && Differs(s.world, s.copy, k) ==> Heard(t.queue, k)
  {
    hide Differs, LogsFit, Lags;
    forall k ensures Heard(s.queue, k) <==> Heard(t.queue, k) || Concerns(s.queue[i], k) {
      FrameSkipped(s.queue, i, k);
    }
  }

  /** And a change of the server, for the keys of which the client is not told. */
  lemma MoveKeepsExactly(s: State, world: World, births: nat, notes: seq<Change>, t: State)
    requires Inv(s) && Guaranteed(s) && Does(s, ServerMoves(world, births, notes), t)
    ensures ValidWorld(s.world) && ValidWorld(t.world)
    ensures Guaranteed(t) <==>
      forall k :: Unheard(s, world, notes, k) && Differs(t.world, t.copy, k) ==> UnderWay(t, k)
  {
    hide LogsFit, Lags, Moves, Announces, AllAccounted, StaleAnswerHeard;
    forall k | Differs(t.world, t.copy, k) && !Unheard(s, world, notes, k) ensures UnderWay(t, k) {
      HeardMoveUnderWay(s, world, births, notes, t, k);
    }
  }

  lemma HeardMoveUnderWay(s: State, world: World, births: nat, notes: seq<Change>, t: State, k: Key)
    requires WellShaped(s) && Guaranteed(s) && Does(s, ServerMoves(world, births, notes), t)
    requires Differs(t.world, t.copy, k) && !Unheard(s, world, notes, k)
    ensures UnderWay(t, k)
  {
    HeardMore(s.queue, notes, k);
    if !Changed(s.world, world, s.seen, k) {
      UnchangedStays(s, world, k);
      hide Shows, Moves, Announces, Changed;
      assert UnderWay(s, k);
    }
  }

  /** An answer that is used can only break it for what it was about, and for the roster. */
  lemma ApplyKeepsExactly(s: State, hydrate: seq<Id>, t: State)
    requires Inv(s) && Guaranteed(s) && Does(s, Apply(hydrate), t) && s.phase.Connected?
    ensures ValidWorld(t.world)
    ensures Guaranteed(t) <==>
      forall k :: (k == Roster || k == s.todo[0]) && Differs(t.world, t.copy, k) ==> UnderWay(t, k)
  {
    InvShape(s);
    hide LogsFit, Lags, AllAccounted, StaleAnswerHeard, Inv;
    forall k | Differs(t.world, t.copy, k) && k != Roster && k != s.todo[0] ensures UnderWay(t, k) {
      OthersStayUnderWay(s, hydrate, t, k);
    }
  }

  lemma OthersStayUnderWay(s: State, hydrate: seq<Id>, t: State, k: Key)
    requires WellShaped(s) && Guaranteed(s) && Does(s, Apply(hydrate), t) && s.phase.Connected?
    requires Differs(t.world, t.copy, k) && k != Roster && k != s.todo[0]
    ensures UnderWay(t, k)
  {
    hide Differs, UnderWay, IsReconciled, After, NextStage, WellFormed;
    var a := s.answer.value;
    match a {
      case Listed'(snapshots) => OthersBesideRoster(s, hydrate, t, k);
      case LogsPage(id, log, page) =>
        var e := s.copy.entries[id];
        ReplacedLags(s.world, s.copy, id, e.(logs := After(e.logs, s.stage, log, page)), k);
        PendingElsewhere(s, t, k);
      case HealthIs(id, health) =>
        if id in s.copy.entries {
          ReplacedLags(s.world, s.copy, id, s.copy.entries[id].(health := Some(health)), k);
        }
        PendingElsewhere(s, t, k);
      case NotFound(id, _) =>
        ForgottenLags(s.world, s.copy, id, k);
        PendingElsewhere(s, t, k);
    }
  }

  lemma OthersBesideRoster(s: State, hydrate: seq<Id>, t: State, k: Key)
    requires WellShaped(s) && Guaranteed(s) && s.phase.Connected? && s.todo != [] && s.answer.Some?
    requires s.answer.value.Listed'? && Applies(s, s.answer.value, hydrate, t)
    requires Differs(t.world, t.copy, k) && k.Of?
    ensures UnderWay(t, k)
  {
    ReconcileKeepsOrHydrates(s.copy, s.answer.value.snapshots, t.copy, hydrate, k.id);
    hide IsReconciled, Shows, WellFormed;
    assert s.todo == [s.todo[0]] + s.todo[1..];
    if k.id in hydrate {
      SyncTasksCover(hydrate);
    } else {
      assert Differs(s.world, s.copy, k);
      assert UnderWay(s, k);
    }
  }

  /**
   The last answer of a refresh of logs, about the log as it is. Unless the copy is a mixture, it then
   differs exactly if a record left behind is stale: one that was the newest of a shortened tail,
   and was replaced and followed before the next request.
   */
  lemma HydrationKeepsExactly(s: State, t: State)
    requires Inv(s) && Guaranteed(s) && Does(s, Apply([]), t) && s.phase.Connected?
    requires s.answer.Some? && s.answer.value.LogsPage? && Current(s.world, s.answer.value) && t.todo == s.todo[1..]
    requires var c := t.copy.entries[s.answer.value.id].logs; c.complete && !c.mixed
    requires Differs(t.world, t.copy, Roster) ==> UnderWay(t, Roster)
    ensures ValidWorld(t.world) && s.answer.value.log.server.start <= |s.answer.value.log.server.history|
    ensures var (id, log) := (s.answer.value.id, s.answer.value.log);
      var c := t.copy.entries[id].logs;
      Guaranteed(t) <==> (StaleAmong(c.mirror, log.server, c.behind) ==> UnderWay(t, Of(id, Logs)))
  {
    CompletedIsCurrent(s, t);
    hide *;
    StepKeeps(s, Apply([]), t);
    ApplyKeepsExactly(s, [], t);
    DamageDiffersExactly(t, s.answer.value.id);
  }

  lemma CompletedIsCurrent(s: State, t: State)
    requires Inv(s) && Does(s, Apply([]), t) && s.answer.Some? && s.answer.value.LogsPage?
    requires Current(s.world, s.answer.value) && t.todo == s.todo[1..]
    requires t.copy.entries[s.answer.value.id].logs.complete
    ensures var LogsPage(id, log, _) := s.answer.value;
      && s.todo != [] && s.todo[0] == Of(id, Logs) && t.world == s.world && ValidWorld(t.world)
      && id in t.world.services && t.world.services[id].log == log && ValidServer(log.server)
      && log.server.start <= |log.server.history|
      && id in t.copy.entries && !Lags(t.world, t.copy, Of(id, Logs))
  {
    InvShape(s);
    CompletedShape(s, t);
  }

  lemma CompletedShape(s: State, t: State)
    requires WellShaped(s) && Does(s, Apply([]), t) && s.answer.Some? && s.answer.value.LogsPage?
    requires Current(s.world, s.answer.value) && t.todo == s.todo[1..]
    requires t.copy.entries[s.answer.value.id].logs.complete
    ensures var LogsPage(id, log, _) := s.answer.value;
      && s.todo != [] && s.todo[0] == Of(id, Logs) && t.world == s.world
      && id in t.world.services && t.world.services[id].log == log && ValidServer(log.server)
      && log.server.start <= |log.server.history|
      && id in t.copy.entries && AsOf(t.copy.entries[id].logs) == Some(log)
  {
    var LogsPage(id, log, page) := s.answer.value;
    var c := s.copy.entries[id].logs;
    assert s.todo != s.todo[1..];
    assert NextStage(c, s.stage, page).None?;
    LastPageComplete(c, s.stage, log, page);
    hide After, NextStage, WellFormed;
  }

  lemma LastPageComplete(c: LogCopy, stage: Stage, log: Log, page: LogPage)
    requires log.server.start <= |log.server.history| && NextStage(c, stage, page).None?
    ensures After(c, stage, log, page).complete ==> AsOf(After(c, stage, log, page)) == Some(log)
  {
    hide Taken, BehindAfter, MustRetail, EndsReplaced;
  }

  // ---------------------------------------------------------------- runs that lose nothing

  /** Where something gets lost or damaged: nowhere else. */
  ghost predicate LosesNothing(s: State, a: Action) {
    match a
    case SwallowError => false
    case SkipFrame(_) => false
    case ServerMoves(world, _, _) =>
      Synced(s) && ValidWorld(s.world) && ValidWorld(world) ==>
        forall k :: Changed(s.world, world, s.seen, k) ==> s.live && !Recreated(s.world, world, k)
    case Apply(_) =>
      s.answer.Some? && s.answer.value.LogsPage? && s.answer.value.id in s.copy.entries ==>
        !Damages(s.copy.entries[s.answer.value.id].logs, s.stage, s.answer.value.log, s.answer.value.page)
    case _ => true
  }

  ghost predicate Undamaged(copy: Copy) {
    forall id :: id in copy.entries ==> !Damaged(copy.entries[id].logs)
  }

  lemma PageDamagesNothing(s: State, t: State)
    requires s.todo != [] && s.answer.Some? && s.answer.value.LogsPage? && Applies(s, s.answer.value, [], t)
    requires Undamaged(s.copy) && LosesNothing(s, Apply([]))
    ensures Undamaged(t.copy)
  {
    var LogsPage(id, log, page) := s.answer.value;
    AfterDamages(s.copy.entries[id].logs, s.stage, log, page);
    hide After, NextStage, Damages, Damaged;
  }

  lemma RosterDamagesNothing(s: State, hydrate: seq<Id>, t: State)
    requires WellShaped(s) && s.todo != [] && s.answer.Some? && s.answer.value.Listed'?
    requires Applies(s, s.answer.value, hydrate, t) && Undamaged(s.copy)
    ensures Undamaged(t.copy)
  {
    hide IsReconciled, WellFormed;
    forall id | id in t.copy.entries ensures !Damaged(t.copy.entries[id].logs) {
      ReconcileKeepsOrHydrates(s.copy, s.answer.value.snapshots, t.copy, hydrate, id);
    }
  }

  lemma StepLosesNothing(s: State, a: Action, t: State)
    requires WellShaped(s) && Does(s, a, t) && LosesNothing(s, a) && s.lost == iset{} && Undamaged(s.copy)
    ensures t.lost == iset{} && Undamaged(t.copy)
  {
    hide IsReconciled, After, NextStage, Moves, Announces, IsServedPage, Damages, WellFormed, ValidWorld, Unheard;
    match a
    case Apply(hydrate) =>
      match s.answer.value {
        case Listed'(_) => RosterDamagesNothing(s, hydrate, t);
        case LogsPage(_, _, _) => PageDamagesNothing(s, t);
        case HealthIs(_, _) =>
        case NotFound(_, _) =>
      }
    case AcknowledgeRestart(acks) => MarkedAllKeepsContents(s.copy.entries, acks);
    case ServerMoves(world, _, notes) =>
      if Synced(s) {
        MoveLosesNothing(s, world, notes);
      }
    case _ =>
  }

  lemma MoveLosesNothing(s: State, world: World, notes: seq<Change>)
    requires ValidWorld(s.world) && ValidWorld(world) && Announces(s.world, world, notes)
    requires forall k :: Changed(s.world, world, s.seen, k) ==> s.live && !Recreated(s.world, world, k)
    ensures (iset k | Unheard(s, world, notes, k)) == iset{}
  {
    hide ValidWorld, Announces;
    forall k ensures !Unheard(s, world, notes, k) {
      if Changed(s.world, world, s.seen, k) {
        AnnouncedIsHeard(s.world, world, s.seen, notes, k);
      }
    }
  }

  lemma NoneDamaged(s: State)
    requires Undamaged(s.copy)
    ensures forall k :: !DamagedKey(s, k)
  {
  }

  ghost predicate IsMirror(w: World, copy: Copy)
    requires ValidWorld(w)
  {
    && copy.order == w.order
    && forall id :: id in w.services ==>
         && id in copy.entries
         && copy.entries[id].snapshot == w.services[id].snapshot
         && Shows(copy.entries[id].logs.mirror, w.services[id].log.server)
         && copy.entries[id].health == Some(w.services[id].health)
  }

  lemma MirrorDiffersNowhere(w: World, copy: Copy)
    requires ValidWorld(w)
    ensures IsMirror(w, copy) <==> forall k :: !Differs(w, copy, k)
  {
    hide Shows;
    if forall k :: !Differs(w, copy, k) {
      assert !Differs(w, copy, Roster);
      forall id | id in w.services
        ensures Shows(copy.entries[id].logs.mirror, w.services[id].log.server)
        ensures copy.entries[id].health == Some(w.services[id].health)
      {
        assert !Differs(w, copy, Of(id, Logs)) && !Differs(w, copy, Of(id, Health));
      }
    }
  }

  /**
   With nothing queued and nothing under way, the mirror is the server, logs line for line, exactly
   if nothing lost or damaged differs.
   */
  lemma SettledIsExact(states: seq<State>, actions: seq<Action>)
    requires IsHandoff(states, actions)
    requires var s := states[|actions|]; s.phase.Connected? && s.queue == [] && s.todo == []
    ensures var s := states[|actions|];
      && ValidWorld(s.world)
      && (IsMirror(s.world, s.copy) <==>
            forall k :: k in s.lost || DamagedKey(s, k) ==> !Differs(s.world, s.copy, k))
  {
    RunKeeps(states, actions);
    var s := states[|actions|];
    InvShape(s);
    hide Does, LogsFit, AllAccounted, StaleAnswerHeard, Differs, IsMirror, DamagedKey, ValidWorld, WellFormed;
    MirrorDiffersNowhere(s.world, s.copy);
    forall k | Differs(s.world, s.copy, k) ensures k in s.lost || DamagedKey(s, k) {
      Accounted(s, k);
    }
  }

  /**
   Runs in which nothing of this happens keep the guarantee in every connected state, and the mirror is
   the server in every settled one.
   */
  lemma {:induction false} NothingLost(states: seq<State>, actions: seq<Action>)
    requires IsHandoff(states, actions)
    requires forall i :: 0 <= i < |actions| ==> LosesNothing(states[i], actions[i])
    ensures var s := states[|actions|];
      && s.lost == iset{} && Undamaged(s.copy) && ValidWorld(s.world)
      && (s.phase.Connected? ==> Guaranteed(s))
      && (s.phase.Connected? && s.queue == [] && s.todo == [] ==> IsMirror(s.world, s.copy))
  {
    hide IsMirror, Does, Inv, LosesNothing, Guaranteed, ValidWorld, Differs, UnderWay, Damaged;
    if actions != [] {
      var n := |actions| - 1;
      assert IsHandoff(states[..n + 1], actions[..n]);
      NothingLost(states[..n + 1], actions[..n]);
      RunKeeps(states[..n + 1], actions[..n]);
      InvShape(states[n]);
      assert Does(states[n], actions[n], states[n + 1]) && LosesNothing(states[n], actions[n]);
      StepLosesNothing(states[n], actions[n], states[n + 1]);
    }
    RunKeeps(states, actions);
    InvShape(states[|actions|]);
    if states[|actions|].phase.Connected? {
      GuaranteedExactly(states, actions);
      NoneDamaged(states[|actions|]);
      if states[|actions|].queue == [] && states[|actions|].todo == [] {
        SettledIsExact(states, actions);
      }
    }
  }
}
