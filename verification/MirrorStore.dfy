/**
 The attach client's roster of services (crates/micromux-tui/src/remote.rs, `MirrorStore`).

 A manual restart is acknowledged with the generation it was observed at; the mirror drops the
 service's visible logs when a later roster shows a generation beyond every acknowledged one.
 The payload types stand for whatever an entry keeps per service.
 */
module MirrorStore {
  import opened Prelude

  type Id = string

  /** `detail` stands for the parts of a service snapshot that only get copied. */
  datatype Snapshot = Snapshot(id: Id, runGeneration: nat, detail: nat)

  datatype Entry<L, H> = Entry(snapshot: Snapshot, logs: L, health: H, clearLogsAfter: Option<nat>)

  /** An insertion-ordered map. */
  datatype Store<L, H> = Store(order: seq<Id>, entries: map<Id, Entry<L, H>>)

  datatype Ack = Ack(service: Id, observedGeneration: nat)

  ghost predicate WellFormed<L, H>(store: Store<L, H>) {
    && Distinct(store.order)
    && (forall id :: id in store.order <==> id in store.entries)
    && (forall id :: id in store.entries ==> store.entries[id].snapshot.id == id)
  }

  function Ids(snapshots: seq<Snapshot>): (r: seq<Id>)
    ensures |r| == |snapshots|
    ensures forall i :: 0 <= i < |snapshots| ==> r[i] == snapshots[i].id
  {
    seq(|snapshots|, i requires 0 <= i < |snapshots| => snapshots[i].id)
  }

  lemma IdsGrow(snapshots: seq<Snapshot>, s: Snapshot)
    ensures Ids(snapshots + [s]) == Ids(snapshots) + [s.id]
    ensures Ids([]) == []
  {
  }

  lemma DistinctIsNew(snapshots: seq<Snapshot>, i: nat)
    requires Distinct(Ids(snapshots)) && i < |snapshots|
    ensures snapshots[i].id !in Ids(snapshots[..i])
  {
    var ids := Ids(snapshots);
    forall j | 0 <= j < i ensures Ids(snapshots[..i])[j] != snapshots[i].id {
      assert ids[j] != ids[i];
    }
  }

  // ---------------------------------------------------------------- reconciling

  predicate ClearsLogs<L, H>(entry: Entry<L, H>, snapshot: Snapshot) {
    entry.clearLogsAfter.Some? && snapshot.runGeneration > entry.clearLogsAfter.value
  }

  function Carried<L, H>(entry: Entry<L, H>, snapshot: Snapshot, noLogs: L): Entry<L, H> {
    if ClearsLogs(entry, snapshot)
    then Entry(snapshot, noLogs, entry.health, None)
    else entry.(snapshot := snapshot)
  }

  predicate NeedsHydration<L, H>(entries: map<Id, Entry<L, H>>, snapshot: Snapshot) {
    snapshot.id in entries ==> ClearsLogs(entries[snapshot.id], snapshot)
  }

  function Reconciled<L, H>(
      entries: map<Id, Entry<L, H>>, snapshot: Snapshot, noLogs: L, noHealth: H): Entry<L, H>
  {
    if snapshot.id in entries
    then Carried(entries[snapshot.id], snapshot, noLogs)
    else Entry(snapshot, noLogs, noHealth, None)
  }

  /** What a reconcile with distinct ids makes of the store, and which entries it must hydrate. */
  ghost predicate IsReconciled<L, H>(
      before: Store<L, H>, snapshots: seq<Snapshot>, noLogs: L, noHealth: H,
      after: Store<L, H>, hydrate: seq<Id>)
  {
    && after.order == Ids(snapshots)
    && (forall id :: id in after.entries <==> id in after.order)
    && (forall i :: 0 <= i < |snapshots| ==>
          && snapshots[i].id in after.entries
          && after.entries[snapshots[i].id] == Reconciled(before.entries, snapshots[i], noLogs, noHealth))
    && hydrate == Ids(Filter(snapshots, (s: Snapshot) => NeedsHydration(before.entries, s)))
  }

  lemma ReconciledWellFormed<L, H>(
      before: Store<L, H>, snapshots: seq<Snapshot>, noLogs: L, noHealth: H,
      after: Store<L, H>, hydrate: seq<Id>)
    requires IsReconciled(before, snapshots, noLogs, noHealth, after, hydrate)
    requires Distinct(Ids(snapshots))
    ensures WellFormed(after)
  {
    forall id | id in after.entries ensures after.entries[id].snapshot.id == id {
      var i :| 0 <= i < |after.order| && after.order[i] == id;
      assert snapshots[i].id == id;
    }
  }

  /**
   Exactly the new entries, which start empty, and those are hydrated whose acknowledged restart the
   listing shows: a service that went on running is not asked for again.
   */
  lemma HydratesNewAndCleared<L, H>(
      before: Store<L, H>, snapshots: seq<Snapshot>, noLogs: L, noHealth: H,
      after: Store<L, H>, hydrate: seq<Id>, s: Snapshot)
    requires IsReconciled(before, snapshots, noLogs, noHealth, after, hydrate)
    requires Distinct(Ids(snapshots)) && s in snapshots
    ensures s.id in hydrate <==>
      s.id in before.entries ==>
        var cleared := before.entries[s.id].clearLogsAfter;
        cleared.Some? && s.runGeneration > cleared.value
    ensures s.id in after.entries
    ensures s.id !in before.entries ==> after.entries[s.id] == Entry(s, noLogs, noHealth, None)
    ensures Distinct(hydrate) && forall id :: id in hydrate ==> id in after.order
  {
    var needs := (t: Snapshot) => NeedsHydration(before.entries, t);
    var kept := Filter(snapshots, needs);
    FilterMembers(snapshots, needs);
    FilterDistinct(snapshots, needs);
    IdsLists(kept, s.id);
    var i :| 0 <= i < |snapshots| && snapshots[i] == s;
    ListedOnce(snapshots, i);
    hide Distinct, Filter;
    forall id | id in hydrate ensures id in after.order {
      IdsLists(kept, id);
      IdsLists(snapshots, id);
    }
  }

  lemma {:induction false} FilterDistinct(snapshots: seq<Snapshot>, p: Snapshot -> bool)
    requires Distinct(Ids(snapshots))
    ensures Distinct(Ids(Filter(snapshots, p)))
  {
    if snapshots != [] {
      var rest, ids := snapshots[1..], Ids(snapshots);
      assert Ids(rest) == ids[1..];
      FilterDistinct(rest, p);
      FilterMembers(rest, p);
      var kept := Filter(rest, p);
      forall i | 0 <= i < |kept| ensures Ids(kept)[i] != ids[0] {
        assert kept[i] in kept;
        var j :| 0 <= j < |rest| && rest[j] == kept[i];
        assert ids[j + 1] != ids[0];
      }
      assert Ids(Filter(snapshots, p)) == (if p(snapshots[0]) then [ids[0]] else []) + Ids(kept);
    }
  }

  // The loop of `reconcile_services`.

  ghost predicate Remaining<L, H>(rest: map<Id, Entry<L, H>>, entries: map<Id, Entry<L, H>>, taken: seq<Id>) {
    && (forall id :: id in rest <==> id in entries && id !in taken)
    && (forall id :: id in rest ==> rest[id] == entries[id])
  }

  ghost predicate SoFar<L, H>(
      reconciled: map<Id, Entry<L, H>>, entries: map<Id, Entry<L, H>>,
      snapshots: seq<Snapshot>, n: nat, noLogs: L, noHealth: H)
    requires n <= |snapshots|
  {
    forall j :: 0 <= j < n ==>
      && snapshots[j].id in reconciled
      && reconciled[snapshots[j].id] == Reconciled(entries, snapshots[j], noLogs, noHealth)
  }

  lemma SoFarGrows<L, H>(
      reconciled: map<Id, Entry<L, H>>, entries: map<Id, Entry<L, H>>,
      snapshots: seq<Snapshot>, n: nat, noLogs: L, noHealth: H, entry: Entry<L, H>)
    requires n < |snapshots| && SoFar(reconciled, entries, snapshots, n, noLogs, noHealth)
    requires snapshots[n].id !in Ids(snapshots[..n])
    requires entry == Reconciled(entries, snapshots[n], noLogs, noHealth)
    ensures SoFar(reconciled[snapshots[n].id := entry], entries, snapshots, n + 1, noLogs, noHealth)
  {
    hide Reconciled;
    forall j | 0 <= j < n ensures snapshots[j].id != snapshots[n].id {
      assert Ids(snapshots[..n])[j] == snapshots[j].id;
    }
  }

  lemma HydrationGrows<L, H>(entries: map<Id, Entry<L, H>>, snapshots: seq<Snapshot>, s: Snapshot)
    ensures var needs := (t: Snapshot) => NeedsHydration(entries, t);
      Ids(Filter(snapshots + [s], needs))
        == Ids(Filter(snapshots, needs)) + (if NeedsHydration(entries, s) then [s.id] else [])
  {
    var needs := (t: Snapshot) => NeedsHydration(entries, t);
    FilterSnoc(snapshots, s, needs);
    IdsGrow(Filter(snapshots, needs), s);
    var kept := Filter(snapshots, needs);
    assert kept + [] == kept && Ids(kept) + [] == Ids(kept);
  }

  ghost predicate InProgress<L, H>(
      before: Store<L, H>, snapshots: seq<Snapshot>, n: nat, noLogs: L, noHealth: H,
      rest: map<Id, Entry<L, H>>, after: Store<L, H>, hydrate: seq<Id>)
    requires n <= |snapshots|
  {
    && Remaining(rest, before.entries, after.order)
    && after.order == Ids(snapshots[..n]) && (forall id :: id in after.entries <==> id in after.order)
    && SoFar(after.entries, before.entries, snapshots, n, noLogs, noHealth)
    && hydrate == Ids(Filter(snapshots[..n], (s: Snapshot) => NeedsHydration(before.entries, s)))
  }

  lemma ReconcileStarts<L, H>(before: Store<L, H>, snapshots: seq<Snapshot>, noLogs: L, noHealth: H)
    ensures InProgress(before, snapshots, 0, noLogs, noHealth, before.entries, Store([], map[]), [])
  {
    IdsGrow([], Snapshot("", 0, 0));
    assert snapshots[..0] == [];
  }

  /** The entry taken from the old map is the one the store had. */
  lemma ReconcileLooksUp<L, H>(
      before: Store<L, H>, snapshots: seq<Snapshot>, n: nat, noLogs: L, noHealth: H,
      rest: map<Id, Entry<L, H>>, after: Store<L, H>, hydrate: seq<Id>)
    requires n < |snapshots| && Distinct(Ids(snapshots))
    requires InProgress(before, snapshots, n, noLogs, noHealth, rest, after, hydrate)
    ensures var id := snapshots[n].id;
      && (id in rest <==> id in before.entries) && (id in rest ==> rest[id] == before.entries[id])
      && id !in after.entries
  {
    DistinctIsNew(snapshots, n);
  }

  lemma ReconcileGoesOn<L, H>(
      before: Store<L, H>, snapshots: seq<Snapshot>, n: nat, noLogs: L, noHealth: H,
      rest: map<Id, Entry<L, H>>, after: Store<L, H>, hydrate: seq<Id>)
    requires n < |snapshots| && Distinct(Ids(snapshots))
    requires InProgress(before, snapshots, n, noLogs, noHealth, rest, after, hydrate)
    ensures var s := snapshots[n];
      InProgress(before, snapshots, n + 1, noLogs, noHealth, rest - {s.id},
        Store(after.order + [s.id],
              after.entries[s.id := Reconciled(before.entries, s, noLogs, noHealth)]),
        hydrate + (if NeedsHydration(before.entries, s) then [s.id] else []))
  {
    var s := snapshots[n];
    DistinctIsNew(snapshots, n);
    PrefixGrows(snapshots, n);
    IdsGrow(snapshots[..n], s);
    HydrationGrows(before.entries, snapshots[..n], s);
    var entry := Reconciled(before.entries, s, noLogs, noHealth);
    SoFarGrows(after.entries, before.entries, snapshots, n, noLogs, noHealth, entry);
    hide Ids, Filter, NeedsHydration, SoFar, Reconciled, Distinct;
  }

  lemma ReconcileEnds<L, H>(
      before: Store<L, H>, snapshots: seq<Snapshot>, noLogs: L, noHealth: H,
      rest: map<Id, Entry<L, H>>, after: Store<L, H>, hydrate: seq<Id>)
    requires Distinct(Ids(snapshots))
    requires InProgress(before, snapshots, |snapshots|, noLogs, noHealth, rest, after, hydrate)
    ensures IsReconciled(before, snapshots, noLogs, noHealth, after, hydrate) && WellFormed(after)
  {
    assert snapshots[..|snapshots|] == snapshots;
    ReconciledWellFormed(before, snapshots, noLogs, noHealth, after, hydrate);
  }

  /** An insertion-ordered map with exactly the keys `ids`. */
  ghost predicate Collected<L, H>(order: seq<Id>, entries: map<Id, Entry<L, H>>, ids: seq<Id>) {
    WellFormed(Store(order, entries)) && forall id :: id in order <==> id in ids
  }

  lemma CollectedIs<L, H>(order: seq<Id>, entries: map<Id, Entry<L, H>>, ids: seq<Id>)
    requires Collected(order, entries, ids)
    ensures WellFormed(Store(order, entries)) && forall id :: id in order <==> id in ids
  {
  }

  lemma CollectedMore<L, H>(
      order: seq<Id>, entries: map<Id, Entry<L, H>>, snapshots: seq<Snapshot>, n: nat, entry: Entry<L, H>)
    requires n < |snapshots| && Collected(order, entries, Ids(snapshots[..n])) && entry.snapshot == snapshots[n]
    ensures var id := snapshots[n].id;
      Collected(if id in entries then order else order + [id], entries[id := entry], Ids(snapshots[..n + 1]))
  {
    PrefixGrows(snapshots, n);
    IdsGrow(snapshots[..n], snapshots[n]);
    hide Ids;
  }

  // ---------------------------------------------------------------- acknowledgements

  function Marked<L, H>(entries: map<Id, Entry<L, H>>, ack: Ack): map<Id, Entry<L, H>> {
    if ack.service in entries then
      var entry := entries[ack.service];
      var after := if entry.clearLogsAfter.None? then ack.observedGeneration
                   else Max(entry.clearLogsAfter.value, ack.observedGeneration);
      entries[ack.service := entry.(clearLogsAfter := Some(after))]
    else entries
  }

  function MarkedAll<L, H>(entries: map<Id, Entry<L, H>>, acks: seq<Ack>): map<Id, Entry<L, H>> {
    if acks == [] then entries
    else Marked(MarkedAll(entries, acks[..|acks| - 1]), acks[|acks| - 1])
  }

  // ---------------------------------------------------------------- the store

  class ServiceRoster<L, H> {
    var order: seq<Id>
    var entries: map<Id, Entry<L, H>>
    const noLogs: L
    const noHealth: H

    ghost function Contents(): Store<L, H>
      reads this
    {
      Store(order, entries)
    }

    constructor (noLogs: L, noHealth: H)
      ensures Contents() == Store([], map[]) && WellFormed(Contents())
      ensures this.noLogs == noLogs && this.noHealth == noHealth
    {
      this.order := [];
      this.entries := map[];
      this.noLogs := noLogs;
      this.noHealth := noHealth;
    }

    /** `reconcile_services`. The server lists each service once; an id listed again would start anew. */
    method ReconcileServices(snapshots: seq<Snapshot>) returns (needsHydration: seq<Id>)
      modifies this
      ensures WellFormed(Contents()) && forall id :: id in order <==> id in Ids(snapshots)
      ensures Distinct(Ids(snapshots)) ==>
        IsReconciled(old(Contents()), snapshots, noLogs, noHealth, Contents(), needsHydration)
    {
      var old' := entries;
      var reconciledOrder: seq<Id> := [];
      var reconciled: map<Id, Entry<L, H>> := map[];
      needsHydration := [];
      ghost var before, distinct := Contents(), Distinct(Ids(snapshots));
      ReconcileStarts(before, snapshots, noLogs, noHealth);
      assert Ids(snapshots[..0]) == [] && Collected(reconciledOrder, reconciled, []);
      hide InProgress, IsReconciled, Distinct, Ids, Collected, WellFormed;
      for i := 0 to |snapshots|
        invariant Collected(reconciledOrder, reconciled, Ids(snapshots[..i]))
        invariant distinct ==> InProgress(
          before, snapshots, i, noLogs, noHealth, old', Store(reconciledOrder, reconciled), needsHydration)
      {
        if distinct {
          ReconcileLooksUp(before, snapshots, i, noLogs, noHealth,
                           old', Store(reconciledOrder, reconciled), needsHydration);
          ReconcileGoesOn(before, snapshots, i, noLogs, noHealth,
                          old', Store(reconciledOrder, reconciled), needsHydration);
        }
        var snapshot := snapshots[i];
        var id := snapshot.id;
        var entry;
        if id in old' {
          entry := old'[id];
          if ClearsLogs(entry, snapshot) {
            entry := entry.(logs := noLogs, clearLogsAfter := None);
            needsHydration := needsHydration + [id];
          } else {
            assert needsHydration + [] == needsHydration;
          }
          entry := entry.(snapshot := snapshot);
        } else {
          needsHydration := needsHydration + [id];
          entry := Entry(snapshot, noLogs, noHealth, None);
        }
        old' := old' - {id};
        CollectedMore(reconciledOrder, reconciled, snapshots, i, entry);
        if id !in reconciled {
          reconciledOrder := reconciledOrder + [id];
        }
        reconciled := reconciled[id := entry];
      }
      assert snapshots[..|snapshots|] == snapshots;
      if distinct {
        ReconcileEnds(before, snapshots, noLogs, noHealth,
                      old', Store(reconciledOrder, reconciled), needsHydration);
      }
      CollectedIs(reconciledOrder, reconciled, Ids(snapshots));
      order := reconciledOrder;
      entries := reconciled;
    }

    /** `mark_pending_log_clears`. */
    method MarkPendingLogClears(acks: seq<Ack>)
      modifies this
      ensures order == old(order) && entries == MarkedAll(old(entries), acks)
    {
      for i := 0 to |acks|
        invariant order == old(order) && entries == MarkedAll(old(entries), acks[..i])
      {
        assert acks[..i + 1][..i] == acks[..i];
        if acks[i].service in entries {
          var entry := entries[acks[i].service];
          var after := if entry.clearLogsAfter.None? then acks[i].observedGeneration
                       else Max(entry.clearLogsAfter.value, acks[i].observedGeneration);
          entries := entries[acks[i].service := entry.(clearLogsAfter := Some(after))];
        }
      }
      assert acks[..|acks|] == acks;
    }
  }

  // ---------------------------------------------------------------- runs

  datatype Event<L, H> =
    | Acknowledged(acks: seq<Ack>)          // a restart command was accepted
    | Listed(snapshots: seq<Snapshot>) // a roster was reconciled
    | Refreshed(id: Id, logs: L, health: H) // a refresh replaced an entry's contents
    | Forgotten(id: Id)                     // a refresh found the service unknown

  function Without<T(==)>(s: seq<T>, x: T): seq<T> {
    if s == [] then [] else (if s[0] == x then [] else [s[0]]) + Without(s[1..], x)
  }

  ghost predicate Step<L, H>(before: Store<L, H>, e: Event<L, H>, after: Store<L, H>, noLogs: L, noHealth: H) {
    match e
    case Acknowledged(acks) => after == before.(entries := MarkedAll(before.entries, acks))
    case Listed(snapshots) =>
      && Distinct(Ids(snapshots))
      && exists hydrate :: IsReconciled(before, snapshots, noLogs, noHealth, after, hydrate)
    case Refreshed(id, logs, health) =>
      after == if id in before.entries
               then before.(entries := before.entries[id := before.entries[id].(logs := logs, health := health)])
               else before
    case Forgotten(id) => after == Store(Without(before.order, id), before.entries - {id})
  }

  ghost predicate IsRun<L, H>(stores: seq<Store<L, H>>, events: seq<Event<L, H>>, noLogs: L, noHealth: H) {
    && |stores| == |events| + 1 && stores[0] == Store([], map[])
    && forall i :: 0 <= i < |events| ==> Step(stores[i], events[i], stores[i + 1], noLogs, noHealth)
  }

  predicate Lists(snapshots: seq<Snapshot>, id: Id) {
    exists s :: s in snapshots && s.id == id
  }

  predicate InMirror<L, H>(events: seq<Event<L, H>>, id: Id) {
    events != [] &&
    var before := events[..|events| - 1];
    match events[|events| - 1]
    case Listed(snapshots) => Lists(snapshots, id)
    case Forgotten(other) => other != id && InMirror(before, id)
    case Acknowledged(_) => InMirror(before, id)
    case Refreshed(_, _, _) => InMirror(before, id)
  }

  function Generations(acks: seq<Ack>, id: Id): set<nat> {
    set a | a in acks && a.service == id :: a.observedGeneration
  }

  ghost predicate Exceeds(generation: nat, outstanding: set<nat>) {
    outstanding != {} && forall g :: g in outstanding ==> g < generation
  }

  /**
   The reference: the generations acknowledged for `id` since its entry appeared or was last cleared.
   Listing it with a generation beyond all of them, when there are any, clears it.
   */
  ghost function Outstanding<L, H>(events: seq<Event<L, H>>, id: Id): set<nat> {
    if events == [] then {}
    else
      var before := events[..|events| - 1];
      match events[|events| - 1]
      case Acknowledged(acks) =>
        if InMirror(before, id) then Outstanding(before, id) + Generations(acks, id) else {}
      case Refreshed(_, _, _) => Outstanding(before, id)
      case Forgotten(other) => if other == id then {} else Outstanding(before, id)
      case Listed(snapshots) =>
        if !InMirror(before, id) then {}
        else if exists s :: s in snapshots && s.id == id && !Exceeds(s.runGeneration, Outstanding(before, id))
        then Outstanding(before, id)
        else {}
  }

  /** An entry remembers the largest outstanding generation, and nothing when there is none. */
  ghost predicate Remembers(clearLogsAfter: Option<nat>, outstanding: set<nat>) {
    match clearLogsAfter
    case None => outstanding == {}
    case Some(g) => g in outstanding && forall o :: o in outstanding ==> o <= g
  }

  ghost predicate Tracks<L, H>(store: Store<L, H>, events: seq<Event<L, H>>) {
    && WellFormed(store)
    && (forall id :: id in store.entries <==> InMirror(events, id))
    && (forall id :: id in store.entries ==>
          Remembers(store.entries[id].clearLogsAfter, Outstanding(events, id)))
  }

  lemma RemembersExceeds(clearLogsAfter: Option<nat>, outstanding: set<nat>, generation: nat)
    requires Remembers(clearLogsAfter, outstanding)
    ensures (clearLogsAfter.Some? && generation > clearLogsAfter.value) <==> Exceeds(generation, outstanding)
  {
  }

  lemma {:induction false} MarkedRemembers<L, H>(
      entries: map<Id, Entry<L, H>>, acks: seq<Ack>, id: Id, outstanding: set<nat>)
    requires id in entries ==> Remembers(entries[id].clearLogsAfter, outstanding)
    ensures var marked := MarkedAll(entries, acks);
      && (id in marked <==> id in entries)
      && (id in marked ==>
            && marked[id] == entries[id].(clearLogsAfter := marked[id].clearLogsAfter)
            && Remembers(marked[id].clearLogsAfter, outstanding + Generations(acks, id)))
  {
    if acks == [] {
      assert outstanding + Generations(acks, id) == outstanding;
    } else {
      var before, ack := acks[..|acks| - 1], acks[|acks| - 1];
      MarkedRemembers(entries, before, id, outstanding);
      assert acks == before + [ack];
      assert Generations(acks, id)
          == Generations(before, id) + (if ack.service == id then {ack.observedGeneration} else {});
    }
  }

  lemma {:induction false} WithoutIsFilter<T(!new)>(s: seq<T>, x: T)
    ensures Without(s, x) == Filter(s, (y: T) => y != x)
  {
    if s != [] {
      WithoutIsFilter(s[1..], x);
    }
  }

  lemma {:induction false} WithoutRemoves<T>(s: seq<T>, x: T)
    requires Distinct(s)
    ensures Distinct(Without(s, x)) && forall y :: y in Without(s, x) <==> y in s && y != x
  {
    if s != [] {
      assert Distinct(s[1..]);
      WithoutRemoves(s[1..], x);
      assert s == [s[0]] + s[1..];
      var rest := Without(s[1..], x);
      assert s[0] !in s[1..];
    }
  }

  lemma ListedOnce(snapshots: seq<Snapshot>, i: nat)
    requires Distinct(Ids(snapshots)) && i < |snapshots|
    ensures forall s :: s in snapshots && s.id == snapshots[i].id ==> s == snapshots[i]
  {
    forall s | s in snapshots && s.id == snapshots[i].id ensures s == snapshots[i] {
      var j :| 0 <= j < |snapshots| && snapshots[j] == s;
      assert Ids(snapshots)[i] == Ids(snapshots)[j];
    }
  }

  lemma IdsLists(snapshots: seq<Snapshot>, id: Id)
    ensures id in Ids(snapshots) <==> Lists(snapshots, id)
  {
    if id in Ids(snapshots) {
      var i :| 0 <= i < |snapshots| && Ids(snapshots)[i] == id;
      assert snapshots[i] in snapshots;
    }
    if s :| s in snapshots && s.id == id {
      var i :| 0 <= i < |snapshots| && snapshots[i] == s;
      assert Ids(snapshots)[i] == id;
    }
  }

  lemma OutstandingListed<L, H>(events: seq<Event<L, H>>, snapshots: seq<Snapshot>, i: nat)
    requires Distinct(Ids(snapshots)) && i < |snapshots|
    ensures var id, before := snapshots[i].id, Outstanding(events, snapshots[i].id);
      Outstanding(events + [Listed(snapshots)], id)
        == if InMirror(events, id) && !Exceeds(snapshots[i].runGeneration, before) then before else {}
  {
    assert (events + [Listed(snapshots)])[..|events|] == events;
    ListedOnce(snapshots, i);
    assert snapshots[i] in snapshots;
  }

  lemma ReconcileTracksEntry<L, H>(
      before: Store<L, H>, events: seq<Event<L, H>>, snapshots: seq<Snapshot>, i: nat,
      after: Store<L, H>, hydrate: seq<Id>, noLogs: L, noHealth: H)
    requires Tracks(before, events) && Distinct(Ids(snapshots)) && i < |snapshots|
    requires IsReconciled(before, snapshots, noLogs, noHealth, after, hydrate)
    ensures var id := snapshots[i].id;
      && id in after.entries
      && Remembers(after.entries[id].clearLogsAfter, Outstanding(events + [Listed(snapshots)], id))
  {
    var id := snapshots[i].id;
    OutstandingListed(events, snapshots, i);
    hide Outstanding, InMirror;
    if id in before.entries {
      RemembersExceeds(before.entries[id].clearLogsAfter, Outstanding(events, id), snapshots[i].runGeneration);
    }
  }

  lemma {:induction false} ReconcileTracks<L, H>(
      before: Store<L, H>, events: seq<Event<L, H>>, snapshots: seq<Snapshot>,
      after: Store<L, H>, hydrate: seq<Id>, noLogs: L, noHealth: H)
    requires Tracks(before, events) && Distinct(Ids(snapshots))
    requires IsReconciled(before, snapshots, noLogs, noHealth, after, hydrate)
    ensures Tracks(after, events + [Listed(snapshots)])
  {
    var now := events + [Listed(snapshots)];
    ReconciledWellFormed(before, snapshots, noLogs, noHealth, after, hydrate);
    forall id ensures id in after.entries <==> InMirror(now, id) {
      IdsLists(snapshots, id);
    }
    hide Outstanding, InMirror, Remembers;
    forall id | id in after.entries
      ensures Remembers(after.entries[id].clearLogsAfter, Outstanding(now, id))
    {
      var i :| 0 <= i < |after.order| && after.order[i] == id;
      ReconcileTracksEntry(before, events, snapshots, i, after, hydrate, noLogs, noHealth);
    }
  }

  lemma {:induction false} AcknowledgeTracks<L, H>(before: Store<L, H>, events: seq<Event<L, H>>, acks: seq<Ack>)
    requires Tracks(before, events)
    ensures Tracks(before.(entries := MarkedAll(before.entries, acks)), events + [Acknowledged(acks)])
  {
    var now := events + [Acknowledged(acks)];
    var after := MarkedAll(before.entries, acks);
    assert now[..|events|] == events;
    forall id
      ensures id in after <==> id in before.entries
      ensures id in after ==> after[id].snapshot == before.entries[id].snapshot
      ensures id in after ==> Remembers(after[id].clearLogsAfter, Outstanding(now, id))
    {
      MarkedRemembers(before.entries, acks, id, Outstanding(events, id));
    }
  }

  lemma StepTracks<L, H>(
      before: Store<L, H>, events: seq<Event<L, H>>, e: Event<L, H>, after: Store<L, H>, noLogs: L, noHealth: H)
    requires Tracks(before, events) && Step(before, e, after, noLogs, noHealth)
    ensures Tracks(after, events + [e])
  {
    hide Tracks, IsReconciled, MarkedAll, Outstanding, InMirror;
    match e {
      case Listed(snapshots) =>
        var hydrate :| IsReconciled(before, snapshots, noLogs, noHealth, after, hydrate);
        ReconcileTracks(before, events, snapshots, after, hydrate, noLogs, noHealth);
      case Acknowledged(acks) =>
        AcknowledgeTracks(before, events, acks);
      case Forgotten(id) =>
        ForgottenTracks(before, events, id);
      case Refreshed(id, logs, health) =>
        RefreshedTracks(before, events, id, logs, health);
    }
  }

  lemma ForgottenTracks<L, H>(before: Store<L, H>, events: seq<Event<L, H>>, id: Id)
    requires Tracks(before, events)
    ensures Tracks(Store(Without(before.order, id), before.entries - {id}), events + [Forgotten(id)])
  {
    WithoutRemoves(before.order, id);
    hide Remembers, Without, Outstanding, InMirror;
    forall other: Id
      ensures InMirror(events + [Event<L, H>.Forgotten(id)], other) <==> other != id && InMirror(events, other)
      ensures other != id ==> Outstanding(events + [Event<L, H>.Forgotten(id)], other) == Outstanding(events, other)
    {
      ForgottenIs(events, id, other);
    }
  }

  lemma ForgottenIs<L, H>(events: seq<Event<L, H>>, id: Id, other: Id)
    ensures InMirror(events + [Forgotten(id)], other) <==> other != id && InMirror(events, other)
    ensures other != id ==> Outstanding(events + [Forgotten(id)], other) == Outstanding(events, other)
  {
    assert (events + [Forgotten(id)])[..|events|] == events;
  }

  lemma RefreshedTracks<L, H>(before: Store<L, H>, events: seq<Event<L, H>>, id: Id, logs: L, health: H)
    requires Tracks(before, events)
    ensures Tracks(
      if id in before.entries
      then before.(entries := before.entries[id := before.entries[id].(logs := logs, health := health)])
      else before, events + [Refreshed(id, logs, health)])
  {
    assert (events + [Refreshed(id, logs, health)])[..|events|] == events;
    hide Remembers;
  }

  /** Over every run the mirror tracks the reference. */
  lemma {:induction false} RunTracks<L, H>(
      stores: seq<Store<L, H>>, events: seq<Event<L, H>>, noLogs: L, noHealth: H)
    requires IsRun(stores, events, noLogs, noHealth)
    ensures Tracks(stores[|events|], events)
  {
    if events != [] {
      var n := |events| - 1;
      assert IsRun(stores[..n + 1], events[..n], noLogs, noHealth);
      RunTracks(stores[..n + 1], events[..n], noLogs, noHealth);
      assert events == events[..n] + [events[n]];
      assert Step(stores[n], events[n], stores[n + 1], noLogs, noHealth);
      StepTracks(stores[n], events[..n], events[n], stores[n + 1], noLogs, noHealth);
    }
  }

  /**
   After any run, a reconcile keeps the server's order and drops a surviving entry's logs exactly
   when restarts of it are outstanding and its generation has passed all of them. Without an
   acknowledged restart it never does: an automatic restart keeps its logs.
   */
  lemma {:induction false} ClearsExactlyAfterRestart<L, H>(
      stores: seq<Store<L, H>>, events: seq<Event<L, H>>, snapshots: seq<Snapshot>,
      after: Store<L, H>, hydrate: seq<Id>, s: Snapshot, noLogs: L, noHealth: H)
    requires IsRun(stores, events, noLogs, noHealth) && Distinct(Ids(snapshots))
    requires IsReconciled(stores[|events|], snapshots, noLogs, noHealth, after, hydrate)
    requires s in snapshots && s.id in stores[|events|].entries
    ensures after.order == Ids(snapshots) && s.id in after.entries
    ensures var was, now := stores[|events|].entries[s.id], after.entries[s.id];
      var cleared := Exceeds(s.runGeneration, Outstanding(events, s.id));
      && now.snapshot == s && now.health == was.health
      && now.logs == (if cleared then noLogs else was.logs)
      && (s.id in hydrate <==> cleared)
  {
    RunTracks(stores, events, noLogs, noHealth);
    var store := stores[|events|];
    var i :| 0 <= i < |snapshots| && snapshots[i] == s;
    ListedOnce(snapshots, i);
    RemembersExceeds(store.entries[s.id].clearLogsAfter, Outstanding(events, s.id), s.runGeneration);
    HydratesNewAndCleared(store, snapshots, noLogs, noHealth, after, hydrate, s);
  }
}
