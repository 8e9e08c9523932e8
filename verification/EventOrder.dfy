/**
 Which events a merged page shows, and in what order (crates/micromux-mcp/src/tools/events.rs): told from
 the page alone, without the queues that it was popped from.
 */
module EventOrder {
  import opened EventMerge
  import opened MergeQueues
  import opened Prelude

  // ---------------------------------------------------------------- the order of a merge

  /** `out[j]` is the next event of its service after `out[i]`. */
  ghost predicate IsNextAfter(out: seq<SessionEvent>, i: nat, j: nat) {
    i < j < |out| && forall k :: i < k < j ==> out[k].service != out[j].service
  }

  /** Older, or as old and of a service whose name comes first. */
  ghost predicate ComesBefore(a: SessionEvent, b: SessionEvent) {
    || a.event.atUnixMs < b.event.atUnixMs
    || (a.event.atUnixMs == b.event.atUnixMs && StringLessEq(a.service, b.service))
  }

  /** Every event comes before what the other services then have next. */
  ghost predicate EachIsNext(out: seq<SessionEvent>) {
    forall i: nat, j: nat :: IsNextAfter(out, i, j) && out[i].service != out[j].service ==> ComesBefore(out[i], out[j])
  }

  ghost predicate KeepsServices(queues: Queues, out: seq<SessionEvent>) {
    forall s :: Of(out, s) == if s in queues then queues[s] else []
  }

  lemma {:induction false} FirstOf(out: seq<SessionEvent>, s: Id) returns (j: nat)
    requires Of(out, s) != []
    ensures j < |out| && out[j].service == s && out[j].event == Of(out, s)[0]
    ensures forall k :: 0 <= k < j ==> out[k].service != s
  {
    if out[0].service == s {
      j := 0;
    } else {
      var rest := FirstOf(out[1..], s);
      j := rest + 1;
      assert forall k :: 0 < k < j ==> out[k] == out[1..][k - 1];
    }
  }

  lemma {:induction false} FirstIsOf(out: seq<SessionEvent>, j: nat)
    requires j < |out| && forall k :: 0 <= k < j ==> out[k].service != out[j].service
    ensures Of(out, out[j].service) != [] && Of(out, out[j].service)[0] == out[j].event
  {
    if j > 0 {
      FirstIsOf(out[1..], j - 1);
    }
  }

  lemma {:induction false} MergedOrder(queues: Queues, out: seq<SessionEvent>, i: nat, j: nat)
    requires Merges(queues, out) && IsNextAfter(out, i, j) && out[i].service != out[j].service
    ensures ComesBefore(out[i], out[j])
    decreases i
  {
    MergesStep(queues, out);
    var s, rest := out[0].service, out[1..];
    hide Merges, Of;
    if i > 0 {
      MergedOrder(Popped(queues, s), rest, i - 1, j - 1);
    } else {
      FirstIsOf(rest, j - 1);
      MergeKeepsServices(Popped(queues, s), rest, out[j].service);
      assert queues[out[j].service][0] == out[j].event;
    }
  }

  lemma LaterIsNext(out: seq<SessionEvent>)
    requires out != [] && EachIsNext(out)
    ensures EachIsNext(out[1..])
  {
    var rest := out[1..];
    hide ComesBefore;
    forall i: nat, j: nat | IsNextAfter(rest, i, j) && rest[i].service != rest[j].service
      ensures ComesBefore(rest[i], rest[j])
    {
      assert forall k :: 0 < k < |out| ==> out[k] == rest[k - 1];
      assert IsNextAfter(out, i + 1, j + 1);
    }
  }

  lemma FirstIsLeast(queues: Queues, out: seq<SessionEvent>)
    requires out != [] && KeepsServices(queues, out) && EachIsNext(out)
    ensures IsLeastHead(queues, out[0].service) && queues[out[0].service][0] == out[0].event
  {
    var s := out[0].service;
    OfStep(out[0], out[1..], s);
    assert out == [out[0]] + out[1..];
    hide Of;
    assert s in queues && queues[s] != [] && queues[s][0] == out[0].event;
    forall t | t in queues && queues[t] != [] ensures HeadLessEq(queues[s][0], s, queues[t][0], t) {
      StringLessEqTotal(s, s);
      if t != s {
        var j := FirstOf(out, t);
        assert IsNextAfter(out, 0, j);
      }
    }
  }

  lemma RestKeepsServices(queues: Queues, out: seq<SessionEvent>)
    requires out != [] && KeepsServices(queues, out) && out[0].service in queues && queues[out[0].service] != []
    ensures KeepsServices(Popped(queues, out[0].service), out[1..])
  {
    var first, rest := out[0], out[1..];
    assert out == [first] + rest;
    forall t ensures Of(rest, t) == if t in queues then Popped(queues, first.service)[t] else [] {
      OfStep(first, rest, t);
      hide Of;
      var front := if first.service == t then [first.event] else [];
      assert Of(out, t) == front + Of(rest, t);
      assert Of(rest, t) == Of(out, t)[|front|..];
    }
  }

  lemma {:induction false} OrderedMerges(queues: Queues, out: seq<SessionEvent>)
    requires KeepsServices(queues, out) && EachIsNext(out)
    ensures Merges(queues, out)
    decreases |out|
  {
    if out == [] {
      assert forall s :: s in queues ==> queues[s] == Of(out, s) == [];
    } else {
      FirstIsLeast(queues, out);
      RestKeepsServices(queues, out);
      LaterIsNext(out);
      hide EachIsNext, KeepsServices, IsLeastHead;
      OrderedMerges(Popped(queues, out[0].service), out[1..]);
    }
  }

  /**
   The merge, said without popping: every service's events in their order, and each event no newer than
   what the other services then have next, by name where they are as old.
   */
  lemma MergesExactly(queues: Queues, out: seq<SessionEvent>)
    ensures Merges(queues, out) <==> KeepsServices(queues, out) && EachIsNext(out)
  {
    if Merges(queues, out) {
      forall s ensures Of(out, s) == if s in queues then queues[s] else [] {
        MergeKeepsServices(queues, out, s);
      }
      hide Merges, IsNextAfter, ComesBefore;
      forall i: nat, j: nat | IsNextAfter(out, i, j) && out[i].service != out[j].service
        ensures ComesBefore(out[i], out[j])
      {
        MergedOrder(queues, out, i, j);
      }
    }
    if KeepsServices(queues, out) && EachIsNext(out) {
      OrderedMerges(queues, out);
    }
  }

  // ---------------------------------------------------------------- services in time order

  ghost predicate TimeSorted(events: seq<Event>) {
    forall i, j :: 0 <= i < j < |events| ==> events[i].atUnixMs <= events[j].atUnixMs
  }

  ghost predicate AllSorted(queues: Queues) {
    forall s :: s in queues ==> TimeSorted(queues[s])
  }

  /** By time, and by service where times are equal. */
  ghost predicate InOrder(out: seq<SessionEvent>) {
    forall i, j :: 0 <= i < j < |out| ==> ComesBefore(out[i], out[j])
  }

  lemma {:induction false} OfMembers(out: seq<SessionEvent>, s: Id)
    ensures forall e :: e in Of(out, s) <==> SessionEvent(s, e) in out
  {
    if out != [] {
      OfMembers(out[1..], s);
      assert out == [out[0]] + out[1..];
    }
  }

  lemma {:induction false} OfSorted(out: seq<SessionEvent>, s: Id)
    requires InOrder(out)
    ensures TimeSorted(Of(out, s))
  {
    if out != [] {
      var rest := out[1..];
      OfSorted(rest, s);
      OfMembers(rest, s);
      forall e | e in Of(rest, s) ensures out[0].event.atUnixMs <= e.atUnixMs {
        var k :| 0 <= k < |rest| && rest[k] == SessionEvent(s, e);
        assert ComesBefore(out[0], out[k + 1]);
      }
    }
  }

  lemma {:induction false} SameServiceSorted(out: seq<SessionEvent>, i: nat, j: nat)
    requires i < j < |out| && out[i].service == out[j].service && TimeSorted(Of(out, out[i].service))
    ensures out[i].event.atUnixMs <= out[j].event.atUnixMs
  {
    var s, rest := out[0].service, out[1..];
    if i > 0 {
      OfTail(out, out[i].service);
      assert rest[i - 1] == out[i] && rest[j - 1] == out[j];
      SameServiceSorted(rest, i - 1, j - 1);
    } else {
      OfMembers(rest, s);
      assert rest[j - 1] == SessionEvent(s, out[j].event);
      var m :| 0 <= m < |Of(rest, s)| && Of(rest, s)[m] == out[j].event;
      assert Of(out, s) == [out[0].event] + Of(rest, s) && Of(out, s)[m + 1] == out[j].event;
      assert Of(out, s)[0] == out[0].event;
    }
  }

  lemma OfTail(out: seq<SessionEvent>, s: Id)
    requires out != [] && TimeSorted(Of(out, s))
    ensures TimeSorted(Of(out[1..], s))
  {
    var front, rest := if out[0].service == s then [out[0].event] else [], Of(out[1..], s);
    assert Of(out, s) == front + rest;
    hide Of;
    SortedEnd(front, rest);
  }

  lemma SortedEnd(front: seq<Event>, rest: seq<Event>)
    requires TimeSorted(front + rest)
    ensures TimeSorted(rest)
  {
    assert forall i :: 0 <= i < |rest| ==> rest[i] == (front + rest)[|front| + i];
  }

  lemma {:induction false} NextOf(out: seq<SessionEvent>, i: nat, j: nat) returns (k: nat)
    requires i < j < |out|
    ensures i < k <= j && IsNextAfter(out, i, k) && out[k].service == out[j].service
    decreases j
  {
    if m: nat :| i < m < j && out[m].service == out[j].service {
      k := NextOf(out, i, m);
    } else {
      k := j;
    }
  }

  /** The merge is in order of time, and of names at equal times, exactly if every service is in order of time. */
  lemma MergeSortsExactly(queues: Queues, out: seq<SessionEvent>)
    requires Merges(queues, out)
    ensures InOrder(out) <==> AllSorted(queues)
  {
    if AllSorted(queues) {
      forall i: nat, j: nat | i < j < |out| ensures ComesBefore(out[i], out[j]) {
        MergeInOrder(queues, out, i, j);
      }
    }
    if InOrder(out) {
      hide InOrder, Of, TimeSorted;
      forall s | s in queues ensures TimeSorted(queues[s]) {
        MergeKeepsServices(queues, out, s);
        OfSorted(out, s);
      }
    }
  }

  lemma MergeInOrder(queues: Queues, out: seq<SessionEvent>, i: nat, j: nat)
    requires Merges(queues, out) && AllSorted(queues) && i < j < |out|
    ensures ComesBefore(out[i], out[j])
  {
    var k := NextOf(out, i, j);
    MergeKeepsServices(queues, out, out[j].service);
    assert TimeSorted(Of(out, out[j].service));
    hide Merges, Of, TimeSorted, IsNextAfter;
    if k < j {
      SameServiceSorted(out, k, j);
    }
    if out[i].service == out[j].service {
      SameServiceSorted(out, i, j);
      StringLessEqTotal(out[i].service, out[j].service);
    } else {
      MergedOrder(queues, out, i, k);
    }
  }

  lemma OrderedIsMerge(queues: Queues, out: seq<SessionEvent>)
    requires KeepsServices(queues, out) && InOrder(out)
    ensures Merges(queues, out)
  {
    hide ComesBefore, KeepsServices;
    assert EachIsNext(out);
    MergesExactly(queues, out);
  }

  // ---------------------------------------------------------------- a tail page is the end of the merge

  /** `pages` holds at least the last `n` events of every queue. */
  ghost predicate HoldsLast(pages: Queues, queues: Queues, n: nat) {
    && pages.Keys == queues.Keys
    && forall s :: s in pages ==> IsEnd(pages[s], queues[s], n)
  }

  ghost predicate IsEnd(page: seq<Event>, queue: seq<Event>, n: nat) {
    && |page| <= |queue| && page == queue[|queue| - |page|..]
    && (|page| >= n || page == queue)
  }

  lemma OfAround(a: seq<SessionEvent>, e: SessionEvent, b: seq<SessionEvent>, s: Id)
    ensures Of((a + [e]) + b, s) == (Of(a, s) + if e.service == s then [e.event] else []) + Of(b, s)
    ensures Of(a + b, s) == Of(a, s) + Of(b, s)
  {
    OfConcat(a + [e], b, s);
    OfConcat(a, [e], s);
    OfConcat(a, b, s);
    OfOne(e, s);
    hide Of;
  }

  lemma OfOne(e: SessionEvent, s: Id)
    ensures Of([e], s) == if e.service == s then [e.event] else []
  {
    OfStep(e, [], s);
    assert [e] + [] == [e];
  }

  lemma {:induction false} NoneOf(out: seq<SessionEvent>, s: Id)
    requires forall k :: 0 <= k < |out| ==> out[k].service != s
    ensures Of(out, s) == []
  {
    if out != [] {
      NoneOf(out[1..], s);
    }
  }

  lemma {:induction false} OfIsShorter(out: seq<SessionEvent>, s: Id)
    ensures |Of(out, s)| <= |out|
  {
    if out != [] {
      OfIsShorter(out[1..], s);
    }
  }

  /** Without its oldest event of a service, the merge of sorted queues is the merge without it. */
  lemma FirstRemoved(queues: Queues, out: seq<SessionEvent>, s: Id) returns (j: nat)
    requires AllSorted(queues) && Merges(queues, out) && s in queues && queues[s] != []
    ensures j < |out| && j + |queues[s]| <= |out|
    ensures Merges(Popped(queues, s), out[..j] + out[j + 1..]) && AllSorted(Popped(queues, s))
  {
    hide Merges, EachIsNext, InOrder, TimeSorted, Of, AllSorted;
    MergesExactly(queues, out);
    MergeSortsExactly(queues, out);
    assert Of(out, s) == queues[s];
    hide KeepsServices;
    j := FirstOf(out, s);
    var a, e, b := out[..j], out[j], out[j + 1..];
    assert out == (a + [e]) + b;
    FirstOfThree(a, e, b);
    PoppedKeepsServices(queues, a, e, b);
    RemovedInOrder(a, e, b);
    OrderedIsMerge(Popped(queues, s), a + b);
    PoppedSorted(queues, s);
  }

  lemma FirstOfThree(a: seq<SessionEvent>, e: SessionEvent, b: seq<SessionEvent>)
    requires forall k :: 0 <= k < |a| ==> a[k].service != e.service
    ensures Of(a, e.service) == [] && |Of((a + [e]) + b, e.service)| <= |b| + 1
  {
    NoneOf(a, e.service);
    OfAround(a, e, b, e.service);
    OfIsShorter(b, e.service);
  }

  lemma PoppedSorted(queues: Queues, s: Id)
    requires AllSorted(queues) && s in queues && queues[s] != []
    ensures AllSorted(Popped(queues, s))
  {
    assert TimeSorted(queues[s]);
  }

  lemma RemovedInOrder(a: seq<SessionEvent>, e: SessionEvent, b: seq<SessionEvent>)
    requires InOrder((a + [e]) + b)
    ensures InOrder(a + b)
  {
    var all := (a + [e]) + b;
    hide ComesBefore;
    forall i, j | 0 <= i < j < |a + b| ensures ComesBefore((a + b)[i], (a + b)[j]) {
      var p, q := if i < |a| then i else i + 1, if j < |a| then j else j + 1;
      assert all[p] == (a + b)[i] && all[q] == (a + b)[j];
    }
  }

  lemma PoppedKeepsServices(queues: Queues, a: seq<SessionEvent>, e: SessionEvent, b: seq<SessionEvent>)
    requires KeepsServices(queues, (a + [e]) + b) && Of(a, e.service) == []
    requires e.service in queues && queues[e.service] != []
    ensures KeepsServices(Popped(queues, e.service), a + b)
  {
    forall t ensures Of(a + b, t) == if t in queues then Popped(queues, e.service)[t] else [] {
      OfAround(a, e, b, t);
      hide Of;
      assert Of((a + [e]) + b, t) == if t in queues then queues[t] else [];
      if t == e.service {
        assert queues[t] == ([] + [e.event]) + Of(b, t);
        assert queues[t][1..] == Of(b, t) == [] + Of(b, t);
      } else {
        assert Of(a, t) + [] == Of(a, t);
      }
    }
  }

  function Last<T>(s: seq<T>, n: nat): seq<T> {
    s[SaturatingSub(|s|, n)..]
  }

  /** Where every service is in order of time, merging the last `n` events of each gives the last `n` of all. */
  lemma {:induction false} TailIsEndOfMerge(
      pages: Queues, queues: Queues, n: nat, some: seq<SessionEvent>, all: seq<SessionEvent>)
    requires HoldsLast(pages, queues, n) && AllSorted(queues) && Merges(pages, some) && Merges(queues, all)
    ensures Last(some, n) == Last(all, n)
    decreases Count(queues)
  {
    hide Merges, AllSorted, Last, Count, Popped;
    if s :| s in pages && |pages[s]| < |queues[s]| {
      var j := FirstRemoved(queues, all, s);
      var rest := all[..j] + all[j + 1..];
      CountPopped(queues, s);
      HoldsLastPopped(pages, queues, n, s);
      hide HoldsLast;
      TailIsEndOfMerge(pages, Popped(queues, s), n, some, rest);
      EndIsKept(all, j, n);
    } else {
      assert forall s :: s in queues ==> pages[s] == queues[s];
      assert pages == queues;
      MergesUnique(queues, some, all);
    }
  }

  lemma HoldsLastPopped(pages: Queues, queues: Queues, n: nat, s: Id)
    requires HoldsLast(pages, queues, n) && s in pages && |pages[s]| < |queues[s]|
    ensures s in queues && n <= |pages[s]| && HoldsLast(pages, Popped(queues, s), n)
  {
    assert IsEnd(pages[s], queues[s], n);
    EndOfRest(pages[s], queues[s], n);
    hide IsEnd;
  }

  lemma EndOfRest(page: seq<Event>, queue: seq<Event>, n: nat)
    requires IsEnd(page, queue, n) && |page| < |queue|
    ensures n <= |page| && IsEnd(page, queue[1..], n)
  {
  }

  lemma EndIsKept<T>(s: seq<T>, j: nat, n: nat)
    requires j + n < |s|
    ensures Last(s[..j] + s[j + 1..], n) == Last(s, n)
  {
  }

  // ---------------------------------------------------------------- what a call returns

  /**
   A call returns as much as fits of the merge of its pages: the oldest events, or the newest for a tail
   page. What it flags is that it left events out, or that a page did.
   */
  lemma PageIsCut(pages: seq<Page>, limit: nat, tailMode: bool, r: Merged) returns (rest: seq<SessionEvent>)
    requires IsMergeOf(pages, limit, tailMode, r)
    ensures tailMode ==> Merges(Groups(pages), rest + r.events)
    ensures !tailMode ==> Merges(Groups(pages), r.events + rest)
    ensures |r.events| == Min(limit, |rest| + |r.events|)
    ensures r.truncated <==> rest != [] || exists p :: p in pages && p.truncated
  {
    var all :| Merges(Groups(pages), all) && IsCutOf(pages, all, limit, tailMode, r);
    var k := SaturatingSub(|all|, limit);
    hide Merges, Groups, NextCursors;
    rest := if tailMode then all[..k] else all[|all| - k..];
    assert all == if tailMode then rest + r.events else r.events + rest;
  }

  /** Of every service it returns the front of its page, or the end of it. */
  lemma PageOfService(pages: seq<Page>, limit: nat, tailMode: bool, r: Merged, i: nat)
    requires IsMergeOf(pages, limit, tailMode, r) && DistinctServices(pages) && i < |pages|
    ensures var (page, got) := (pages[i].events, Of(r.events, pages[i].service));
      |got| <= |page| && got == if tailMode then page[|page| - |got|..] else page[..|got|]
  {
    var s := pages[i].service;
    var rest := PageIsCut(pages, limit, tailMode, r);
    var all := if tailMode then rest + r.events else r.events + rest;
    GroupsAt(pages, i);
    MergeKeepsServices(Groups(pages), all, s);
    if tailMode {
      OfConcat(rest, r.events, s);
    } else {
      OfConcat(r.events, rest, s);
    }
    hide Of, Merges, Groups, IsMergeOf;
  }

  /** A tail page shows the newest events of the whole session, where services are in order of time. */
  lemma TailPageIsNewest(store: Timeline, pages: seq<Page>, limit: nat, r: Merged, all: seq<SessionEvent>)
    requires AllSorted(store) && HoldsLast(Groups(pages), store, limit) && IsMergeOf(pages, limit, true, r)
    requires Merges(store, all)
    ensures r.events == all[|all| - Min(limit, |all|)..]
  {
    var rest := PageIsCut(pages, limit, true, r);
    hide *;
    TailIsEndOfMerge(Groups(pages), store, limit, rest + r.events, all);
    EndOfBoth(rest, r.events, limit, all);
  }

  lemma EndOfBoth<T>(rest: seq<T>, end: seq<T>, limit: nat, all: seq<T>)
    requires |end| == Min(limit, |rest| + |end|) && Last(rest + end, limit) == Last(all, limit)
    ensures end == all[|all| - Min(limit, |all|)..]
  {
    assert Last(rest + end, limit) == end;
  }

  /** Without cursors, following starts at the beginning. */
  lemma NothingFollowedYet(store: Timeline)
    requires ValidTimeline(store)
    ensures Remaining(store, map[]) == store
  {
    forall s | s in store ensures Remaining(store, map[])[s] == store[s] {
      RemainingAt(store, map[], s);
      FilterAll(store[s], (e: Event) => e.seqNo > 0);
      AfterIsSuffix(store[s], 0, 0);
    }
  }

  /** The page says that it is truncated. */
  ghost predicate FlagsAreExact(pages: seq<Page>, queues: Queues) {
    forall i :: 0 <= i < |pages| && pages[i].service in queues ==>
      (pages[i].truncated <==> |pages[i].events| < |queues[pages[i].service]|)
  }

  /**
   A call is truncated exactly if its cursors leave something to fetch: a client that follows them until
   the flag is clear has fetched everything.
   */
  lemma TruncatedExactly(store: Timeline, cursors: map<Id, nat>, pages: seq<Page>, limit: nat, r: Merged)
    requires ValidTimeline(store) && IsFetch(store, cursors, pages) && IsMergeOf(pages, limit, false, r)
    requires FlagsAreExact(pages, Remaining(store, cursors))
    ensures r.truncated <==> exists s :: s in store && Remaining(store, r.next)[s] != []
  {
    var rest := PageIsCut(pages, limit, false, r);
    var queues, left := Remaining(store, cursors), Remaining(store, r.next);
    forall i | 0 <= i < |pages|
      ensures pages[i].service in store
      ensures left[pages[i].service] != [] <==> pages[i].truncated || Of(rest, pages[i].service) != []
    {
      LeftOfService(store, cursors, pages, limit, r, rest, i);
    }
    hide IsMergeOf, Remaining, Of, Merges, Groups;
    if r.truncated && rest != [] {
      var i := RestIsPaged(pages, r.events, rest);
      assert left[pages[i].service] != [];
    }
    if s :| s in store && left[s] != [] {
      var i := FetchAt(store, cursors, pages, s);
      assert pages[i] in pages;
    }
  }

  lemma RestIsPaged(pages: seq<Page>, front: seq<SessionEvent>, rest: seq<SessionEvent>) returns (i: nat)
    requires rest != [] && Merges(Groups(pages), front + rest)
    ensures i < |pages| && Of(rest, pages[i].service) != []
  {
    var s := rest[0].service;
    MergeKeepsServices(Groups(pages), front + rest, s);
    OfConcat(front, rest, s);
    GroupsKeys(pages, s);
    assert Of(rest, s) != [];
    i :| 0 <= i < |pages| && pages[i].service == s;
  }

  lemma LeftOfService(
      store: Timeline, cursors: map<Id, nat>, pages: seq<Page>, limit: nat, r: Merged, rest: seq<SessionEvent>, i: nat)
    requires ValidTimeline(store) && IsFetch(store, cursors, pages) && IsMergeOf(pages, limit, false, r)
    requires FlagsAreExact(pages, Remaining(store, cursors)) && Merges(Groups(pages), r.events + rest)
    requires i < |pages|
    ensures pages[i].service in store
    ensures Remaining(store, r.next)[pages[i].service] != []
       <==> pages[i].truncated || Of(rest, pages[i].service) != []
  {
    var s := pages[i].service;
    var _ := FetchAt(store, cursors, pages, s);
    GroupsAt(pages, i);
    MergeKeepsServices(Groups(pages), r.events + rest, s);
    OfConcat(r.events, rest, s);
    CallConserves(store, cursors, pages, limit, r, s);
    RemainingKeys(store, cursors);
    hide Of, Merges, Groups, IsMergeOf, Remaining, ValidTimeline;
    assert |Of(r.events, s)| + |Remaining(store, r.next)[s]| == |Remaining(store, cursors)[s]|;
    assert |Of(r.events, s)| + |Of(rest, s)| == |pages[i].events|;
  }
}
