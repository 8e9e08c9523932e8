/**
 Merging per-service event pages into one page with resumable cursors
 (crates/micromux-mcp/src/tools/events.rs).
 */
module EventMerge {
  import opened MergeQueues
  import opened Prelude

  type Id = string

  /** `detail` stands for the event's payload. */
  datatype Event = Event(seqNo: nat, atUnixMs: nat, detail: nat)

  datatype SessionEvent = SessionEvent(service: Id, event: Event)

  datatype Page = Page(service: Id, afterSeq: Option<nat>, events: seq<Event>, truncated: bool)

  type Queues = map<Id, seq<Event>>

  // ---------------------------------------------------------------- the order of heads

  /** Heads compare by time, then by service. Services differ, so the number never decides. */
  predicate HeadLessEq(a: Event, s: Id, b: Event, t: Id) {
    a.atUnixMs < b.atUnixMs || (a.atUnixMs == b.atUnixMs && StringLessEq(s, t))
  }

  ghost predicate IsLeastHead(queues: Queues, s: Id) {
    && s in queues && queues[s] != []
    && forall t :: t in queues && queues[t] != [] ==> HeadLessEq(queues[s][0], s, queues[t][0], t)
  }

  lemma HeadLessEqTransitive(a: Event, s: Id, b: Event, t: Id, c: Event, u: Id)
    requires HeadLessEq(a, s, b, t) && HeadLessEq(b, t, c, u)
    ensures HeadLessEq(a, s, c, u)
  {
    if a.atUnixMs == b.atUnixMs == c.atUnixMs {
      StringLessEqTransitive(s, t, u);
    }
  }

  lemma LeastHeadUnique(queues: Queues, s: Id, t: Id)
    requires IsLeastHead(queues, s) && IsLeastHead(queues, t)
    ensures s == t
  {
    assert HeadLessEq(queues[s][0], s, queues[t][0], t) && HeadLessEq(queues[t][0], t, queues[s][0], s);
    StringLessEqAntisymmetric(s, t);
  }

  // ---------------------------------------------------------------- the full merge

  function Popped(queues: Queues, s: Id): Queues
    requires s in queues && queues[s] != []
  {
    queues[s := queues[s][1..]]
  }

  /** `out` takes the least head again and again until nothing is left. */
  ghost predicate Merges(queues: Queues, out: seq<SessionEvent>)
    decreases |out|
  {
    if out == [] then AllEmpty(queues)
    else
      var s := out[0].service;
      && IsLeastHead(queues, s) && out[0].event == queues[s][0]
      && Merges(Popped(queues, s), out[1..])
  }

  /** The events of one service, in order. */
  function Of(out: seq<SessionEvent>, s: Id): seq<Event> {
    if out == [] then [] else (if out[0].service == s then [out[0].event] else []) + Of(out[1..], s)
  }

  lemma {:induction false} OfConcat(a: seq<SessionEvent>, b: seq<SessionEvent>, s: Id)
    ensures Of(a + b, s) == Of(a, s) + Of(b, s)
  {
    if a == [] {
      assert a + b == b;
    } else {
      OfStep(a[0], a[1..], s);
      OfStep(a[0], a[1..] + b, s);
      OfConcat(a[1..], b, s);
      hide Of;
      assert a == [a[0]] + a[1..] && a + b == [a[0]] + (a[1..] + b);
      ConcatAssociative(if a[0].service == s then [a[0].event] else [], Of(a[1..], s), Of(b, s));
    }
  }

  lemma OfStep(e: SessionEvent, rest: seq<SessionEvent>, s: Id)
    ensures Of([e] + rest, s) == (if e.service == s then [e.event] else []) + Of(rest, s)
  {
    assert ([e] + rest)[1..] == rest;
  }

  lemma MergesStep(queues: Queues, out: seq<SessionEvent>)
    requires Merges(queues, out)
    ensures out == [] <==> AllEmpty(queues)
    ensures out != [] ==>
      var s := out[0].service;
      && IsLeastHead(queues, s) && s in queues && queues[s] != [] && out[0].event == queues[s][0]
      && Merges(Popped(queues, s), out[1..]) && out == [SessionEvent(s, queues[s][0])] + out[1..]
  {
  }

  /** Nothing is lost, repeated or reordered within a service. */
  lemma {:induction false} MergeKeepsServices(queues: Queues, out: seq<SessionEvent>, s: Id)
    requires Merges(queues, out)
    ensures Of(out, s) == if s in queues then queues[s] else []
    decreases |out|
  {
    MergesStep(queues, out);
    if out != [] {
      OfStep(out[0], out[1..], s);
      MergeKeepsServices(Popped(queues, out[0].service), out[1..], s);
      hide Merges, Of, IsLeastHead;
    }
  }

  /** The merge is determined. */
  lemma {:induction false} MergesUnique(queues: Queues, a: seq<SessionEvent>, b: seq<SessionEvent>)
    requires Merges(queues, a) && Merges(queues, b)
    ensures a == b
    decreases |a|
  {
    MergesStep(queues, a);
    MergesStep(queues, b);
    if a != [] && b != [] {
      LeastHeadUnique(queues, a[0].service, b[0].service);
      MergesUnique(Popped(queues, a[0].service), a[1..], b[1..]);
    }
  }

  // ---------------------------------------------------------------- a page is the front of the merge

  /** `pages` holds at least the first `n` events of every queue. */
  ghost predicate HoldsFirst(pages: Queues, queues: Queues, n: nat) {
    && pages.Keys == queues.Keys
    && forall s :: s in pages ==> pages[s] <= queues[s] && (|pages[s]| >= n || pages[s] == queues[s])
  }

  lemma SameLeastHead(pages: Queues, queues: Queues, n: nat, s: Id)
    requires HoldsFirst(pages, queues, n) && n > 0
    ensures IsLeastHead(pages, s) <==> IsLeastHead(queues, s)
    ensures AllEmpty(pages) <==> AllEmpty(queues)
    ensures IsLeastHead(pages, s) ==>
      pages[s][0] == queues[s][0] && HoldsFirst(Popped(pages, s), Popped(queues, s), n - 1)
  {
    assert forall t :: t in pages && pages[t] != [] ==> queues[t] != [] && pages[t][0] == queues[t][0];
    assert forall t :: t in pages && pages[t] == [] ==> queues[t] == [];
    if IsLeastHead(pages, s) {
      HoldsFirstPopped(pages, queues, n, s);
    }
  }

  lemma HoldsFirstPopped(pages: Queues, queues: Queues, n: nat, s: Id)
    requires HoldsFirst(pages, queues, n) && n > 0 && s in pages && pages[s] != []
    ensures queues[s] != [] && HoldsFirst(Popped(pages, s), Popped(queues, s), n - 1)
  {
  }

  /** Merging pages that hold `n` events each gives the first `n` events of the full merge. */
  lemma {:induction false} PageIsFrontOfMerge(
      pages: Queues, queues: Queues, n: nat, some: seq<SessionEvent>, all: seq<SessionEvent>)
    requires HoldsFirst(pages, queues, n) && Merges(pages, some) && Merges(queues, all)
    ensures n <= |some| <==> n <= |all|
    ensures some[..Min(n, |some|)] == all[..Min(n, |all|)]
    decreases n
  {
    if n > 0 {
      MergesStep(pages, some);
      MergesStep(queues, all);
      hide Merges, HoldsFirst, IsLeastHead;
      SameLeastHead(pages, queues, n, if some == [] then "" else some[0].service);
      if some != [] {
        var s := some[0].service;
        LeastHeadUnique(queues, s, all[0].service);
        PageIsFrontOfMerge(Popped(pages, s), Popped(queues, s), n - 1, some[1..], all[1..]);
        FrontStep(some, n);
        FrontStep(all, n);
      }
    }
  }

  lemma FrontStep<T>(s: seq<T>, n: nat)
    requires s != [] && n > 0
    ensures s[..Min(n, |s|)] == [s[0]] + s[1..][..Min(n - 1, |s| - 1)]
  {
  }

  // ---------------------------------------------------------------- pages of any length

  /** Every page is a front of its queue. */
  ghost predicate AreFronts(pages: Queues, queues: Queues) {
    pages.Keys == queues.Keys && forall s :: s in pages ==> pages[s] <= queues[s]
  }

  /**
   Before `out[i]` the page of `s` is used up, although its queue goes on, and `out[i]` does not come
   before what the page omits.
   */
  ghost predicate Overtakes(pages: Queues, queues: Queues, out: seq<SessionEvent>, i: nat, s: Id)
    requires AreFronts(pages, queues)
  {
    && i < |out| && s in pages && |pages[s]| < |queues[s]| && |Of(out[..i], s)| == |pages[s]|
    && !HeadLessEq(out[i].event, out[i].service, queues[s][|pages[s]|], s)
  }

  ghost predicate NoneOvertakes(pages: Queues, queues: Queues, out: seq<SessionEvent>)
    requires AreFronts(pages, queues)
  {
    forall i: nat, s :: !Overtakes(pages, queues, out, i, s)
  }

  lemma FrontsPopped(pages: Queues, queues: Queues, s: Id)
    requires AreFronts(pages, queues) && s in pages && pages[s] != []
    ensures s in queues && queues[s] != [] && pages[s][0] == queues[s][0]
    ensures AreFronts(Popped(pages, s), Popped(queues, s))
  {
  }

  /** The least head of the pages is the least of the queues exactly if it overtakes nothing. */
  lemma LeastHeadExactly(pages: Queues, queues: Queues, out: seq<SessionEvent>)
    requires AreFronts(pages, queues) && out != []
    requires IsLeastHead(pages, out[0].service) && out[0].event == pages[out[0].service][0]
    ensures IsLeastHead(queues, out[0].service) <==> forall s :: !Overtakes(pages, queues, out, 0, s)
  {
    var first := out[0];
    assert out[..0] == [];
    if forall s :: !Overtakes(pages, queues, out, 0, s) {
      forall t | t in queues && queues[t] != []
        ensures HeadLessEq(queues[first.service][0], first.service, queues[t][0], t)
      {
        assert !Overtakes(pages, queues, out, 0, t);
        assert pages[t] != [] ==> pages[t][0] == queues[t][0];
      }
    }
  }

  lemma OvertakesLater(pages: Queues, queues: Queues, out: seq<SessionEvent>, i: nat, s: Id)
    requires AreFronts(pages, queues) && out != []
    requires out[0].service in pages && pages[out[0].service] != []
    requires AreFronts(Popped(pages, out[0].service), Popped(queues, out[0].service))
    ensures Overtakes(pages, queues, out, i + 1, s)
       <==> Overtakes(Popped(pages, out[0].service), Popped(queues, out[0].service), out[1..], i, s)
  {
    if i + 1 < |out| {
      OfStep(out[0], out[1..][..i], s);
      hide Of, HeadLessEq;
      assert out[..i + 1] == [out[0]] + out[1..][..i];
    }
  }

  lemma NoneOvertakesStep(pages: Queues, queues: Queues, out: seq<SessionEvent>)
    requires AreFronts(pages, queues) && out != []
    requires out[0].service in pages && pages[out[0].service] != []
    requires AreFronts(Popped(pages, out[0].service), Popped(queues, out[0].service))
    ensures NoneOvertakes(pages, queues, out)
       <==> (forall s :: !Overtakes(pages, queues, out, 0, s))
            && NoneOvertakes(Popped(pages, out[0].service), Popped(queues, out[0].service), out[1..])
  {
    var left, rest := Popped(pages, out[0].service), Popped(queues, out[0].service);
    forall i: nat, s
      ensures Overtakes(pages, queues, out, i + 1, s) <==> Overtakes(left, rest, out[1..], i, s)
    {
      OvertakesLater(pages, queues, out, i, s);
    }
    hide Overtakes;
    if NoneOvertakes(pages, queues, out) {
      forall i: nat, s ensures !Overtakes(left, rest, out[1..], i, s) {
        assert !Overtakes(pages, queues, out, i + 1, s);
      }
    }
    if (forall s :: !Overtakes(pages, queues, out, 0, s)) && NoneOvertakes(left, rest, out[1..]) {
      forall i: nat, s ensures !Overtakes(pages, queues, out, i, s) {
        if i > 0 {
          assert !Overtakes(left, rest, out[1..], i - 1, s);
        }
      }
    }
  }

  /** What is merged from pages of any length is a front of the full merge exactly if nothing overtakes. */
  lemma {:induction false} FrontOfMergeExactly(
      pages: Queues, queues: Queues, n: nat, some: seq<SessionEvent>, all: seq<SessionEvent>)
    requires AreFronts(pages, queues) && Merges(pages, some) && Merges(queues, all) && n <= |some|
    ensures some[..n] <= all <==> NoneOvertakes(pages, queues, some[..n])
    decreases n
  {
    hide *;
    if n == 0 {
      assert some[..0] == [];
      NothingOvertakes(pages, queues);
    } else {
      MergesStep(pages, some);
      MergesStep(queues, all);
      var s, out := some[0].service, some[..n];
      FrontsPopped(pages, queues, s);
      LeastHeadExactly(pages, queues, out);
      NoneOvertakesStep(pages, queues, out);
      assert out[1..] == some[1..][..n - 1];
      NotAllEmpty(queues, s);
      if IsLeastHead(queues, s) {
        LeastHeadUnique(queues, s, all[0].service);
        FrontOfMergeExactly(Popped(pages, s), Popped(queues, s), n - 1, some[1..], all[1..]);
        PrefixStep(out, all);
      } else {
        assert out[0].service != all[0].service;
        assert !(out <= all);
      }
    }
  }

  lemma NothingOvertakes(pages: Queues, queues: Queues)
    requires AreFronts(pages, queues)
    ensures NoneOvertakes(pages, queues, [])
  {
  }

  lemma NotAllEmpty(queues: Queues, s: Id)
    requires s in queues && queues[s] != []
    ensures !AllEmpty(queues)
  {
  }

  lemma PrefixStep<T>(a: seq<T>, b: seq<T>)
    requires a != [] && b != [] && a[0] == b[0]
    ensures a <= b <==> a[1..] <= b[1..]
  {
    if a[1..] <= b[1..] {
      assert a == [a[0]] + a[1..] && b == [b[0]] + b[1..];
    }
  }

  /** What is left of the queues once `out` has been taken. */
  ghost predicate LeftAfter(queues: Queues, out: seq<SessionEvent>, rest: Queues) {
    && rest.Keys == queues.Keys
    && forall s :: s in queues ==> Of(out, s) + rest[s] == queues[s]
  }

  lemma LeftAfterStep(queues: Queues, first: SessionEvent, more: seq<SessionEvent>, rest: Queues)
    requires first.service in queues && queues[first.service] != []
    requires first.event == queues[first.service][0] && LeftAfter(queues, [first] + more, rest)
    ensures LeftAfter(Popped(queues, first.service), more, rest)
  {
    forall t | t in queues ensures Of(more, t) + rest[t] == Popped(queues, first.service)[t] {
      OfStep(first, more, t);
      hide Of;
      var kept := if first.service == t then [first.event] else [];
      ConcatAssociative(kept, Of(more, t), rest[t]);
      assert Of([first] + more, t) + rest[t] == queues[t];
      if t != first.service {
        assert [] + (Of(more, t) + rest[t]) == Of(more, t) + rest[t];
      } else {
        assert (kept + (Of(more, t) + rest[t]))[1..] == Of(more, t) + rest[t];
      }
    }
  }

  lemma LeftAfterNone(queues: Queues, rest: Queues)
    requires LeftAfter(queues, [], rest)
    ensures rest == queues
  {
    assert forall s :: s in queues ==> [] + rest[s] == rest[s];
  }

  /** The full merge of what is left is what is left of the full merge. */
  lemma {:induction false} MergeOfRest(queues: Queues, all: seq<SessionEvent>, n: nat, rest: Queues)
    requires Merges(queues, all) && n <= |all| && LeftAfter(queues, all[..n], rest)
    ensures Merges(rest, all[n..])
    decreases n
  {
    if n == 0 {
      assert all[0..] == all && all[..0] == [];
      LeftAfterNone(queues, rest);
    } else {
      MergesStep(queues, all);
      hide Merges, LeftAfter, IsLeastHead;
      FrontStep(all, n);
      LeftAfterStep(queues, all[0], all[1..][..n - 1], rest);
      MergeOfRest(Popped(queues, all[0].service), all[1..], n - 1, rest);
      assert all[1..][n - 1..] == all[n..];
    }
  }

  // ---------------------------------------------------------------- cursors

  ghost predicate AscendingSeq(events: seq<Event>) {
    forall i, j :: 0 <= i < j < |events| ==> events[i].seqNo < events[j].seqNo
  }

  /** A service's events beyond a cursor. */
  function After(events: seq<Event>, cursor: nat): seq<Event> {
    Filter(events, (e: Event) => e.seqNo > cursor)
  }

  lemma AfterIsSuffix(events: seq<Event>, k: nat, cursor: nat)
    requires AscendingSeq(events) && k <= |events|
    requires k > 0 ==> events[k - 1].seqNo <= cursor
    requires k < |events| ==> cursor < events[k].seqNo
    ensures After(events, cursor) == events[k..]
  {
    FilterIsSuffix(events, (e: Event) => e.seqNo > cursor, k);
  }

  /** A cursor taken from the last of some delivered events leaves exactly the rest. */
  lemma AfterDelivered(events: seq<Event>, cursor: nat, delivered: seq<Event>, rest: seq<Event>)
    requires AscendingSeq(events) && After(events, cursor) == delivered + rest
    ensures After(events, if delivered == [] then cursor else delivered[|delivered| - 1].seqNo) == rest
  {
    if delivered != [] {
      var k := AfterStart(events, cursor);
      var n := |delivered|;
      assert events[k..] == delivered + rest;
      assert events[k + n..] == (delivered + rest)[n..] == rest;
      assert events[k + n - 1] == events[k..][n - 1] == delivered[n - 1];
      AfterIsSuffix(events, k + n, delivered[n - 1].seqNo);
    } else {
      assert [] + rest == rest;
    }
  }

  lemma AfterStart(events: seq<Event>, cursor: nat) returns (k: nat)
    requires AscendingSeq(events)
    ensures k <= |events| && After(events, cursor) == events[k..]
  {
    k := 0;
    while k < |events| && events[k].seqNo <= cursor
      invariant k <= |events| && (k > 0 ==> events[k - 1].seqNo <= cursor)
    {
      k := k + 1;
    }
    AfterIsSuffix(events, k, cursor);
  }

  // ---------------------------------------------------------------- the merge as it is written

  function Groups(pages: seq<Page>): Queues {
    if pages == [] then map[]
    else Groups(pages[..|pages| - 1])[pages[|pages| - 1].service := pages[|pages| - 1].events]
  }

  function Cut(events: seq<SessionEvent>, limit: nat, tailMode: bool): seq<SessionEvent> {
    if |events| <= limit then events
    else if tailMode then events[|events| - limit..]
    else events[..limit]
  }

  /** The largest returned number of a service. */
  function Returned(events: seq<SessionEvent>, s: Id): Option<nat> {
    if events == [] then None
    else
      var before, last := Returned(events[..|events| - 1], s), events[|events| - 1];
      if last.service != s then before
      else if before.None? then Some(last.event.seqNo)
      else Some(Max(before.value, last.event.seqNo))
  }

  function OrElse<T>(a: Option<T>, b: Option<T>): Option<T> {
    if a.Some? then a else b
  }

  function LastSeq(events: seq<Event>): Option<nat> {
    if events == [] then None else Some(events[|events| - 1].seqNo)
  }

  /** The cursor a page is given: from what was returned if events were cut, else from the page. */
  function NextCursor(p: Page, returned: Option<nat>, cutShort: bool, tailMode: bool): Option<nat> {
    if cutShort && !tailMode then OrElse(returned, p.afterSeq)
    else OrElse(OrElse(LastSeq(p.events), p.afterSeq), if tailMode then Some(0) else None)
  }

  function NextCursors(pages: seq<Page>, events: seq<SessionEvent>, cutShort: bool, tailMode: bool): map<Id, nat> {
    if pages == [] then map[]
    else
      var before, p := NextCursors(pages[..|pages| - 1], events, cutShort, tailMode), pages[|pages| - 1];
      var cursor := NextCursor(p, Returned(events, p.service), cutShort, tailMode);
      if cursor.Some? then before[p.service := cursor.value] else before
  }

  datatype Merged = Merged(events: seq<SessionEvent>, next: map<Id, nat>, truncated: bool)

  ghost predicate IsMergeOf(pages: seq<Page>, limit: nat, tailMode: bool, r: Merged) {
    exists all :: Merges(Groups(pages), all) && IsCutOf(pages, all, limit, tailMode, r)
  }

  ghost predicate IsCutOf(pages: seq<Page>, all: seq<SessionEvent>, limit: nat, tailMode: bool, r: Merged) {
    && r.events == Cut(all, limit, tailMode)
    && r.next == NextCursors(pages, r.events, |all| > limit, tailMode)
    && (r.truncated <==> |all| > limit || exists p :: p in pages && p.truncated)
  }

  /** The least among the heads there are. */
  ghost predicate IsLeastAmong(queues: Queues, candidates: set<Id>, s: Id)
    requires forall t :: t in candidates ==> t in queues && queues[t] != []
  {
    s in candidates && forall t :: t in candidates ==> HeadLessEq(queues[s][0], s, queues[t][0], t)
  }

  lemma LeastAmongHeads(queues: Queues, heads: set<Id>)
    requires heads == set s | s in queues && queues[s] != []
    ensures forall s :: IsLeastAmong(queues, heads, s) <==> IsLeastHead(queues, s)
    ensures heads == {} <==> AllEmpty(queues)
  {
    forall t ensures t in heads <==> t in queues && queues[t] != [] {
    }
  }

  lemma {:induction false} LeastHeadExists(queues: Queues, candidates: set<Id>) returns (s: Id)
    requires candidates != {} && forall t :: t in candidates ==> t in queues && queues[t] != []
    ensures IsLeastAmong(queues, candidates, s)
    decreases |candidates|
  {
    var t :| t in candidates;
    StringLessEqTotal(t, t);
    if candidates == {t} {
      s := t;
    } else {
      var u := LeastHeadExists(queues, candidates - {t});
      StringLessEqTotal(t, u);
      if HeadLessEq(queues[t][0], t, queues[u][0], u) {
        s := t;
        forall v | v in candidates ensures HeadLessEq(queues[t][0], t, queues[v][0], v) {
          if v != t {
            HeadLessEqTransitive(queues[t][0], t, queues[u][0], u, queues[v][0], v);
          }
        }
      } else {
        s := u;
      }
    }
  }

  lemma CountPopped(queues: Queues, s: Id)
    requires s in queues && queues[s] != []
    ensures Count(Popped(queues, s)) < Count(queues)
  {
    CountShorter(queues, s, queues[s][1..]);
  }

  /** `out`, followed by any merge of what is left, merges what there was. */
  ghost predicate Prefixes(grouped: Queues, out: seq<SessionEvent>, left: Queues) {
    forall tail: seq<SessionEvent> :: Merges(left, tail) ==> Merges(grouped, out + tail)
  }

  lemma PrefixesStart(grouped: Queues)
    ensures Prefixes(grouped, [], grouped)
  {
    assert forall tail: seq<SessionEvent> :: [] + tail == tail;
  }

  lemma PrefixesGrow(grouped: Queues, out: seq<SessionEvent>, left: Queues, s: Id)
    requires Prefixes(grouped, out, left) && IsLeastHead(left, s)
    ensures Prefixes(grouped, out + [SessionEvent(s, left[s][0])], Popped(left, s))
  {
    var head := [SessionEvent(s, left[s][0])];
    forall tail: seq<SessionEvent> | Merges(Popped(left, s), tail) ensures Merges(grouped, (out + head) + tail) {
      MergesFrom(left, s, tail);
      ConcatAssociative(out, head, tail);
    }
  }

  lemma PrefixesEnd(grouped: Queues, out: seq<SessionEvent>, left: Queues)
    requires Prefixes(grouped, out, left) && AllEmpty(left)
    ensures Merges(grouped, out)
  {
    assert Merges(left, []);
    assert out + [] == out;
  }

  lemma MergesFrom(queues: Queues, s: Id, rest: seq<SessionEvent>)
    requires IsLeastHead(queues, s) && Merges(Popped(queues, s), rest)
    ensures Merges(queues, [SessionEvent(s, queues[s][0])] + rest)
  {
    assert ([SessionEvent(s, queues[s][0])] + rest)[1..] == rest;
  }

  lemma GroupsStep(pages: seq<Page>, i: nat)
    requires i < |pages|
    ensures Groups(pages[..i + 1]) == Groups(pages[..i])[pages[i].service := pages[i].events]
  {
    assert pages[..i + 1][..i] == pages[..i];
  }

  lemma NextCursorsStep(pages: seq<Page>, i: nat, events: seq<SessionEvent>, cutShort: bool, tailMode: bool)
    requires i < |pages|
    ensures var before := NextCursors(pages[..i], events, cutShort, tailMode);
      var cursor := NextCursor(pages[i], Returned(events, pages[i].service), cutShort, tailMode);
      NextCursors(pages[..i + 1], events, cutShort, tailMode)
        == if cursor.Some? then before[pages[i].service := cursor.value] else before
  {
    assert pages[..i + 1][..i] == pages[..i];
  }

  /** `merge_service_events`. */
  method MergeServiceEvents(pages: seq<Page>, limit: nat, tailMode: bool) returns (r: Merged)
    ensures IsMergeOf(pages, limit, tailMode, r)
  {
    var pageTruncated := exists p :: p in pages && p.truncated;
    var groups: Queues := map[];
    assert Groups(pages[..0]) == map[] && pages[..|pages|] == pages;
    hide Groups, Merges;
    for i := 0 to |pages|
      invariant groups == Groups(pages[..i])
    {
      GroupsStep(pages, i);
      groups := groups[pages[i].service := pages[i].events];
    }

    var events := MergeGroups(groups);
    ghost var all := events;

    var mergeTruncated := |events| > limit;
    if mergeTruncated {
      if tailMode {
        events := events[|events| - limit..];
      } else {
        events := events[..limit];
      }
    }

    var next := PageCursors(pages, events, mergeTruncated, tailMode);
    r := Merged(events, next, pageTruncated || mergeTruncated);
    hide *;
    MergedIs(pages, all, limit, tailMode, r);
  }

  lemma MergedIs(pages: seq<Page>, all: seq<SessionEvent>, limit: nat, tailMode: bool, r: Merged)
    requires Merges(Groups(pages), all) && r.events == Cut(all, limit, tailMode)
    requires r.next == NextCursors(pages, r.events, |all| > limit, tailMode)
    requires r.truncated <==> |all| > limit || exists p :: p in pages && p.truncated
    ensures IsMergeOf(pages, limit, tailMode, r)
  {
    hide Merges, Groups, Cut, NextCursors;
    assert IsCutOf(pages, all, limit, tailMode, r);
  }

  /** Its last loop: a cursor for every page that has one. */
  method PageCursors(pages: seq<Page>, events: seq<SessionEvent>, mergeTruncated: bool, tailMode: bool)
    returns (next: map<Id, nat>)
    ensures next == NextCursors(pages, events, mergeTruncated, tailMode)
  {
    var returned := ReturnedCursors(events);
    next := map[];
    assert pages[..|pages|] == pages && NextCursors(pages[..0], events, mergeTruncated, tailMode) == map[];
    hide NextCursors, Returned;
    for i := 0 to |pages|
      invariant next == NextCursors(pages[..i], events, mergeTruncated, tailMode)
    {
      NextCursorsStep(pages, i, events, mergeTruncated, tailMode);
      var p := pages[i];
      var known := if p.service in returned then Some(returned[p.service]) else None;
      var cursor := if mergeTruncated && !tailMode
        then OrElse(known, p.afterSeq)
        else OrElse(OrElse(LastSeq(p.events), p.afterSeq), if tailMode then Some(0) else None);
      if cursor.Some? {
        next := next[p.service := cursor.value];
      }
    }
  }

  /** The loop: pop the least head, and forget a service once its queue is empty. */
  method MergeGroups(grouped: Queues) returns (events: seq<SessionEvent>)
    ensures Merges(grouped, events)
  {
    var groups := grouped;
    events := [];
    ghost var queues := grouped;
    PrefixesStart(grouped);
    hide Prefixes, Merges, Count, Popped;
    while groups != map[]
      invariant SameQueues(groups, queues) && Prefixes(grouped, events, queues)
      decreases Count(queues), |groups|
    {
      var heads := set s | s in groups && groups[s] != [];
      LeastAmongHeads(groups, heads);
      if heads == {} {
        break;
      }
      ghost var least := LeastHeadExists(groups, heads);
      var s :| s in heads && forall t :: t in heads ==> HeadLessEq(groups[s][0], s, groups[t][0], t);
      assert IsLeastAmong(groups, heads, s);
      assert IsLeastHead(queues, s);
      PrefixesGrow(grouped, events, queues, s);
      CountPopped(queues, s);
      SameQueuesPopped(groups, queues, s);
      events := events + [SessionEvent(s, groups[s][0])];
      queues := Popped(queues, s);
      groups := groups[s := groups[s][1..]];
      if groups[s] == [] {
        groups := groups - {s};
      }
    }
    assert AllEmpty(groups) && AllEmpty(queues);
    PrefixesEnd(grouped, events, queues);
  }

  lemma SameQueuesPopped(groups: Queues, queues: Queues, s: Id)
    requires SameQueues(groups, queues) && s in groups && groups[s] != []
    ensures var left := groups[s := groups[s][1..]];
      && SameQueues(left, Popped(queues, s))
      && (left[s] == [] ==> SameQueues(left - {s}, Popped(queues, s)))
  {
  }

  /** `returned_cursors`. */
  method ReturnedCursors(events: seq<SessionEvent>) returns (cursors: map<Id, nat>)
    ensures forall s :: Returned(events, s) == if s in cursors then Some(cursors[s]) else None
  {
    cursors := map[];
    for i := 0 to |events|
      invariant forall s :: Returned(events[..i], s) == if s in cursors then Some(cursors[s]) else None
    {
      assert events[..i + 1][..i] == events[..i];
      var e := events[i];
      if e.service in cursors {
        cursors := cursors[e.service := Max(cursors[e.service], e.event.seqNo)];
      } else {
        cursors := cursors[e.service := e.event.seqNo];
      }
    }
    assert events[..|events|] == events;
  }

  lemma {:induction false} MergeExists(queues: Queues) returns (out: seq<SessionEvent>)
    ensures Merges(queues, out)
    decreases Count(queues)
  {
    var heads := set s | s in queues && queues[s] != [];
    LeastAmongHeads(queues, heads);
    if heads == {} {
      out := [];
    } else {
      var s := LeastHeadExists(queues, heads);
      CountPopped(queues, s);
      var rest := MergeExists(Popped(queues, s));
      out := [SessionEvent(s, queues[s][0])] + rest;
      assert out[1..] == rest;
    }
  }

  // ---------------------------------------------------------------- following

  /** What each service has, oldest first. */
  type Timeline = map<Id, seq<Event>>

  ghost predicate ValidTimeline(store: Timeline) {
    forall s :: s in store ==> AscendingSeq(store[s]) && forall e :: e in store[s] ==> 1 <= e.seqNo
  }

  function CursorOf(cursors: map<Id, nat>, s: Id): nat {
    if s in cursors then cursors[s] else 0
  }

  function Remaining(store: Timeline, cursors: map<Id, nat>): Queues {
    map s | s in store :: After(store[s], CursorOf(cursors, s))
  }

  ghost predicate OnePageEach(pages: seq<Page>, services: set<Id>) {
    && DistinctServices(pages)
    && (forall s :: s in services <==> exists i :: 0 <= i < |pages| && pages[i].service == s)
  }

  ghost predicate DistinctServices(pages: seq<Page>) {
    forall i, j :: 0 <= i < j < |pages| ==> pages[i].service != pages[j].service
  }

  /** One page per service, each a front of what lies beyond its cursor. */
  ghost predicate IsFetch(store: Timeline, cursors: map<Id, nat>, pages: seq<Page>) {
    && OnePageEach(pages, store.Keys)
    && forall i :: 0 <= i < |pages| ==>
         && pages[i].service in store
         && pages[i].afterSeq == Some(CursorOf(cursors, pages[i].service))
         && pages[i].events <= Remaining(store, cursors)[pages[i].service]
  }

  /** The same, with every page as long as the limit lets it be. */
  ghost predicate IsFullFetch(store: Timeline, cursors: map<Id, nat>, limit: nat, pages: seq<Page>) {
    && IsFetch(store, cursors, pages)
    && HoldsFirst(Groups(pages), Remaining(store, cursors), limit)
  }

  /** One call of the tool with the previous call's cursors. */
  ghost predicate Follows(store: Timeline, cursors: map<Id, nat>, limit: nat, r: Merged) {
    exists pages :: IsFullFetch(store, cursors, limit, pages) && IsMergeOf(pages, limit, false, r)
  }

  lemma {:induction false} GroupsAt(pages: seq<Page>, i: nat)
    requires i < |pages|
    requires DistinctServices(pages)
    ensures pages[i].service in Groups(pages) && Groups(pages)[pages[i].service] == pages[i].events
  {
    var n := |pages| - 1;
    if i < n {
      GroupsAt(pages[..n], i);
    }
  }

  lemma {:induction false} GroupsKeys(pages: seq<Page>, s: Id)
    ensures s in Groups(pages) <==> exists i :: 0 <= i < |pages| && pages[i].service == s
  {
    if pages != [] {
      var n := |pages| - 1;
      GroupsKeys(pages[..n], s);
      if i :| 0 <= i < n && pages[..n][i].service == s {
        assert pages[i].service == s;
      }
      if i :| 0 <= i < |pages| && pages[i].service == s && i < n {
        assert pages[..n][i].service == s;
      }
    }
  }

  lemma {:induction false} NextCursorsAt(
      pages: seq<Page>, events: seq<SessionEvent>, cutShort: bool, tailMode: bool, i: nat)
    requires i < |pages|
    requires DistinctServices(pages)
    ensures var s := pages[i].service;
      var cursor := NextCursor(pages[i], Returned(events, s), cutShort, tailMode);
      var next := NextCursors(pages, events, cutShort, tailMode);
      cursor == if s in next then Some(next[s]) else None
    decreases |pages|
  {
    var n := |pages| - 1;
    var s := pages[i].service;
    if i < n {
      NextCursorsAt(pages[..n], events, cutShort, tailMode, i);
      assert pages[..n][i] == pages[i];
    } else {
      NextCursorsAbsent(pages[..n], events, cutShort, tailMode, s);
    }
  }

  lemma {:induction false} NextCursorsAbsent(
      pages: seq<Page>, events: seq<SessionEvent>, cutShort: bool, tailMode: bool, s: Id)
    requires forall i :: 0 <= i < |pages| ==> pages[i].service != s
    ensures s !in NextCursors(pages, events, cutShort, tailMode)
  {
    if pages != [] {
      NextCursorsAbsent(pages[..|pages| - 1], events, cutShort, tailMode, s);
    }
  }

  lemma {:induction false} ReturnedIsLast(events: seq<SessionEvent>, s: Id)
    requires AscendingSeq(Of(events, s))
    ensures Returned(events, s) == LastSeq(Of(events, s))
  {
    if events != [] {
      var n := |events| - 1;
      var before, last := events[..n], events[n];
      assert events == before + [last];
      OfConcat(before, [last], s);
      OfStep(last, [], s);
      assert [last] + [] == [last];
      var tail := if last.service == s then [last.event] else [];
      assert tail + [] == tail;
      assert Of(events, s) == Of(before, s) + tail;
      assert Of(before, s) + [] == Of(before, s);
      AscendingFront(Of(before, s), tail);
      ReturnedIsLast(before, s);
      if tail != [] && Of(before, s) != [] {
        var k := |Of(before, s)|;
        assert Of(events, s)[k - 1].seqNo < Of(events, s)[k].seqNo;
      }
    }
  }

  lemma AscendingFront(a: seq<Event>, b: seq<Event>)
    requires AscendingSeq(a + b)
    ensures AscendingSeq(a)
  {
    forall i, j | 0 <= i < j < |a| ensures a[i].seqNo < a[j].seqNo {
      assert (a + b)[i].seqNo < (a + b)[j].seqNo;
    }
  }

  lemma RemainingAscending(store: Timeline, cursors: map<Id, nat>, s: Id)
    requires ValidTimeline(store) && s in store
    ensures AscendingSeq(Remaining(store, cursors)[s])
  {
    var k := AfterStart(store[s], CursorOf(cursors, s));
    assert store[s] == store[s][..k] + store[s][k..];
  }

  /** The part of a service's page that a call delivers is a front of the page. */
  lemma DeliveredFront(all: seq<SessionEvent>, limit: nat, s: Id) returns (rest: seq<Event>)
    ensures Of(all, s) == Of(Cut(all, limit, false), s) + rest
    ensures |all| <= limit ==> rest == []
  {
    var n := Min(limit, |all|);
    assert all == all[..n] + all[n..];
    OfConcat(all[..n], all[n..], s);
    rest := Of(all[n..], s);
    if |all| <= limit {
      assert all[..n] == all && all[n..] == [];
    }
  }

  /** The cursor that a call gives a service of which it delivered a front of the page. */
  lemma CursorAfterCall(pages: seq<Page>, i: nat, events: seq<SessionEvent>, cutShort: bool, rest: seq<Event>)
    requires i < |pages| && pages[i].afterSeq.Some?
    requires DistinctServices(pages)
    requires var delivered := Of(events, pages[i].service);
      AscendingSeq(delivered) && pages[i].events == delivered + rest
    requires !cutShort ==> rest == []
    ensures var delivered := Of(events, pages[i].service);
      CursorOf(NextCursors(pages, events, cutShort, false), pages[i].service)
        == if delivered == [] then pages[i].afterSeq.value else delivered[|delivered| - 1].seqNo
  {
    var delivered := Of(events, pages[i].service);
    ReturnedIsLast(events, pages[i].service);
    NextCursorsAt(pages, events, cutShort, false, i);
    hide Of, NextCursors, Returned, AscendingSeq;
    assert delivered + [] == delivered;
  }

  /** What a call delivers of a service is a front of the service's page. */
  lemma CallDelivers(pages: seq<Page>, i: nat, limit: nat, r: Merged) returns (cutShort: bool, rest: seq<Event>)
    requires i < |pages| && IsMergeOf(pages, limit, false, r)
    requires DistinctServices(pages)
    ensures pages[i].events == Of(r.events, pages[i].service) + rest && (!cutShort ==> rest == [])
    ensures r.next == NextCursors(pages, r.events, cutShort, false)
  {
    var all :| Merges(Groups(pages), all) && IsCutOf(pages, all, limit, false, r);
    GroupsAt(pages, i);
    MergeKeepsServices(Groups(pages), all, pages[i].service);
    hide Merges, Groups, NextCursors;
    rest := DeliveredFront(all, limit, pages[i].service);
    cutShort := |all| > limit;
  }

  /** What a call delivers of a service is a front of what remained, and sets its cursor. */
  lemma CallAdvances(remaining: seq<Event>, cursor: nat, pages: seq<Page>, i: nat, limit: nat, r: Merged)
    returns (beyond: seq<Event>)
    requires i < |pages| && DistinctServices(pages) && IsMergeOf(pages, limit, false, r)
    requires pages[i].afterSeq == Some(cursor) && pages[i].events <= remaining && AscendingSeq(remaining)
    ensures var delivered := Of(r.events, pages[i].service);
      && remaining == delivered + beyond
      && CursorOf(r.next, pages[i].service)
           == if delivered == [] then cursor else delivered[|delivered| - 1].seqNo
  {
    var cutShort, rest := CallDelivers(pages, i, limit, r);
    hide IsMergeOf, Of, NextCursors, DistinctServices, AscendingSeq, CursorOf;
    var delivered := Of(r.events, pages[i].service);
    beyond := rest + remaining[|pages[i].events|..];
    SplitThree(remaining, pages[i].events, delivered, rest);
    AscendingFront(delivered, beyond);
    CursorAfterCall(pages, i, r.events, cutShort, rest);
  }

  /**
   Whatever fronts the pages hold, a call delivers each event of a service once: what it returns and
   what its cursor still leaves make up what the previous cursor left.
   */
  lemma CallConserves(store: Timeline, cursors: map<Id, nat>, pages: seq<Page>, limit: nat, r: Merged, s: Id)
    requires ValidTimeline(store) && s in store
    requires IsFetch(store, cursors, pages) && IsMergeOf(pages, limit, false, r)
    ensures Of(r.events, s) + Remaining(store, r.next)[s] == Remaining(store, cursors)[s]
  {
    RemainingAscending(store, cursors, s);
    RemainingAt(store, cursors, s);
    RemainingAt(store, r.next, s);
    var i := FetchAt(store, cursors, pages, s);
    hide IsFetch, IsMergeOf, Of, Remaining, After, DistinctServices, AscendingSeq, CursorOf;
    var beyond := CallAdvances(Remaining(store, cursors)[s], CursorOf(cursors, s), pages, i, limit, r);
    AfterDelivered(store[s], CursorOf(cursors, s), Of(r.events, s), beyond);
  }

  lemma FetchAt(store: Timeline, cursors: map<Id, nat>, pages: seq<Page>, s: Id) returns (i: nat)
    requires IsFetch(store, cursors, pages) && s in store
    ensures i < |pages| && pages[i].service == s && DistinctServices(pages)
    ensures pages[i].afterSeq == Some(CursorOf(cursors, s)) && pages[i].events <= Remaining(store, cursors)[s]
  {
    i :| 0 <= i < |pages| && pages[i].service == s;
  }

  lemma RemainingAt(store: Timeline, cursors: map<Id, nat>, s: Id)
    requires s in store
    ensures Remaining(store, cursors)[s] == After(store[s], CursorOf(cursors, s))
  {
  }

  /** One call returns the front of the merge of everything remaining, and leaves the rest of it. */
  lemma {:induction false} CallIsFront(
      store: Timeline, cursors: map<Id, nat>, limit: nat, r: Merged, all: seq<SessionEvent>)
    requires ValidTimeline(store) && Follows(store, cursors, limit, r)
    requires Merges(Remaining(store, cursors), all)
    ensures r.events == all[..Min(limit, |all|)]
    ensures Merges(Remaining(store, r.next), all[Min(limit, |all|)..])
  {
    var pages :| IsFullFetch(store, cursors, limit, pages) && IsMergeOf(pages, limit, false, r);
    var queues, rest, n := Remaining(store, cursors), Remaining(store, r.next), Min(limit, |all|);
    PageOfFullFetch(queues, pages, limit, r, all);
    CallLeavesRest(store, cursors, pages, limit, r);
    hide *;
    MergeOfRest(queues, all, n, rest);
  }

  lemma PageOfFullFetch(queues: Queues, pages: seq<Page>, limit: nat, r: Merged, all: seq<SessionEvent>)
    requires HoldsFirst(Groups(pages), queues, limit) && IsMergeOf(pages, limit, false, r) && Merges(queues, all)
    ensures r.events == all[..Min(limit, |all|)]
  {
    var some :| Merges(Groups(pages), some) && IsCutOf(pages, some, limit, false, r);
    PageIsFrontOfMerge(Groups(pages), queues, limit, some, all);
    hide Merges, Groups, NextCursors, HoldsFirst;
    assert r.events == some[..Min(limit, |some|)];
  }

  lemma FetchedFronts(store: Timeline, cursors: map<Id, nat>, pages: seq<Page>)
    requires IsFetch(store, cursors, pages)
    ensures AreFronts(Groups(pages), Remaining(store, cursors))
  {
    var queues := Remaining(store, cursors);
    hide Remaining;
    forall s ensures s in Groups(pages) <==> s in queues {
      GroupsKeys(pages, s);
      assert queues.Keys == store.Keys by {
        RemainingKeys(store, cursors);
      }
    }
    forall s | s in Groups(pages) ensures Groups(pages)[s] <= queues[s] {
      GroupsKeys(pages, s);
      var i :| 0 <= i < |pages| && pages[i].service == s;
      GroupsAt(pages, i);
    }
  }

  lemma RemainingKeys(store: Timeline, cursors: map<Id, nat>)
    ensures Remaining(store, cursors).Keys == store.Keys
  {
  }

  /**
   Whatever lengths the pages have, a call returns the front of the merge of everything remaining
   exactly if it returns nothing, after a page is used up, that comes after what that page omits.
   */
  lemma CallIsFrontExactly(
      store: Timeline, cursors: map<Id, nat>, pages: seq<Page>, limit: nat, r: Merged, all: seq<SessionEvent>)
    requires IsFetch(store, cursors, pages) && IsMergeOf(pages, limit, false, r)
    requires Merges(Remaining(store, cursors), all)
    ensures AreFronts(Groups(pages), Remaining(store, cursors))
    ensures r.events <= all <==> NoneOvertakes(Groups(pages), Remaining(store, cursors), r.events)
  {
    FetchedFronts(store, cursors, pages);
    var some :| Merges(Groups(pages), some) && IsCutOf(pages, some, limit, false, r);
    var n := Min(limit, |some|);
    assert r.events == some[..n] by {
      assert some[..|some|] == some;
    }
    hide *;
    FrontOfMergeExactly(Groups(pages), Remaining(store, cursors), n, some, all);
  }

  /** No page that stops short is used up before the last returned event. */
  ghost predicate ShortPagesLast(pages: Queues, queues: Queues, out: seq<SessionEvent>)
    requires AreFronts(pages, queues)
  {
    forall s :: s in pages && |pages[s]| < |queues[s]| && out != [] ==> |Of(out[..|out| - 1], s)| < |pages[s]|
  }

  /** A condition that a caller can check: then the call returns the front, and its cursors leave the rest. */
  lemma ShortPagesAreFront(
      store: Timeline, cursors: map<Id, nat>, pages: seq<Page>, limit: nat, r: Merged, all: seq<SessionEvent>)
    requires ValidTimeline(store) && IsFetch(store, cursors, pages) && IsMergeOf(pages, limit, false, r)
    requires Merges(Remaining(store, cursors), all) && AreFronts(Groups(pages), Remaining(store, cursors))
    requires ShortPagesLast(Groups(pages), Remaining(store, cursors), r.events)
    ensures r.events <= all && Merges(Remaining(store, r.next), all[|r.events|..])
  {
    hide *;
    ShortPagesOvertakeNothing(Groups(pages), Remaining(store, cursors), r.events);
    CallIsFrontExactly(store, cursors, pages, limit, r, all);
    CallLeavesRest(store, cursors, pages, limit, r);
    assert r.events == all[..|r.events|];
    MergeOfRest(Remaining(store, cursors), all, |r.events|, Remaining(store, r.next));
  }

  /** Checked on the pages before the call: no truncated one is used up before the last event that fits. */
  ghost predicate UsedUpLate(pages: seq<Page>, limit: nat) {
    forall some, i :: Merges(Groups(pages), some) && 0 <= i < |pages| && pages[i].truncated ==>
      var n := Min(limit, |some|);
      n > 0 ==> |Of(some[..n - 1], pages[i].service)| < |pages[i].events|
  }

  ghost predicate ShortIsTruncated(pages: seq<Page>, queues: Queues) {
    forall i :: 0 <= i < |pages| && pages[i].service in queues && |pages[i].events| < |queues[pages[i].service]| ==>
      pages[i].truncated
  }

  /** A condition on the pages and the limit alone: then the call returns the front, and leaves the rest. */
  lemma LatePagesAreFront(
      store: Timeline, cursors: map<Id, nat>, pages: seq<Page>, limit: nat, r: Merged, all: seq<SessionEvent>)
    requires ValidTimeline(store) && IsFetch(store, cursors, pages) && IsMergeOf(pages, limit, false, r)
    requires Merges(Remaining(store, cursors), all)
    requires ShortIsTruncated(pages, Remaining(store, cursors)) && UsedUpLate(pages, limit)
    ensures r.events <= all && Merges(Remaining(store, r.next), all[|r.events|..])
  {
    FetchedFronts(store, cursors, pages);
    LateIsLast(store, cursors, pages, limit, r);
    hide *;
    ShortPagesAreFront(store, cursors, pages, limit, r, all);
  }

  lemma LateIsLast(store: Timeline, cursors: map<Id, nat>, pages: seq<Page>, limit: nat, r: Merged)
    requires IsFetch(store, cursors, pages) && IsMergeOf(pages, limit, false, r)
    requires AreFronts(Groups(pages), Remaining(store, cursors))
    requires ShortIsTruncated(pages, Remaining(store, cursors)) && UsedUpLate(pages, limit)
    ensures ShortPagesLast(Groups(pages), Remaining(store, cursors), r.events)
  {
    hide *;
    var some := MergedFrom(pages, limit, r);
    FetchIsDistinct(store, cursors, pages);
    LateInOrder(pages, Groups(pages), Remaining(store, cursors), limit, some, r.events);
    LastIs(Groups(pages), Remaining(store, cursors), r.events);
  }

  lemma LateInOrder(
      pages: seq<Page>, groups: Queues, queues: Queues, limit: nat, some: seq<SessionEvent>, out: seq<SessionEvent>)
    requires DistinctServices(pages) && groups == Groups(pages) && groups.Keys <= queues.Keys
    requires ShortIsTruncated(pages, queues) && UsedUpLate(pages, limit) && Merges(groups, some)
    requires out == some[..Min(limit, |some|)]
    ensures forall s :: s in groups && |groups[s]| < |queues[s]| && out != [] ==>
      |Of(out[..|out| - 1], s)| < |groups[s]|
  {
    var n := Min(limit, |some|);
    hide Groups, Of, Merges, UsedUpLate, ShortIsTruncated, DistinctServices;
    forall s | s in groups && |groups[s]| < |queues[s]| && out != []
      ensures |Of(out[..|out| - 1], s)| < |groups[s]|
    {
      var i := PageOf(pages, s);
      UsedUpAt(pages, queues, limit, some, i);
      assert out[..|out| - 1] == some[..n - 1];
    }
  }

  lemma LastIs(pages: Queues, queues: Queues, out: seq<SessionEvent>)
    requires AreFronts(pages, queues)
    requires forall s :: s in pages && |pages[s]| < |queues[s]| && out != [] ==>
      |Of(out[..|out| - 1], s)| < |pages[s]|
    ensures ShortPagesLast(pages, queues, out)
  {
  }

  lemma FetchIsDistinct(store: Timeline, cursors: map<Id, nat>, pages: seq<Page>)
    requires IsFetch(store, cursors, pages) && AreFronts(Groups(pages), Remaining(store, cursors))
    ensures DistinctServices(pages) && Groups(pages).Keys <= Remaining(store, cursors).Keys
  {
    hide Groups, Remaining;
  }

  lemma MergedFrom(pages: seq<Page>, limit: nat, r: Merged) returns (some: seq<SessionEvent>)
    requires IsMergeOf(pages, limit, false, r)
    ensures Merges(Groups(pages), some) && r.events == some[..Min(limit, |some|)]
  {
    some :| Merges(Groups(pages), some) && IsCutOf(pages, some, limit, false, r);
    assert some[..|some|] == some;
  }

  lemma PageOf(pages: seq<Page>, s: Id) returns (i: nat)
    requires DistinctServices(pages) && s in Groups(pages)
    ensures i < |pages| && pages[i].service == s && Groups(pages)[s] == pages[i].events
  {
    GroupsKeys(pages, s);
    i :| 0 <= i < |pages| && pages[i].service == s;
    GroupsAt(pages, i);
  }

  lemma UsedUpAt(pages: seq<Page>, queues: Queues, limit: nat, some: seq<SessionEvent>, i: nat)
    requires ShortIsTruncated(pages, queues) && UsedUpLate(pages, limit) && Merges(Groups(pages), some) && i < |pages|
    requires pages[i].service in queues && |pages[i].events| < |queues[pages[i].service]|
    ensures Min(limit, |some|) > 0 ==> |Of(some[..Min(limit, |some|) - 1], pages[i].service)| < |pages[i].events|
  {
    hide Merges, Groups, Of;
  }

  lemma ShortPagesOvertakeNothing(pages: Queues, queues: Queues, out: seq<SessionEvent>)
    requires AreFronts(pages, queues) && ShortPagesLast(pages, queues, out)
    ensures NoneOvertakes(pages, queues, out)
  {
    hide Of;
    forall i: nat, s ensures !Overtakes(pages, queues, out, i, s) {
      if i < |out| && s in pages && |pages[s]| < |queues[s]| {
        OfGrows(out, i, |out| - 1, s);
      }
    }
  }

  lemma CallLeavesRest(store: Timeline, cursors: map<Id, nat>, pages: seq<Page>, limit: nat, r: Merged)
    requires ValidTimeline(store) && IsFetch(store, cursors, pages) && IsMergeOf(pages, limit, false, r)
    ensures LeftAfter(Remaining(store, cursors), r.events, Remaining(store, r.next))
  {
    RemainingKeys(store, cursors);
    RemainingKeys(store, r.next);
    hide Of, Remaining, IsFetch, IsMergeOf, ValidTimeline;
    forall s | s in Remaining(store, cursors)
      ensures Of(r.events, s) + Remaining(store, r.next)[s] == Remaining(store, cursors)[s]
    {
      CallConserves(store, cursors, pages, limit, r, s);
    }
  }

  lemma OfGrows(out: seq<SessionEvent>, i: nat, j: nat, s: Id)
    requires i <= j <= |out|
    ensures |Of(out[..i], s)| <= |Of(out[..j], s)|
  {
    assert out[..j] == out[..i] + out[i..j];
    OfConcat(out[..i], out[i..j], s);
  }

  /** Calls that each pass on the cursors of the one before. */
  ghost predicate IsFollowing(store: Timeline, cursors: map<Id, nat>, limit: nat, calls: seq<Merged>) {
    && (calls != [] ==> Follows(store, cursors, limit, calls[0]))
    && forall i :: 0 < i < |calls| ==> Follows(store, calls[i - 1].next, limit, calls[i])
  }

  function Delivered(calls: seq<Merged>): seq<SessionEvent> {
    if calls == [] then [] else calls[0].events + Delivered(calls[1..])
  }

  /**
   Paging is transparent: the pages put end to end are the front of one merge of everything that
   remained, none but the last is short, and enough of them are all of it.
   */
  lemma {:induction false} PagingIsTransparent(
      store: Timeline, cursors: map<Id, nat>, limit: nat, calls: seq<Merged>, all: seq<SessionEvent>)
    requires ValidTimeline(store) && 1 <= limit && IsFollowing(store, cursors, limit, calls)
    requires Merges(Remaining(store, cursors), all)
    ensures Delivered(calls) <= all
    ensures |Delivered(calls)| == |all| || |Delivered(calls)| >= |calls|
    ensures |calls| >= |all| ==> Delivered(calls) == all
    ensures calls != [] ==>
      Merges(Remaining(store, calls[|calls| - 1].next), all[|Delivered(calls)|..])
    decreases |calls|
  {
    if calls == [] {
      assert all[0..] == all;
    } else {
      CallIsFront(store, cursors, limit, calls[0], all);
      var n := Min(limit, |all|);
      var later := calls[1..];
      FollowingRest(store, cursors, limit, calls);
      assert Delivered(calls) == calls[0].events + Delivered(later);
      hide Follows, IsFollowing, ValidTimeline, Remaining, Merges, Delivered;
      PagingIsTransparent(store, calls[0].next, limit, later, all[n..]);
      PrefixJoin(all, n, Delivered(later));
    }
  }

  lemma FollowingRest(store: Timeline, cursors: map<Id, nat>, limit: nat, calls: seq<Merged>)
    requires calls != [] && IsFollowing(store, cursors, limit, calls)
    ensures IsFollowing(store, calls[0].next, limit, calls[1..])
  {
  }

  lemma PrefixJoin<T>(all: seq<T>, n: nat, more: seq<T>)
    requires n <= |all| && more <= all[n..]
    ensures all[..n] + more <= all && all[n..][|more|..] == all[|all[..n] + more|..]
    ensures more == all[n..] ==> all[..n] + more == all
  {
  }

  lemma TailOfService(pages: seq<Page>, all: seq<SessionEvent>, limit: nat, events: seq<SessionEvent>, i: nat)
    requires i < |pages| && DistinctServices(pages) && Merges(Groups(pages), all) && events == Cut(all, limit, true)
    ensures var shown := Of(events, pages[i].service);
      shown != [] ==> LastSeq(shown) == LastSeq(pages[i].events)
  {
    var s := pages[i].service;
    var n := SaturatingSub(|all|, limit);
    GroupsAt(pages, i);
    MergeKeepsServices(Groups(pages), all, s);
    hide Merges, Groups, Of;
    assert all == all[..n] + all[n..] && events == all[n..];
    OfConcat(all[..n], all[n..], s);
  }

  /**
   Whatever a tail page shows of a service ends on the snapshot's newest event, and following from it
   delivers exactly what is newer than the snapshot.
   */
  lemma TailThenFollow(
      store: Timeline, later: Timeline, pages: seq<Page>, limit: nat, r: Merged, s: Id)
    requires ValidTimeline(store) && ValidTimeline(later) && s in store && s in later && store[s] <= later[s]
    requires OnePageEach(pages, store.Keys) && IsMergeOf(pages, limit, true, r)
    requires forall i :: 0 <= i < |pages| ==> pages[i].afterSeq == None
    requires forall i :: 0 <= i < |pages| && pages[i].service == s ==>
      LastSeq(pages[i].events) == LastSeq(store[s])
    ensures Remaining(later, r.next)[s] == later[s][|store[s]|..]
    ensures Of(r.events, s) != [] ==> LastSeq(Of(r.events, s)) == LastSeq(store[s])
  {
    var all :| Merges(Groups(pages), all) && IsCutOf(pages, all, limit, true, r);
    var i :| 0 <= i < |pages| && pages[i].service == s;
    TailOfService(pages, all, limit, r.events, i);
    NextCursorsAt(pages, r.events, |all| > limit, true, i);
    hide Merges, Groups, Of, Returned, NextCursors, Cut, DistinctServices, OnePageEach, IsMergeOf;
    var cursor := match LastSeq(store[s]) case Some(n) => n case None => 0;
    assert s in r.next && r.next[s] == cursor;
    hide IsCutOf;
    AfterSnapshot(store[s], later[s], cursor);
    RemainingAt(later, r.next, s);
  }

  lemma AfterSnapshot(snapshot: seq<Event>, later: seq<Event>, cursor: nat)
    requires snapshot <= later && AscendingSeq(later) && forall e :: e in later ==> 1 <= e.seqNo
    requires cursor == match LastSeq(snapshot) case Some(n) => n case None => 0
    ensures After(later, cursor) == later[|snapshot|..]
  {
    var k := |snapshot|;
    if k < |later| {
      assert later[k] in later;
    }
    if k > 0 {
      assert snapshot[k - 1] == later[k - 1];
    }
    AfterIsSuffix(later, k, cursor);
  }

  lemma LeastOfTwo(queues: Queues, s: Id, t: Id)
    requires queues.Keys == {s, t} && queues[s] != []
    requires s == t || queues[t] == [] || queues[s][0].atUnixMs < queues[t][0].atUnixMs
    ensures IsLeastHead(queues, s)
  {
    StringLessEqTotal(s, s);
  }

  /** Two queues of which the first is wholly older. */
  lemma {:induction false} OlderFirst(queues: Queues, s: Id, t: Id, b: Event) returns (out: seq<SessionEvent>)
    requires s != t && queues.Keys == {s, t} && queues[t] == [b]
    requires forall e :: e in queues[s] ==> e.atUnixMs < b.atUnixMs
    ensures Merges(queues, out) && |out| == |queues[s]| + 1
    ensures forall i :: 0 <= i < |queues[s]| ==> out[i] == SessionEvent(s, queues[s][i])
    ensures out[|queues[s]|] == SessionEvent(t, b)
    decreases |queues[s]|
  {
    if queues[s] == [] {
      LeastOfTwo(queues, t, s);
      assert AllEmpty(Popped(queues, t));
      assert Merges(Popped(queues, t), []);
      MergesFrom(queues, t, []);
      out := [SessionEvent(t, b)] + [];
    } else {
      LeastOfTwo(queues, s, t);
      var rest := OlderFirst(Popped(queues, s), s, t, b);
      MergesFrom(queues, s, rest);
      out := [SessionEvent(s, queues[s][0])] + rest;
    }
  }

  /** A call, with a limit of two, whose answer is not the front of the merge of what remained. */
  ghost predicate Reorders(
      store: Timeline, cursors: map<Id, nat>, pages: seq<Page>, r: Merged, all: seq<SessionEvent>)
  {
    && ValidTimeline(store) && IsFetch(store, cursors, pages) && IsMergeOf(pages, 2, false, r)
    && Merges(Remaining(store, cursors), all) && !(r.events <= all)
  }

  const A1 := Event(1, 1, 0)
  const A2 := Event(2, 2, 0)
  const B1 := Event(1, 3, 0)
  const TWO_SERVICES: Timeline := map["a" := [A1, A2], "b" := [B1]]
  const SHORT_PAGES := [Page("a", Some(0), [A1], true), Page("b", Some(0), [B1], false)]

  lemma ShortFetch()
    ensures ValidTimeline(TWO_SERVICES) && Remaining(TWO_SERVICES, map[]) == TWO_SERVICES
    ensures IsFetch(TWO_SERVICES, map[], SHORT_PAGES)
    ensures Groups(SHORT_PAGES) == map["a" := [A1], "b" := [B1]]
  {
    assert "a" != "b" by { assert "a"[0] != "b"[0]; }
    AfterIsSuffix([A1, A2], 0, 0);
    AfterIsSuffix([B1], 0, 0);
    assert Remaining(TWO_SERVICES, map[]) == TWO_SERVICES;
    assert SHORT_PAGES[0].service == "a" && SHORT_PAGES[1].service == "b";
    GroupsAt(SHORT_PAGES, 0);
    GroupsAt(SHORT_PAGES, 1);
    forall k ensures k in Groups(SHORT_PAGES) <==> k in {"a", "b"} {
      GroupsKeys(SHORT_PAGES, k);
    }
  }

  lemma ShortMerge(some: seq<SessionEvent>)
    requires Merges(Groups(SHORT_PAGES), some) && |some| == 2
    ensures IsMergeOf(SHORT_PAGES, 2, false, Merged(some, NextCursors(SHORT_PAGES, some, false, false), true))
  {
    hide Merges, Groups, NextCursors;
    var r := Merged(some, NextCursors(SHORT_PAGES, some, false, false), true);
    assert SHORT_PAGES[0] in SHORT_PAGES;
    assert IsCutOf(SHORT_PAGES, some, 2, false, r);
  }

  /**
   The limit is not the only bound on a page: an answer that is cut to fit a response may be shorter.
   Then nothing is lost (`CallConserves`) but pages need not be a front of the merge.
   */
  lemma ShortPageReorders()
    ensures exists store, cursors, pages, r, all :: Reorders(store, cursors, pages, r, all)
  {
    ShortFetch();
    assert "a" != "b" by { assert "a"[0] != "b"[0]; }
    var all := OlderFirst(TWO_SERVICES, "a", "b", B1);
    var some := OlderFirst(Groups(SHORT_PAGES), "a", "b", B1);
    hide IsFetch, Remaining, Groups, Merges, ValidTimeline, NextCursors;
    var r := Merged(some, NextCursors(SHORT_PAGES, some, false, false), true);
    ShortMerge(some);
    hide IsMergeOf;
    assert r.events[1] != all[1];
    assert Reorders(TWO_SERVICES, map[], SHORT_PAGES, r, all);
  }
}
