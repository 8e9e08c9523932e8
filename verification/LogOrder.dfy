/**
 In what order merged log entries come out (crates/micromux-mcp/src/logproc.rs): told from the output
 alone, without the queues that its records were popped from.
 */
module LogOrder {
  import opened LogMerge
  import opened MergeQueues
  import opened Prelude

  /** `out[j]` is the next entry of its service after `out[i]`. */
  ghost predicate IsNextAfter(out: seq<Entry>, i: nat, j: nat) {
    i < j < |out| && forall k :: i < k < j ==> out[k].service != out[j].service
  }

  ghost predicate OfOneRecord(a: Entry, b: Entry) {
    a.service == b.service && a.runGeneration == b.runGeneration && a.seqNo == b.seqNo
  }

  ghost predicate StartsRecord(out: seq<Entry>, i: nat)
    requires i < |out|
  {
    i == 0 || !OfOneRecord(out[i - 1], out[i])
  }

  /** The time of the source counts where there is one, and that of the capture where there is not. */
  ghost predicate ComesBefore(a: Entry, b: Entry) {
    var (t, u) := (if a.sourceTimestamp.Some? then a.sourceTimestamp.value else a.timestamp,
                   if b.sourceTimestamp.Some? then b.sourceTimestamp.value else b.timestamp);
    t < u || (t == u && (a.service.None? || (b.service.Some? && StringLessEq(a.service.value, b.service.value))))
  }

  /** Entries of a record that follow one another in their service follow one another in the output. */
  ghost predicate RecordsWhole(out: seq<Entry>) {
    forall i: nat, j: nat :: IsNextAfter(out, i, j) && OfOneRecord(out[i], out[j]) ==> j == i + 1
  }

  /** Every record comes before what the other services then have next. */
  ghost predicate EachIsNext(out: seq<Entry>) {
    forall i: nat, j: nat ::
      IsNextAfter(out, i, j) && out[i].service != out[j].service && StartsRecord(out, i) ==> ComesBefore(out[i], out[j])
  }

  ghost predicate KeepsServices(queues: Queues, out: seq<Entry>) {
    forall s :: Of(out, s) == if s in queues then queues[s] else []
  }

  // ---------------------------------------------------------------- the first of a service

  lemma OfStep(e: Entry, rest: seq<Entry>, s: Service)
    ensures Of([e] + rest, s) == (if e.service == s then [e] else []) + Of(rest, s)
  {
    FilterStep(e, rest, (x: Entry) => x.service == s);
  }

  lemma OfFirst(out: seq<Entry>, s: Service)
    ensures Of([], s) == []
    ensures out != [] ==> Of(out, s) == (if out[0].service == s then [out[0]] else []) + Of(out[1..], s)
  {
    if out != [] {
      assert out == [out[0]] + out[1..];
      OfStep(out[0], out[1..], s);
    }
  }

  lemma {:induction false} FirstOf(out: seq<Entry>, s: Service) returns (j: nat)
    requires Of(out, s) != []
    ensures j < |out| && out[j].service == s && out[j] == Of(out, s)[0]
    ensures forall k :: 0 <= k < j ==> out[k].service != s
  {
    OfFirst(out, s);
    hide Of;
    if out[0].service == s {
      j := 0;
    } else {
      var rest := FirstOf(out[1..], s);
      j := rest + 1;
      assert forall k :: 0 < k < j ==> out[k] == out[1..][k - 1];
    }
  }

  lemma {:induction false} FirstIsOf(out: seq<Entry>, j: nat)
    requires j < |out| && forall k :: 0 <= k < j ==> out[k].service != out[j].service
    ensures Of(out, out[j].service) != [] && Of(out, out[j].service)[0] == out[j]
  {
    OfFirst(out, out[j].service);
    hide Of;
    if j > 0 {
      FirstIsOf(out[1..], j - 1);
    }
  }

  // ---------------------------------------------------------------- a merge is in order

  /** What a step of the merge takes: all of the first record, and no more of it is left. */
  lemma HeadIs(queues: Queues, out: seq<Entry>) returns (s: Service, n: nat)
    requires Merges(queues, out) && ValidQueues(queues) && out != []
    ensures IsLeastHead(queues, s) && s in queues && queues[s] != [] && 0 < n <= |out| && n == HeadLength(queues[s])
    ensures out[..n] == queues[s][..n] && Merges(Popped(queues, s), out[n..]) && ValidQueues(Popped(queues, s))
    ensures Popped(queues, s)[s] == queues[s][n..]
    ensures forall k :: 0 <= k < n ==> OfOneRecord(out[0], out[k]) && out[k].service == s
    ensures n < |queues[s]| ==> !OfOneRecord(out[0], queues[s][n])
  {
    var head, rest;
    s, head, rest := MergesStep(queues, out);
    n := HeadLength(queues[s]);
    hide Merges, ValidQueues, IsLeastHead;
    assert forall k :: 0 <= k < n ==> out[k] == head[k] == queues[s][k];
    assert head[0] in head;
    forall k | 0 <= k < n ensures OfOneRecord(out[0], out[k]) && out[k].service == s {
      assert head[k] in head;
      assert SameRecord(queues[s][0], queues[s][k]);
    }
    assert out[n..] == rest;
  }

  lemma {:induction false} MergedWhole(queues: Queues, out: seq<Entry>, i: nat, j: nat)
    requires Merges(queues, out) && ValidQueues(queues) && IsNextAfter(out, i, j) && OfOneRecord(out[i], out[j])
    ensures j == i + 1
    decreases |out|
  {
    var s, n := HeadIs(queues, out);
    var rest := out[n..];
    hide *;
    if i >= n {
      NextInRest(out, n, i, j);
      MergedWhole(Popped(queues, s), rest, i - n, j - n);
    } else if j < n {
      SameService(out, n, i, j);
    } else {
      OnlyBehind(queues, out, s, n, i, j);
    }
  }

  lemma NextInRest(out: seq<Entry>, n: nat, i: nat, j: nat)
    requires n <= i && IsNextAfter(out, i, j)
    ensures j < |out| && IsNextAfter(out[n..], i - n, j - n) && out[n..][i - n] == out[i] && out[n..][j - n] == out[j]
  {
  }

  lemma SameService(out: seq<Entry>, n: nat, i: nat, j: nat)
    requires i < j < n <= |out| && IsNextAfter(out, i, j)
    requires forall k :: 0 <= k < n ==> out[k].service == out[0].service
    ensures j == i + 1
  {
    assert out[i + 1].service == out[j].service;
  }

  /** What comes next of the service is of another record. */
  lemma OnlyBehind(queues: Queues, out: seq<Entry>, s: Service, n: nat, i: nat, j: nat)
    requires i < n <= j < |out| && IsNextAfter(out, i, j) && out[i].service == s && OfOneRecord(out[0], out[i])
    requires s in queues && queues[s] != [] && ValidQueues(Popped(queues, s)) && Merges(Popped(queues, s), out[n..])
    requires n <= |queues[s]| && Popped(queues, s)[s] == queues[s][n..]
    requires n < |queues[s]| ==> !OfOneRecord(out[0], queues[s][n])
    ensures !OfOneRecord(out[i], out[j])
  {
    var rest := out[n..];
    if out[j].service != s {
      return;
    }
    hide Popped;
    FirstIsOf(rest, j - n);
    MergeKeepsServices(Popped(queues, s), rest, s);
    hide Merges, ValidQueues, Of;
    assert out[j] == queues[s][n..][0];
  }

  lemma {:induction false} MergedOrder(queues: Queues, out: seq<Entry>, i: nat, j: nat)
    requires Merges(queues, out) && ValidQueues(queues)
    requires IsNextAfter(out, i, j) && out[i].service != out[j].service && StartsRecord(out, i)
    ensures ComesBefore(out[i], out[j])
    decreases |out|
  {
    var s, n := HeadIs(queues, out);
    var rest, t := out[n..], out[j].service;
    hide Merges, ValidQueues, HeadLength;
    if i >= n {
      assert IsNextAfter(rest, i - n, j - n) && StartsRecord(rest, i - n);
      MergedOrder(Popped(queues, s), rest, i - n, j - n);
    } else {
      assert i == 0 && t != s && j >= n;
      FirstIsOf(rest, j - n);
      MergeKeepsServices(Popped(queues, s), rest, t);
      assert queues[t][0] == out[j] && out[0] == out[..n][0] == queues[s][0];
    }
  }

  // ---------------------------------------------------------------- what is in order is a merge

  /** The record that the output begins with is the first one of its queue. */
  lemma {:induction false} FrontIsRecord(out: seq<Entry>, n: nat)
    requires out != [] && RecordsWhole(out) && 0 < n <= |Of(out, out[0].service)|
    requires forall k :: 0 <= k < n ==> OfOneRecord(out[0], Of(out, out[0].service)[k])
    ensures n <= |out| && out[..n] == Of(out, out[0].service)[..n]
    decreases n
  {
    var s, rest := out[0].service, out[1..];
    OfFirst(out, s);
    hide Of;
    assert Of(rest, s) == Of(out, s)[1..];
    if n > 1 {
      var j := FirstOf(rest, s);
      assert rest[j] == Of(out, s)[1] && rest[j] == out[j + 1];
      assert IsNextAfter(out, 0, j + 1) && j == 0;
      LaterWhole(out, 1);
      hide RecordsWhole, IsNextAfter;
      assert forall k :: 0 <= k < n - 1 ==> Of(rest, s)[k] == Of(out, s)[k + 1];
      FrontIsRecord(rest, n - 1);
    }
    assert out[..n] == [out[0]] + rest[..n - 1] && Of(out, s)[..n] == [out[0]] + Of(rest, s)[..n - 1];
  }

  lemma LaterWhole(out: seq<Entry>, n: nat)
    requires RecordsWhole(out) && n <= |out|
    ensures RecordsWhole(out[n..])
  {
    var rest := out[n..];
    forall i: nat, j: nat | IsNextAfter(rest, i, j) && OfOneRecord(rest[i], rest[j]) ensures j == i + 1 {
      assert forall k :: n <= k < |out| ==> out[k] == rest[k - n];
      assert IsNextAfter(out, i + n, j + n);
    }
  }

  lemma LaterIsNext(out: seq<Entry>, n: nat)
    requires EachIsNext(out) && n <= |out| && (0 < n < |out| ==> !OfOneRecord(out[n - 1], out[n]))
    ensures EachIsNext(out[n..])
  {
    var rest := out[n..];
    hide ComesBefore, OfOneRecord;
    forall i: nat, j: nat |
      IsNextAfter(rest, i, j) && rest[i].service != rest[j].service && StartsRecord(rest, i)
      ensures ComesBefore(rest[i], rest[j])
    {
      assert forall k :: n <= k < |out| ==> out[k] == rest[k - n];
      assert IsNextAfter(out, i + n, j + n) && StartsRecord(out, i + n);
    }
  }

  lemma FirstIsLeast(queues: Queues, out: seq<Entry>)
    requires out != [] && KeepsServices(queues, out) && EachIsNext(out)
    ensures IsLeastHead(queues, out[0].service) && queues[out[0].service][0] == out[0]
  {
    var s := out[0].service;
    OfFirst(out, s);
    hide Of;
    assert s in queues && queues[s] != [] && queues[s][0] == out[0];
    forall t | t in queues && queues[t] != [] ensures HeadLessEq(queues[s][0], s, queues[t][0], t) {
      HeadLessEqTotal(queues[s][0], s, queues[s][0], s);
      if t != s {
        assert Of(out, t) == queues[t];
        var j := FirstOf(out, t);
        assert IsNextAfter(out, 0, j) && StartsRecord(out, 0);
      }
    }
  }

  lemma TakenKeepsServices(queues: Queues, out: seq<Entry>, n: nat)
    requires out != [] && KeepsServices(queues, out) && out[0].service in queues && queues[out[0].service] != []
    requires n == HeadLength(queues[out[0].service]) <= |out| && out[..n] == queues[out[0].service][..n]
    requires forall k :: 0 <= k < n ==> out[k].service == out[0].service
    ensures KeepsServices(Popped(queues, out[0].service), out[n..])
  {
    var s := out[0].service;
    forall t ensures Of(out[n..], t) == if t in queues then Popped(queues, s)[t] else [] {
      assert Of(out, t) == if t in queues then queues[t] else [];
      hide Of, HeadLength, KeepsServices;
      OfBehind(out, s, n, t);
    }
  }

  lemma OfBehind(out: seq<Entry>, s: Service, n: nat, t: Service)
    requires n <= |out| && forall k :: 0 <= k < n ==> out[k].service == s
    ensures t != s ==> Of(out[n..], t) == Of(out, t)
    ensures n <= |Of(out, s)| && Of(out[n..], s) == Of(out, s)[n..]
  {
    var head, rest := out[..n], out[n..];
    assert out == head + rest;
    OfConcat(head, rest, t);
    OfConcat(head, rest, s);
    OfOne(head, s, t);
    OfOne(head, s, s);
    hide Of;
    assert [] + Of(rest, t) == Of(rest, t) && (head + Of(rest, s))[n..] == Of(rest, s);
  }

  lemma {:induction false} OrderedMerges(queues: Queues, out: seq<Entry>)
    requires ValidQueues(queues) && KeepsServices(queues, out) && RecordsWhole(out) && EachIsNext(out)
    ensures Merges(queues, out)
    decreases |out|
  {
    if out == [] {
      forall s | s in queues ensures queues[s] == [] {
        OfFirst(out, s);
        assert Of(out, s) == queues[s];
      }
    } else {
      var s := out[0].service;
      FirstIsLeast(queues, out);
      var n := FirstRecordTaken(queues, out);
      TakenKeepsServices(queues, out, n);
      LaterWhole(out, n);
      LaterIsNext(out, n);
      PoppedValid(queues, s);
      hide EachIsNext, KeepsServices, RecordsWhole, IsLeastHead, ValidQueues;
      OrderedMerges(Popped(queues, s), out[n..]);
      assert queues[s][..n] <= out;
    }
  }

  lemma PoppedValid(queues: Queues, s: Service)
    requires ValidQueues(queues) && s in queues && queues[s] != []
    ensures ValidQueues(Popped(queues, s))
  {
  }

  lemma FirstRecordTaken(queues: Queues, out: seq<Entry>) returns (n: nat)
    requires out != [] && ValidQueues(queues) && KeepsServices(queues, out) && RecordsWhole(out)
    requires out[0].service in queues && queues[out[0].service] != [] && queues[out[0].service][0] == out[0]
    ensures var q := queues[out[0].service];
      && n == HeadLength(q) <= |out| && out[..n] == q[..n]
      && (forall k :: 0 <= k < n ==> out[k].service == out[0].service)
      && (n < |out| ==> !OfOneRecord(out[n - 1], out[n]))
  {
    var s := out[0].service;
    var q := queues[s];
    n := HeadLength(q);
    assert Of(out, s) == q;
    hide KeepsServices, Of, HeadLength;
    forall k | 0 <= k < |q| ensures q[k].service == s && (k < n ==> OfOneRecord(out[0], q[k])) {
      assert q[k] in q;
      assert k < n ==> SameRecord(q[0], q[k]);
    }
    hide ValidQueues;
    FrontIsRecord(out, n);
    assert forall k :: 0 <= k < n ==> out[k] == out[..n][k] == q[k];
    if n < |out| && out[n].service == s {
      NextIs(out, q, n);
    }
  }

  lemma NextIs(out: seq<Entry>, q: seq<Entry>, n: nat)
    requires 0 < n < |out| && q == Of(out, out[n].service) && n <= |q| && out[..n] == q[..n]
    requires forall k :: 0 <= k < n ==> out[k].service == out[n].service
    ensures n < |q| && out[n] == q[n]
  {
    var s := out[n].service;
    assert out == out[..n] + out[n..];
    OfConcat(out[..n], out[n..], s);
    OfOne(out[..n], s, s);
    FirstIsOf(out[n..], 0);
    hide Of;
  }

  /**
   The merge, said without popping: every service's entries in their order, records whole, and each record
   no later than what the other services then have next, by name where the times are equal.
   */
  lemma MergesExactly(queues: Queues, out: seq<Entry>)
    requires ValidQueues(queues)
    ensures Merges(queues, out) <==> KeepsServices(queues, out) && RecordsWhole(out) && EachIsNext(out)
  {
    if Merges(queues, out) {
      forall s ensures Of(out, s) == if s in queues then queues[s] else [] {
        MergeKeepsServices(queues, out, s);
      }
      hide Merges, ValidQueues, IsNextAfter, ComesBefore, OfOneRecord, StartsRecord, Of;
      forall i: nat, j: nat | IsNextAfter(out, i, j) && OfOneRecord(out[i], out[j]) ensures j == i + 1 {
        MergedWhole(queues, out, i, j);
      }
      forall i: nat, j: nat | IsNextAfter(out, i, j) && out[i].service != out[j].service && StartsRecord(out, i)
        ensures ComesBefore(out[i], out[j])
      {
        MergedOrder(queues, out, i, j);
      }
    }
    if KeepsServices(queues, out) && RecordsWhole(out) && EachIsNext(out) {
      OrderedMerges(queues, out);
    }
  }

  /** For the entries as they come in. */
  lemma MergesInOrderExactly(entries: seq<Entry>, out: seq<Entry>)
    ensures MergesInOrder(entries, out)
       <==> (forall s :: Of(out, s) == Of(entries, s)) && RecordsWhole(out) && EachIsNext(out)
  {
    var queues := GroupsOf(entries);
    GroupsValid(entries);
    MergesExactly(queues, out);
    hide Of, GroupsOf, Merges, ValidQueues, RecordsWhole, EachIsNext;
  }
}
