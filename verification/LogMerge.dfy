/**
 Merging shaped log entries of several services, and cutting the result to a size without splitting
 a record (crates/micromux-mcp/src/logproc.rs).

 One captured record may have been shaped into several entries. Cursors count records, so entries of
 one record must stay together and a cut must fall between records.
 */
module LogMerge {
  import opened MergeQueues
  import opened Prelude

  type Service = Option<string>

  datatype Entry = Entry(
    service: Service, seqNo: nat, runGeneration: nat, timestamp: nat, sourceTimestamp: Option<nat>, line: string)

  type Queues = map<Service, seq<Entry>>

  function SortTime(e: Entry): nat {
    if e.sourceTimestamp.Some? then e.sourceTimestamp.value else e.timestamp
  }

  /** Within one service: the same captured record. */
  predicate SameRecord(a: Entry, b: Entry) {
    a.runGeneration == b.runGeneration && a.seqNo == b.seqNo
  }

  /** `RecordBoundary::matches`. */
  predicate SameBoundary(a: Entry, b: Entry) {
    a.service == b.service && SameRecord(a, b)
  }

  function Of(entries: seq<Entry>, s: Service): seq<Entry> {
    Filter(entries, (e: Entry) => e.service == s)
  }

  lemma OfConcat(a: seq<Entry>, b: seq<Entry>, s: Service)
    ensures Of(a + b, s) == Of(a, s) + Of(b, s)
  {
    FilterConcat(a, b, (e: Entry) => e.service == s);
  }

  // ---------------------------------------------------------------- the order of heads

  /** `Option`'s order: nothing comes before something. */
  predicate ServiceLessEq(s: Service, t: Service) {
    s.None? || (t.Some? && StringLessEq(s.value, t.value))
  }

  predicate HeadLessEq(a: Entry, s: Service, b: Entry, t: Service) {
    SortTime(a) < SortTime(b) || (SortTime(a) == SortTime(b) && ServiceLessEq(s, t))
  }

  ghost predicate IsLeastHead(queues: Queues, s: Service) {
    && s in queues && queues[s] != []
    && forall t :: t in queues && queues[t] != [] ==> HeadLessEq(queues[s][0], s, queues[t][0], t)
  }

  lemma HeadLessEqTotal(a: Entry, s: Service, b: Entry, t: Service)
    ensures HeadLessEq(a, s, b, t) || HeadLessEq(b, t, a, s)
  {
    if s.Some? && t.Some? {
      StringLessEqTotal(s.value, t.value);
    }
  }

  lemma HeadLessEqTransitive(a: Entry, s: Service, b: Entry, t: Service, c: Entry, u: Service)
    requires HeadLessEq(a, s, b, t) && HeadLessEq(b, t, c, u)
    ensures HeadLessEq(a, s, c, u)
  {
    if s.Some? && t.Some? && u.Some? && SortTime(a) == SortTime(b) == SortTime(c) {
      StringLessEqTransitive(s.value, t.value, u.value);
    }
  }

  ghost predicate IsLeastAmong(queues: Queues, candidates: set<Service>, s: Service)
    requires forall t :: t in candidates ==> t in queues && queues[t] != []
  {
    s in candidates && forall t :: t in candidates ==> HeadLessEq(queues[s][0], s, queues[t][0], t)
  }

  lemma {:induction false} LeastHeadExists(queues: Queues, candidates: set<Service>) returns (s: Service)
    requires candidates != {} && forall t :: t in candidates ==> t in queues && queues[t] != []
    ensures IsLeastAmong(queues, candidates, s)
    decreases |candidates|
  {
    var t :| t in candidates;
    HeadLessEqTotal(queues[t][0], t, queues[t][0], t);
    if candidates == {t} {
      s := t;
    } else {
      var u := LeastHeadExists(queues, candidates - {t});
      HeadLessEqTotal(queues[t][0], t, queues[u][0], u);
      s := if HeadLessEq(queues[t][0], t, queues[u][0], u) then t else u;
      forall v | v in candidates ensures HeadLessEq(queues[s][0], s, queues[v][0], v) {
        if v != t && s == t {
          HeadLessEqTransitive(queues[t][0], t, queues[u][0], u, queues[v][0], v);
        }
      }
    }
  }

  // ---------------------------------------------------------------- the greedy merge

  /** The first index from `k` on whose entry belongs to another record than `first`. */
  function RecordEnd(q: seq<Entry>, first: Entry, k: nat): (n: nat)
    requires k <= |q|
    ensures k <= n <= |q|
    ensures forall i :: k <= i < n ==> SameRecord(first, q[i])
    ensures n < |q| ==> !SameRecord(first, q[n])
    decreases |q| - k
  {
    if k < |q| && SameRecord(first, q[k]) then RecordEnd(q, first, k + 1) else k
  }

  /** How many entries at the front of a queue are its first record. */
  function HeadLength(q: seq<Entry>): (n: nat)
    requires q != []
    ensures 1 <= n <= |q|
    ensures forall i :: 0 <= i < n ==> SameRecord(q[0], q[i])
    ensures n < |q| ==> !SameRecord(q[0], q[n])
  {
    RecordEnd(q, q[0], 1)
  }

  function Popped(queues: Queues, s: Service): Queues
    requires s in queues && queues[s] != []
  {
    queues[s := queues[s][HeadLength(queues[s])..]]
  }

  ghost predicate ValidQueues(queues: Queues) {
    forall s, e :: s in queues && e in queues[s] ==> e.service == s
  }

  /** `out` takes the whole record at the least head again and again until nothing is left. */
  ghost predicate Merges(queues: Queues, out: seq<Entry>)
    decreases |out|
  {
    if out == [] then AllEmpty(queues)
    else
      var s := out[0].service;
      && IsLeastHead(queues, s) && queues[s][..HeadLength(queues[s])] <= out
      && Merges(Popped(queues, s), out[HeadLength(queues[s])..])
  }

  /** One round: the record taken, and the merge of what it leaves. */
  lemma {:induction false} MergesStep(
      queues: Queues, out: seq<Entry>)
    returns (s: Service, head: seq<Entry>, rest: seq<Entry>)
    requires Merges(queues, out) && ValidQueues(queues) && out != []
    ensures IsLeastHead(queues, s) && head == queues[s][..HeadLength(queues[s])] && head != []
    ensures out == head + rest && Merges(Popped(queues, s), rest) && ValidQueues(Popped(queues, s))
    ensures |rest| < |out| && queues[s] == head + Popped(queues, s)[s]
    ensures Popped(queues, s).Keys == queues.Keys
    ensures forall t :: t in queues && t != s ==> Popped(queues, s)[t] == queues[t]
    ensures forall e :: e in head ==> e.service == s
  {
    s := out[0].service;
    var n := HeadLength(queues[s]);
    head, rest := queues[s][..n], out[n..];
    assert queues[s] == head + queues[s][n..];
  }

  lemma OfOne(head: seq<Entry>, s: Service, t: Service)
    requires forall e :: e in head ==> e.service == s
    ensures Of(head, t) == if t == s then head else []
  {
    if t == s {
      FilterAll(head, (e: Entry) => e.service == t);
    } else {
      FilterNone(head, (e: Entry) => e.service == t);
    }
  }

  /** Each service comes out as it went in. */
  lemma {:induction false} MergeKeepsServices(queues: Queues, out: seq<Entry>, t: Service)
    requires Merges(queues, out) && ValidQueues(queues)
    ensures Of(out, t) == if t in queues then queues[t] else []
    decreases |out|
  {
    if out != [] {
      var s, head, rest := MergesStep(queues, out);
      MergeKeepsServices(Popped(queues, s), rest, t);
      OfConcat(head, rest, t);
      OfOne(head, s, t);
      hide Merges, Of, IsLeastHead, ValidQueues, Popped;
      assert [] + Of(rest, t) == Of(rest, t);
    }
  }

  lemma LeastHeadUnique(queues: Queues, s: Service, t: Service)
    requires IsLeastHead(queues, s) && IsLeastHead(queues, t)
    ensures s == t
  {
    assert HeadLessEq(queues[s][0], s, queues[t][0], t) && HeadLessEq(queues[t][0], t, queues[s][0], s);
    if s.Some? && t.Some? {
      StringLessEqAntisymmetric(s.value, t.value);
    }
  }

  /** The merge is determined. */
  lemma {:induction false} MergesUnique(queues: Queues, a: seq<Entry>, b: seq<Entry>)
    requires Merges(queues, a) && Merges(queues, b) && ValidQueues(queues)
    ensures a == b
    decreases |a|
  {
    if a == [] || b == [] {
      assert AllEmpty(queues) && a == b;
    } else {
      var s, head, restA := MergesStep(queues, a);
      var t, headB, restB := MergesStep(queues, b);
      hide *;
      LeastHeadUnique(queues, s, t);
      MergesUnique(Popped(queues, s), restA, restB);
    }
  }

  // ---------------------------------------------------------------- a permutation

  lemma {:induction false} CountInService(entries: seq<Entry>, e: Entry)
    ensures multiset(entries)[e] == multiset(Of(entries, e.service))[e]
  {
    if entries != [] {
      var p := (x: Entry) => x.service == e.service;
      assert entries == [entries[0]] + entries[1..];
      FilterStep(entries[0], entries[1..], p);
      CountInService(entries[1..], e);
    }
  }

  /** Sequences that agree service by service are permutations of each other. */
  lemma SameServicesPermute(a: seq<Entry>, b: seq<Entry>)
    requires forall s :: Of(a, s) == Of(b, s)
    ensures multiset(a) == multiset(b)
  {
    forall e ensures multiset(a)[e] == multiset(b)[e] {
      CountInService(a, e);
      CountInService(b, e);
    }
  }

  // ---------------------------------------------------------------- records stay together

  /** Entries of one record have only entries of that record between them. */
  ghost predicate Contiguous(entries: seq<Entry>) {
    forall i, j, k :: 0 <= i < j < k < |entries| && SameBoundary(entries[i], entries[k]) ==>
      SameBoundary(entries[i], entries[j])
  }

  lemma ContiguousSuffix(q: seq<Entry>, n: nat)
    requires Contiguous(q) && n <= |q|
    ensures Contiguous(q[n..])
  {
  }

  /** In a contiguous queue the first record does not come again. */
  lemma HeadRecordIsGone(q: seq<Entry>, e: Entry)
    requires q != [] && Contiguous(q) && forall x :: x in q ==> x.service == q[0].service
    requires e in q[HeadLength(q)..]
    ensures !SameRecord(q[0], e)
  {
    var n := HeadLength(q);
    var k :| n <= k < |q| && q[k] == e;
    assert q[n] in q && q[k] in q;
    if n < k {
      assert !SameBoundary(q[0], q[n]);
    }
  }

  lemma ContiguousJoin(head: seq<Entry>, rest: seq<Entry>)
    requires head != [] && Contiguous(rest)
    requires forall i :: 0 <= i < |head| ==> SameBoundary(head[0], head[i])
    requires forall e :: e in rest ==> !SameBoundary(head[0], e)
    ensures Contiguous(head + rest)
  {
    var all, d := head + rest, |head|;
    forall i, k | 0 <= i < d <= k < |all| ensures !SameBoundary(all[i], all[k]) {
      assert all[i] == head[i] && SameBoundary(head[0], head[i]);
      assert all[k] == rest[k - d] && rest[k - d] in rest;
    }
    forall i, j, k | 0 <= i < j < k < |all| && SameBoundary(all[i], all[k])
      ensures SameBoundary(all[i], all[j])
    {
      if k < d {
        assert SameBoundary(head[0], head[i]) && SameBoundary(head[0], head[j]);
      } else {
        assert i >= d;
        Between(rest, i - d, j - d, k - d);
      }
    }
  }

  lemma Between(entries: seq<Entry>, i: nat, j: nat, k: nat)
    requires Contiguous(entries) && i <= j <= k < |entries|
    ensures SameBoundary(entries[i], entries[k]) ==> SameBoundary(entries[i], entries[j])
  {
  }

  lemma InServiceQueue(entries: seq<Entry>, e: Entry)
    requires e in entries
    ensures e in Of(entries, e.service)
  {
    CountInService(entries, e);
    assert e in multiset(entries);
    assert e in multiset(Of(entries, e.service));
  }

  /** Segments that arrive adjacent leave adjacent. */
  lemma {:induction false} MergeKeepsRecords(queues: Queues, out: seq<Entry>)
    requires Merges(queues, out) && ValidQueues(queues)
    requires forall s :: s in queues ==> Contiguous(queues[s])
    ensures Contiguous(out)
    decreases |out|
  {
    if out != [] {
      var s, head, rest := MergesStep(queues, out);
      var q := queues[s];
      ContiguousSuffix(q, HeadLength(q));
      MergeKeepsRecords(Popped(queues, s), rest);
      forall i | 0 <= i < |head| ensures SameBoundary(head[0], head[i]) {
        assert head[i] in head && head[0] in head;
      }
      forall e | e in rest ensures !SameBoundary(head[0], e) {
        if e.service == s {
          MergeKeepsServices(Popped(queues, s), rest, s);
          InServiceQueue(rest, e);
          assert q[0] in q;
          HeadRecordIsGone(q, e);
        } else {
          assert head[0] in head;
        }
      }
      ContiguousJoin(head, rest);
    }
  }

  // ---------------------------------------------------------------- time order

  ghost predicate TimeSorted(entries: seq<Entry>) {
    forall i, j :: 0 <= i < j < |entries| ==> SortTime(entries[i]) <= SortTime(entries[j])
  }

  predicate RecordStart(q: seq<Entry>, i: nat) {
    i < |q| && (i == 0 || !SameRecord(q[i - 1], q[i]))
  }

  /**
   The record that starts at `p[i]` goes out before the one that starts at `q[k]`, although a later
   entry `p[j]` of it carries a later time: the merge takes records whole.
   */
  predicate Straddles(p: seq<Entry>, i: nat, j: nat, q: seq<Entry>, k: nat) {
    && RecordStart(p, i) && RecordStart(q, k) && p[i].service != q[k].service
    && i < j < RecordEnd(p, p[i], i + 1)
    && HeadLessEq(p[i], p[i].service, q[k], q[k].service) && SortTime(q[k]) < SortTime(p[j])
  }

  lemma {:induction false} RecordEndShift(q: seq<Entry>, n: nat, first: Entry, k: nat)
    requires n <= k <= |q|
    ensures RecordEnd(q[n..], first, k - n) == RecordEnd(q, first, k) - n
    decreases |q| - k
  {
    if k < |q| && SameRecord(first, q[k]) {
      RecordEndShift(q, n, first, k + 1);
    }
  }

  /** Dropping the first record of either queue moves the others, and nothing else. */
  lemma StraddlesShift(p: seq<Entry>, i: nat, j: nat, q: seq<Entry>, k: nat)
    requires p != [] && q != []
    ensures Straddles(p[HeadLength(p)..], i, j, q, k) <==> Straddles(p, i + HeadLength(p), j + HeadLength(p), q, k)
    ensures Straddles(p, i, j, q[HeadLength(q)..], k) <==> Straddles(p, i, j, q, k + HeadLength(q))
  {
    var n := HeadLength(p);
    if i + n < |p| {
      RecordEndShift(p, n, p[i + n], i + n + 1);
    }
  }

  lemma StartPastHead(q: seq<Entry>, i: nat)
    requires RecordStart(q, i)
    ensures i == 0 || i >= HeadLength(q)
  {
    var n := HeadLength(q);
    assert 0 < i < n ==> SameRecord(q[0], q[i - 1]);
  }

  lemma NotSorted(head: seq<Entry>, rest: seq<Entry>, a: Entry, b: Entry)
    requires a in head && b in rest && SortTime(b) < SortTime(a)
    ensures !TimeSorted(head + rest)
  {
    var i :| 0 <= i < |head| && head[i] == a;
    var j :| 0 <= j < |rest| && rest[j] == b;
    assert (head + rest)[i] == a && (head + rest)[|head| + j] == b;
  }

  lemma RestNotSorted(head: seq<Entry>, rest: seq<Entry>)
    requires !TimeSorted(rest)
    ensures !TimeSorted(head + rest)
  {
    var i, j :| 0 <= i < j < |rest| && SortTime(rest[i]) > SortTime(rest[j]);
    assert (head + rest)[|head| + i] == rest[i] && (head + rest)[|head| + j] == rest[j];
  }

  /** The later record of two is not taken while the earlier one waits. */
  lemma EarlierStartWins(queues: Queues, s: Service, i: nat, t: Service)
    requires IsLeastHead(queues, t) && s in queues && s != t && i < |queues[s]| && TimeSorted(queues[s])
    ensures !HeadLessEq(queues[s][i], s, queues[t][0], t)
  {
    var a, b := queues[s], queues[t][0];
    assert HeadLessEq(b, t, a[0], s);
    assert i > 0 ==> SortTime(a[0]) <= SortTime(a[i]);
    if s.Some? && t.Some? && StringLessEq(s.value, t.value) && StringLessEq(t.value, s.value) {
      StringLessEqAntisymmetric(s.value, t.value);
    }
  }

  lemma {:induction false} StraddleUnsorts(
      queues: Queues, out: seq<Entry>, s: Service, i: nat, j: nat, t: Service, k: nat)
    requires Merges(queues, out) && ValidQueues(queues) && s in queues && t in queues && s != t
    requires TimeSorted(queues[s]) && TimeSorted(queues[t]) && Straddles(queues[s], i, j, queues[t], k)
    requires out != [] && queues[s] != [] && queues[t] != []
    ensures !TimeSorted(out)
    decreases |out|
  {
    hide *;
    var u, head, rest := MergesStep(queues, out);
    StraddlesServices(queues, s, i, j, t, k);
    if u == s && i == 0 {
      StraddleSplitByHead(queues, head, rest, s, j, t, k);
    } else if u == t && k == 0 {
      EarlierStartWins(queues, s, i, t);
    } else {
      var i1: nat, j1: nat, k1: nat := StraddleMoves(queues, u, s, i, j, t, k);
      PoppedSorted(queues, u, s);
      PoppedSorted(queues, u, t);
      StraddlesNotEmpty(Popped(queues, u)[s], i1, j1, Popped(queues, u)[t], k1);
      MergeNotEmpty(Popped(queues, u), rest, s, i1);
      StraddleUnsorts(Popped(queues, u), rest, s, i1, j1, t, k1);
      RestNotSorted(head, rest);
    }
  }

  lemma PoppedSorted(queues: Queues, u: Service, s: Service)
    requires u in queues && s in queues && queues[u] != [] && TimeSorted(queues[s])
    ensures TimeSorted(Popped(queues, u)[s])
  {
  }

  lemma StraddlesNotEmpty(p: seq<Entry>, i: nat, j: nat, q: seq<Entry>, k: nat)
    ensures Straddles(p, i, j, q, k) ==> i < |p| && k < |q|
  {
  }

  lemma StraddlesServices(queues: Queues, s: Service, i: nat, j: nat, t: Service, k: nat)
    requires ValidQueues(queues) && s in queues && t in queues && Straddles(queues[s], i, j, queues[t], k)
    ensures i < |queues[s]| && k < |queues[t]| && HeadLessEq(queues[s][i], s, queues[t][k], t) && s != t
  {
    assert queues[s][i] in queues[s] && queues[t][k] in queues[t];
  }

  lemma MergeNotEmpty(queues: Queues, out: seq<Entry>, s: Service, i: nat)
    requires Merges(queues, out) && s in queues && i < |queues[s]|
    ensures out != []
  {
  }

  lemma StraddleSplitByHead(
      queues: Queues, head: seq<Entry>, rest: seq<Entry>, s: Service, j: nat, t: Service, k: nat)
    requires s in queues && t in queues && s != t && Straddles(queues[s], 0, j, queues[t], k)
    requires head == queues[s][..HeadLength(queues[s])]
    requires Merges(Popped(queues, s), rest) && ValidQueues(Popped(queues, s))
    ensures !TimeSorted(head + rest)
  {
    MergeKeepsServices(Popped(queues, s), rest, t);
    hide Merges, ValidQueues, Of, TimeSorted;
    OfHolds(rest, t, queues[t][k]);
    assert head[j] == queues[s][j];
    NotSorted(head, rest, head[j], queues[t][k]);
  }

  /** A record taken from elsewhere, or before either of the two, leaves the straddle in place. */
  lemma StraddleMoves(queues: Queues, u: Service, s: Service, i: nat, j: nat, t: Service, k: nat)
    returns (i1: nat, j1: nat, k1: nat)
    requires u in queues && s in queues && t in queues && s != t
    requires queues[u] != [] && queues[s] != [] && queues[t] != []
    requires Straddles(queues[s], i, j, queues[t], k)
    requires (u == s ==> i > 0) && (u == t ==> k > 0)
    ensures Straddles(Popped(queues, u)[s], i1, j1, Popped(queues, u)[t], k1)
  {
    var p, q, after := queues[s], queues[t], Popped(queues, u);
    StartPastHead(p, i);
    StartPastHead(q, k);
    i1, j1 := if u == s then i - HeadLength(p) else i, if u == s then j - HeadLength(p) else j;
    k1 := if u == t then k - HeadLength(q) else k;
    StraddlesShift(p, i1, j1, q, k1);
  }

  lemma OfHolds(entries: seq<Entry>, s: Service, e: Entry)
    requires e in Of(entries, s)
    ensures e in entries
  {
    FilterMembers(entries, (x: Entry) => x.service == s);
  }

  ghost predicate NoneStraddles(queues: Queues) {
    forall s, i: nat, j: nat, t, k: nat :: s in queues && t in queues ==>
      !Straddles(queues[s], i, j, queues[t], k)
  }

  ghost predicate InTimeOrder(queues: Queues) {
    (forall s :: s in queues ==> TimeSorted(queues[s])) && NoneStraddles(queues)
  }

  lemma PoppedInTimeOrder(queues: Queues, u: Service)
    requires InTimeOrder(queues) && u in queues && queues[u] != []
    ensures InTimeOrder(Popped(queues, u))
  {
    var after := Popped(queues, u);
    assert TimeSorted(queues[u]);
    forall s, i: nat, j: nat, t, k: nat | s in after && t in after
      ensures !Straddles(after[s], i, j, after[t], k)
    {
      if after[s] != [] && after[t] != [] {
        NeverStraddles(queues, u, s, i, j, t, k);
      }
    }
  }

  lemma NeverStraddles(queues: Queues, u: Service, s: Service, i: nat, j: nat, t: Service, k: nat)
    requires NoneStraddles(queues) && u in queues && s in queues && t in queues
    requires queues[u] != [] && queues[s] != [] && queues[t] != []
    requires Popped(queues, u)[s] != [] && Popped(queues, u)[t] != []
    ensures !Straddles(Popped(queues, u)[s], i, j, Popped(queues, u)[t], k)
  {
    var n, p, q, q1 := HeadLength(queues[u]), queues[s], queues[t], Popped(queues, u)[t];
    var i1: nat, j1: nat := if s == u then i + n else i, if s == u then j + n else j;
    var k1: nat := if t == u then k + n else k;
    PoppedAt(queues, u, s);
    PoppedAt(queues, u, t);
    assert !Straddles(p, i1, j1, q, k1);
    hide *;
    StraddlesShift(p, i, j, q1, k);
    StraddlesShift(p, i1, j1, q, k);
  }

  lemma PoppedAt(queues: Queues, u: Service, s: Service)
    requires u in queues && s in queues && queues[u] != []
    ensures Popped(queues, u)[s] == if s == u then queues[s][HeadLength(queues[s])..] else queues[s]
  {
  }

  lemma TimeSortedJoin(head: seq<Entry>, rest: seq<Entry>)
    requires TimeSorted(head) && TimeSorted(rest)
    requires forall a, b :: a in head && b in rest ==> SortTime(a) <= SortTime(b)
    ensures TimeSorted(head + rest)
  {
    var all := head + rest;
    forall i, j | 0 <= i < j < |all| ensures SortTime(all[i]) <= SortTime(all[j]) {
      if i >= |head| {
        assert all[i] == rest[i - |head|] && all[j] == rest[j - |head|];
      } else if j >= |head| {
        assert all[i] in head && all[j] in rest;
      }
    }
  }

  lemma HeadIsEarlier(queues: Queues, u: Service, rest: seq<Entry>, a: Entry, b: Entry)
    requires IsLeastHead(queues, u) && InTimeOrder(queues) && ValidQueues(queues)
    requires Merges(Popped(queues, u), rest) && ValidQueues(Popped(queues, u))
    requires a in queues[u][..HeadLength(queues[u])] && b in rest
    ensures SortTime(a) <= SortTime(b)
  {
    var p, t := queues[u], b.service;
    var j :| 0 <= j < HeadLength(p) && p[j] == a;
    MergeKeepsServices(Popped(queues, u), rest, t);
    InServiceQueue(rest, b);
    hide *;
    PoppedAt(queues, u, t);
    if t == u {
      HeadOfSorted(queues, u, j, b);
    } else {
      LeastHeadIsBefore(queues, u, j, t, b);
    }
  }

  lemma HeadOfSorted(queues: Queues, u: Service, j: nat, b: Entry)
    requires u in queues && InTimeOrder(queues) && queues[u] != []
    requires j < HeadLength(queues[u]) && b in queues[u][HeadLength(queues[u])..]
    ensures SortTime(queues[u][j]) <= SortTime(b)
  {
    var p := queues[u];
    assert TimeSorted(p);
    var m :| HeadLength(p) <= m < |p| && p[m] == b;
  }

  lemma LeastHeadIsBefore(queues: Queues, u: Service, j: nat, t: Service, b: Entry)
    requires IsLeastHead(queues, u) && InTimeOrder(queues) && ValidQueues(queues)
    requires t in queues && t != u && j < HeadLength(queues[u]) && b in queues[t]
    ensures SortTime(queues[u][j]) <= SortTime(b)
  {
    var p, q := queues[u], queues[t];
    var m :| 0 <= m < |q| && q[m] == b;
    assert TimeSorted(q) && HeadLessEq(p[0], u, q[0], t);
    assert p[0] in p && q[0] in q;
    assert !Straddles(p, 0, j, q, 0);
  }

  lemma FrontSorted(entries: seq<Entry>, n: nat)
    requires n <= |entries|
    ensures TimeSorted(entries) ==> TimeSorted(entries[..n])
  {
  }

  lemma {:induction false} MergeSortsByTime(queues: Queues, out: seq<Entry>)
    requires Merges(queues, out) && ValidQueues(queues) && InTimeOrder(queues)
    ensures TimeSorted(out)
    decreases |out|
  {
    if out != [] {
      var u, head, rest := MergesStep(queues, out);
      PoppedInTimeOrder(queues, u);
      MergeSortsByTime(Popped(queues, u), rest);
      forall a, b | a in head && b in rest ensures SortTime(a) <= SortTime(b) {
        HeadIsEarlier(queues, u, rest, a, b);
      }
      FrontSorted(queues[u], HeadLength(queues[u]));
      hide Merges, TimeSorted, InTimeOrder, ValidQueues, IsLeastHead, HeadLength;
      TimeSortedJoin(head, rest);
    }
  }

  // ---------------------------------------------------------------- grouping the input

  /** Entries queue up behind those of the same service. */
  function GroupsOf(entries: seq<Entry>): Queues {
    if entries == [] then map[]
    else
      var before, e := GroupsOf(entries[..|entries| - 1]), entries[|entries| - 1];
      before[e.service := (if e.service in before then before[e.service] else []) + [e]]
  }

  lemma OfGrows(before: seq<Entry>, e: Entry, s: Service)
    ensures Of(before + [e], s) == (if e.service == s then Of(before, s) + [e] else Of(before, s))
  {
    OfConcat(before, [e], s);
    FilterStep(e, [], (x: Entry) => x.service == s);
    assert [e] + [] == [e];
    assert Of(before, s) + [] == Of(before, s);
  }

  lemma {:induction false} GroupHolds(entries: seq<Entry>, s: Service)
    ensures Of(entries, s) == if s in GroupsOf(entries) then GroupsOf(entries)[s] else []
  {
    if entries != [] {
      var n := |entries| - 1;
      GroupHolds(entries[..n], s);
      OfGrows(entries[..n], entries[n], s);
      assert entries == entries[..n] + [entries[n]];
    }
  }

  lemma GroupsValid(entries: seq<Entry>)
    ensures ValidQueues(GroupsOf(entries))
    ensures forall s :: Of(entries, s) == if s in GroupsOf(entries) then GroupsOf(entries)[s] else []
  {
    forall s ensures Of(entries, s) == if s in GroupsOf(entries) then GroupsOf(entries)[s] else [] {
      GroupHolds(entries, s);
    }
    forall s, e | s in GroupsOf(entries) && e in GroupsOf(entries)[s] ensures e.service == s {
      FilterMembers(entries, (x: Entry) => x.service == s);
    }
  }

  /** What `merge_preserving_service_order` promises, and `MergesInOrder` says how it gets there. */
  ghost predicate MergesInOrder(entries: seq<Entry>, out: seq<Entry>) {
    Merges(GroupsOf(entries), out)
  }

  lemma MergeIsOrderedPermutation(entries: seq<Entry>, out: seq<Entry>)
    requires MergesInOrder(entries, out)
    ensures forall s :: Of(out, s) == Of(entries, s)
    ensures multiset(out) == multiset(entries)
  {
    GroupsValid(entries);
    forall s ensures Of(out, s) == Of(entries, s) {
      MergeKeepsServices(GroupsOf(entries), out, s);
    }
    hide Of, GroupsOf, Merges, ValidQueues;
    SameServicesPermute(out, entries);
  }

  lemma MergeKeepsRecordsWhole(entries: seq<Entry>, out: seq<Entry>)
    requires MergesInOrder(entries, out) && forall s :: Contiguous(Of(entries, s))
    ensures Contiguous(out)
  {
    var queues := GroupsOf(entries);
    GroupsValid(entries);
    hide Contiguous, Of, GroupsOf, Merges, ValidQueues;
    forall s | s in queues ensures Contiguous(queues[s]) {
      assert queues[s] == Of(entries, s);
    }
    MergeKeepsRecords(queues, out);
  }

  /** Every service in time order, and no record that straddles the start of another service's. */
  ghost predicate Sortable(entries: seq<Entry>) {
    && (forall s :: TimeSorted(Of(entries, s)))
    && forall s, i: nat, j: nat, t, k: nat :: !Straddles(Of(entries, s), i, j, Of(entries, t), k)
  }

  /** When the greedy merge comes out in time order, exactly. */
  lemma MergeSortsExactly(entries: seq<Entry>, out: seq<Entry>)
    requires MergesInOrder(entries, out)
    ensures TimeSorted(out) <==> Sortable(entries)
  {
    var queues := GroupsOf(entries);
    GroupsValid(entries);
    if Sortable(entries) {
      SortableQueues(entries);
      MergeSortsByTime(queues, out);
    }
    if TimeSorted(out) {
      hide Straddles, TimeSorted, Merges, ValidQueues, GroupsOf, Of;
      forall s ensures TimeSorted(Of(entries, s)) {
        MergeKeepsServices(queues, out, s);
        PartSorted(out, s);
      }
      forall s, i: nat, j: nat, t, k: nat ensures !Straddles(Of(entries, s), i, j, Of(entries, t), k) {
        if Straddles(Of(entries, s), i, j, Of(entries, t), k) {
          StraddlesNotEmpty(Of(entries, s), i, j, Of(entries, t), k);
          StraddlesServices(queues, s, i, j, t, k);
          MergeNotEmpty(queues, out, s, i);
          StraddleUnsorts(queues, out, s, i, j, t, k);
        }
      }
    }
  }

  lemma SortableQueues(entries: seq<Entry>)
    requires Sortable(entries)
    ensures InTimeOrder(GroupsOf(entries))
  {
    var queues := GroupsOf(entries);
    GroupsValid(entries);
    hide Straddles, TimeSorted, GroupsOf, Of, ValidQueues;
    forall s | s in queues ensures TimeSorted(queues[s]) {
      assert TimeSorted(Of(entries, s));
    }
    forall s, i: nat, j: nat, t, k: nat | s in queues && t in queues
      ensures !Straddles(queues[s], i, j, queues[t], k)
    {
      assert !Straddles(Of(entries, s), i, j, Of(entries, t), k);
    }
  }

  lemma {:induction false} PartSorted(entries: seq<Entry>, s: Service)
    requires TimeSorted(entries)
    ensures TimeSorted(Of(entries, s))
  {
    if entries != [] {
      var p := (e: Entry) => e.service == s;
      PartSorted(entries[1..], s);
      FilterMembers(entries[1..], p);
      assert Of(entries, s) == (if p(entries[0]) then [entries[0]] else []) + Of(entries[1..], s) by {
        assert entries == [entries[0]] + entries[1..];
        FilterStep(entries[0], entries[1..], p);
      }
      forall e | e in Of(entries[1..], s) ensures SortTime(entries[0]) <= SortTime(e) {
        var i :| 0 <= i < |entries| - 1 && entries[1..][i] == e;
        assert entries[i + 1] == e;
      }
    }
  }

  // ---------------------------------------------------------------- cuts

  /** Each service lists its records upward, and the entries of a record carry one generation. */
  ghost predicate RecordsUpward(q: seq<Entry>) {
    forall i, j :: 0 <= i < j < |q| ==> q[i].seqNo < q[j].seqNo || SameRecord(q[i], q[j])
  }

  lemma UpwardIsContiguous(q: seq<Entry>, s: Service)
    requires RecordsUpward(q) && forall e :: e in q ==> e.service == s
    ensures Contiguous(q)
  {
    forall i, j, k | 0 <= i < j < k < |q| && SameBoundary(q[i], q[k]) ensures SameBoundary(q[i], q[j]) {
      assert q[i] in q && q[j] in q;
    }
  }

  function BoundaryEnd(entries: seq<Entry>, last: Entry, k: nat): (n: nat)
    requires k <= |entries|
    ensures k <= n <= |entries|
    ensures forall i :: k <= i < n ==> SameBoundary(last, entries[i])
    ensures n < |entries| ==> !SameBoundary(last, entries[n])
    decreases |entries| - k
  {
    if k < |entries| && SameBoundary(last, entries[k]) then BoundaryEnd(entries, last, k + 1) else k
  }

  function BoundaryStart(entries: seq<Entry>, first: Entry, k: nat): (n: nat)
    requires k <= |entries|
    ensures n <= k
    ensures forall i :: n <= i < k ==> SameBoundary(first, entries[i])
    ensures n > 0 ==> !SameBoundary(first, entries[n - 1])
  {
    if k > 0 && SameBoundary(first, entries[k - 1]) then BoundaryStart(entries, first, k - 1) else k
  }

  /** Where `truncate_preserving_record_boundaries` cuts. */
  function TruncatePoint(entries: seq<Entry>, limit: nat): (n: nat)
    ensures n <= |entries|
  {
    if limit == 0 then 0
    else if |entries| <= limit then |entries|
    else BoundaryEnd(entries, entries[limit - 1], limit)
  }

  /** Where `tail_preserving_record_boundaries` cuts. */
  function TailPoint(entries: seq<Entry>, limit: nat): (n: nat)
    ensures n <= |entries|
  {
    if limit == 0 then |entries|
    else if |entries| <= limit then 0
    else BoundaryStart(entries, entries[|entries| - limit], |entries| - limit)
  }

  /** A cut that leaves every record whole: none has entries on both sides. */
  ghost predicate SplitsNoRecord(entries: seq<Entry>, n: nat)
    requires n <= |entries|
  {
    forall i, j :: 0 <= i < n <= j < |entries| && entries[i].service == entries[j].service ==>
      entries[i].runGeneration != entries[j].runGeneration || entries[i].seqNo != entries[j].seqNo
  }

  lemma CutBetweenRecords(entries: seq<Entry>, n: nat)
    requires Contiguous(entries) && n <= |entries|
    requires 0 < n < |entries| ==> !SameBoundary(entries[n - 1], entries[n])
    ensures SplitsNoRecord(entries, n)
  {
    forall i, j | 0 <= i < n <= j < |entries| ensures !SameBoundary(entries[i], entries[j]) {
      Between(entries, i, n - 1, j);
      Between(entries, i, n, j);
    }
  }

  /** The shortest front of at least `limit` entries, and the shortest such end, that split no record. */
  ghost predicate IsNearestCut(entries: seq<Entry>, limit: nat, front: nat, end: nat)
    requires front <= |entries| && end <= |entries|
  {
    && SplitsNoRecord(entries, front) && Min(limit, |entries|) <= front
    && (forall n :: Min(limit, |entries|) <= n < front ==> !SplitsNoRecord(entries, n))
    && SplitsNoRecord(entries, end) && end <= SaturatingSub(|entries|, limit)
    && (forall n :: end < n <= SaturatingSub(|entries|, limit) ==> !SplitsNoRecord(entries, n))
  }

  /**
   Both cuts keep as many entries as they may, or all there are, and never part of a record: they take
   in more than the limit only to the end of a record, and nothing for a limit of nothing.
   */
  lemma CutsSplitNoRecord(entries: seq<Entry>, limit: nat)
    requires Contiguous(entries)
    ensures IsNearestCut(entries, limit, TruncatePoint(entries, limit), TailPoint(entries, limit))
  {
    if 0 < limit < |entries| {
      TruncateIsLeast(entries, limit);
      TailIsGreatest(entries, limit);
    }
  }

  lemma TruncateIsLeast(entries: seq<Entry>, limit: nat)
    requires Contiguous(entries) && 0 < limit < |entries|
    ensures SplitsNoRecord(entries, TruncatePoint(entries, limit)) && limit <= TruncatePoint(entries, limit)
    ensures forall n :: limit <= n < TruncatePoint(entries, limit) ==> !SplitsNoRecord(entries, n)
  {
    var end, last := TruncatePoint(entries, limit), entries[limit - 1];
    assert SameBoundary(last, entries[end - 1]);
    CutBetweenRecords(entries, end);
    forall n | limit <= n < end ensures !SplitsNoRecord(entries, n) {
      assert SameBoundary(entries[limit - 1], entries[n]);
    }
  }

  lemma TailIsGreatest(entries: seq<Entry>, limit: nat)
    requires Contiguous(entries) && 0 < limit < |entries|
    ensures SplitsNoRecord(entries, TailPoint(entries, limit)) && TailPoint(entries, limit) <= |entries| - limit
    ensures forall n :: TailPoint(entries, limit) < n <= |entries| - limit ==> !SplitsNoRecord(entries, n)
  {
    var k := |entries| - limit;
    var start, first := TailPoint(entries, limit), entries[k];
    assert SameBoundary(first, entries[start]);
    CutBetweenRecords(entries, start);
    forall n | start < n <= k ensures !SplitsNoRecord(entries, n) {
      assert SameBoundary(first, entries[n - 1]);
      assert SameBoundary(entries[n - 1], entries[k]);
    }
  }

  lemma {:induction false} OfAtPositions(entries: seq<Entry>, i: nat, j: nat) returns (a: nat, b: nat)
    requires i < j < |entries| && entries[i].service == entries[j].service
    ensures a < b < |Of(entries, entries[i].service)|
    ensures Of(entries, entries[i].service)[a] == entries[i] && Of(entries, entries[i].service)[b] == entries[j]
  {
    var s := entries[i].service;
    var p := (e: Entry) => e.service == s;
    assert entries == entries[..j] + entries[j..] && entries[j..] == [entries[j]] + entries[j + 1..];
    OfConcat(entries[..j], entries[j..], s);
    FilterStep(entries[j], entries[j + 1..], p);
    assert entries[..j][i] == entries[i];
    InServiceQueue(entries[..j], entries[i]);
    a :| 0 <= a < |Of(entries[..j], s)| && Of(entries[..j], s)[a] == entries[i];
    b := |Of(entries[..j], s)|;
  }

  /**
   A cursor-safe cut: after merging and truncating, what was dropped of a service has numbers above
   everything returned of it, so that resuming after the last returned number skips nothing.
   */
  lemma TruncatedCursorSkipsNothing(entries: seq<Entry>, out: seq<Entry>, limit: nat, i: nat, j: nat)
    requires MergesInOrder(entries, out) && forall s :: RecordsUpward(Of(entries, s))
    requires i < TruncatePoint(out, limit) <= j < |out| && out[i].service == out[j].service
    ensures out[i].seqNo < out[j].seqNo
  {
    forall s ensures Contiguous(Of(entries, s)) {
      FilterMembers(entries, (e: Entry) => e.service == s);
      UpwardIsContiguous(Of(entries, s), s);
    }
    MergeIsOrderedPermutation(entries, out);
    MergeKeepsRecordsWhole(entries, out);
    CutsSplitNoRecord(out, limit);
    assert !SameBoundary(out[i], out[j]);
    var a, b := OfAtPositions(out, i, j);
    assert RecordsUpward(Of(entries, out[i].service));
  }

  // ---------------------------------------------------------------- the code

  /** `truncate_preserving_record_boundaries`. */
  method TruncatePreservingRecordBoundaries(entries: seq<Entry>, limit: nat)
    returns (kept: seq<Entry>, truncated: bool)
    ensures kept == entries[..TruncatePoint(entries, limit)] && (truncated <==> kept != entries)
    ensures |entries| <= limit ==> kept == entries && !truncated
    ensures limit == 0 ==> kept == []
    ensures 0 < limit < |entries| ==>
      && limit <= |kept| && (forall i :: limit <= i < |kept| ==> SameBoundary(entries[limit - 1], entries[i]))
      && (truncated ==> !SameBoundary(entries[limit - 1], entries[|kept|]))
    ensures Contiguous(entries) ==>
      && SplitsNoRecord(entries, |kept|) && Min(limit, |entries|) <= |kept|
      && forall n :: Min(limit, |entries|) <= n < |kept| ==> !SplitsNoRecord(entries, n)
  {
    if Contiguous(entries) {
      CutsSplitNoRecord(entries, limit);
    }
    hide SplitsNoRecord, Contiguous;
    if limit == 0 {
      return [], entries != [];
    }
    if |entries| <= limit {
      return entries, false;
    }
    var end := limit;
    var boundary := entries[end - 1];
    while end < |entries| && SameBoundary(boundary, entries[end])
      invariant limit <= end <= |entries|
      invariant BoundaryEnd(entries, boundary, limit) == BoundaryEnd(entries, boundary, end)
    {
      end := end + 1;
    }
    kept, truncated := entries[..end], end < |entries|;
  }

  /** `tail_preserving_record_boundaries`. */
  method TailPreservingRecordBoundaries(entries: seq<Entry>, limit: nat)
    returns (kept: seq<Entry>, truncated: bool)
    ensures kept == entries[TailPoint(entries, limit)..] && (truncated <==> kept != entries)
    ensures |entries| <= limit ==> kept == entries && !truncated
    ensures limit == 0 ==> kept == []
    ensures 0 < limit < |entries| ==>
      var (k, start) := (|entries| - limit, |entries| - |kept|);
      && start <= k && (forall i :: start <= i < k ==> SameBoundary(entries[k], entries[i]))
      && (truncated ==> !SameBoundary(entries[k], entries[start - 1]))
    ensures Contiguous(entries) ==>
      var (start, most) := (|entries| - |kept|, SaturatingSub(|entries|, limit));
      && SplitsNoRecord(entries, start) && start <= most
      && forall n :: start < n <= most ==> !SplitsNoRecord(entries, n)
  {
    if Contiguous(entries) {
      CutsSplitNoRecord(entries, limit);
    }
    hide SplitsNoRecord, Contiguous, SameBoundary;
    TailPointIs(entries, limit);
    hide TailPoint, BoundaryStart;
    if limit == 0 {
      return [], entries != [];
    }
    if |entries| <= limit {
      return entries, false;
    }
    var start := |entries| - limit;
    var boundary := entries[start];
    while start > 0 && SameBoundary(boundary, entries[start - 1])
      invariant start <= |entries| - limit
      invariant forall i :: start <= i < |entries| - limit ==> SameBoundary(boundary, entries[i])
      decreases start
    {
      start := start - 1;
    }
    TailPointFrom(entries, limit, start);
    kept, truncated := entries[start..], start > 0;
  }

  lemma TailPointIs(entries: seq<Entry>, limit: nat)
    ensures limit == 0 ==> entries[TailPoint(entries, limit)..] == []
    ensures |entries| <= limit ==> entries[TailPoint(entries, limit)..] == entries
  {
  }

  lemma TailPointFrom(entries: seq<Entry>, limit: nat, start: nat)
    requires 0 < limit < |entries| && start <= |entries| - limit
    requires var k := |entries| - limit;
      && (forall i :: start <= i < k ==> SameBoundary(entries[k], entries[i]))
      && (start > 0 ==> !SameBoundary(entries[k], entries[start - 1]))
    ensures TailPoint(entries, limit) == start
  {
    hide SameBoundary;
    var n := BoundaryStart(entries, entries[|entries| - limit], |entries| - limit);
  }

  lemma SameQueuesPopped(groups: Queues, queues: Queues, s: Service)
    requires SameQueues(groups, queues) && s in groups && groups[s] != []
    ensures var left := groups[s := groups[s][HeadLength(groups[s])..]];
      && SameQueues(left, Popped(queues, s))
      && (left[s] == [] ==> SameQueues(left - {s}, Popped(queues, s)))
  {
  }

  ghost predicate Prefixes(grouped: Queues, merged: seq<Entry>, queues: Queues) {
    forall tail: seq<Entry> :: Merges(queues, tail) ==> Merges(grouped, merged + tail)
  }

  lemma LeastAmongHeads(queues: Queues, heads: set<Service>)
    requires heads == set s | s in queues && queues[s] != []
    ensures forall s :: IsLeastAmong(queues, heads, s) <==> IsLeastHead(queues, s)
    ensures heads == {} <==> AllEmpty(queues)
  {
    forall t ensures t in heads <==> t in queues && queues[t] != [] {
    }
  }

  lemma PrefixesGrow(grouped: Queues, merged: seq<Entry>, queues: Queues, s: Service)
    requires Prefixes(grouped, merged, queues) && ValidQueues(queues) && IsLeastHead(queues, s)
    ensures Prefixes(grouped, merged + queues[s][..HeadLength(queues[s])], Popped(queues, s))
    ensures ValidQueues(Popped(queues, s))
  {
    var head := queues[s][..HeadLength(queues[s])];
    assert queues[s] == head + Popped(queues, s)[s];
    forall tail: seq<Entry> | Merges(Popped(queues, s), tail)
      ensures Merges(grouped, merged + head + tail)
    {
      assert queues[s][0] in queues[s];
      assert (head + tail)[0] == queues[s][0] && (head + tail)[|head|..] == tail;
      assert Merges(queues, head + tail);
      ConcatAssociative(merged, head, tail);
    }
  }

  lemma CountPopped(queues: Queues, s: Service)
    requires s in queues && queues[s] != []
    ensures Count(Popped(queues, s)) < Count(queues)
  {
    CountShorter(queues, s, queues[s][HeadLength(queues[s])..]);
  }

  /** `merge_preserving_service_order`. */
  method MergePreservingServiceOrder(entries: seq<Entry>) returns (merged: seq<Entry>)
    ensures MergesInOrder(entries, merged)
  {
    var groups: Queues := map[];
    for i := 0 to |entries|
      invariant groups == GroupsOf(entries[..i])
    {
      assert entries[..i + 1][..i] == entries[..i];
      var s := entries[i].service;
      groups := groups[s := (if s in groups then groups[s] else []) + [entries[i]]];
    }
    assert entries[..|entries|] == entries;
    GroupsValid(entries);
    merged := MergeGroups(groups);
  }

  /** Its loop: pop the whole record at the least head, and forget a service once it is empty. */
  method MergeGroups(grouped: Queues) returns (merged: seq<Entry>)
    requires ValidQueues(grouped)
    ensures Merges(grouped, merged)
  {
    var groups := grouped;
    merged := [];
    ghost var queues := grouped;
    assert Prefixes(grouped, merged, queues) by {
      assert forall tail: seq<Entry> :: [] + tail == tail;
    }
    hide ValidQueues, Prefixes, Merges, Count, HeadLength, Popped;
    while groups != map[]
      invariant SameQueues(groups, queues) && ValidQueues(queues)
      invariant Prefixes(grouped, merged, queues)
      decreases Count(queues), |groups|
    {
      var heads := set s | s in groups && groups[s] != [];
      LeastAmongHeads(groups, heads);
      if heads == {} {
        break;
      }
      ghost var least := LeastHeadExists(groups, heads);
      var s :| s in heads && forall t :: t in heads ==> HeadLessEq(groups[s][0], s, groups[t][0], t);
      assert IsLeastAmong(groups, heads, s);
      assert IsLeastHead(queues, s);
      PrefixesGrow(grouped, merged, queues, s);
      CountPopped(queues, s);
      var group := groups[s];
      var taken := PopRecord(group);
      SameQueuesPopped(groups, queues, s);
      merged := merged + group[..taken];
      queues := Popped(queues, s);
      groups := groups[s := group[taken..]];
      if groups[s] == [] {
        groups := groups - {s};
      }
    }
    assert AllEmpty(groups) && AllEmpty(queues);
    PrefixesEnd(grouped, merged, queues);
  }

  lemma PrefixesEnd(grouped: Queues, merged: seq<Entry>, queues: Queues)
    requires Prefixes(grouped, merged, queues) && AllEmpty(queues)
    ensures Merges(grouped, merged)
  {
    assert Merges(queues, []);
    assert merged + [] == merged;
  }

  /** Its inner loop: the first entry, and every next one of the same record. */
  method PopRecord(group: seq<Entry>) returns (taken: nat)
    requires group != []
    ensures taken == HeadLength(group)
  {
    taken := 1;
    while taken < |group| && SameRecord(group[0], group[taken])
      invariant 1 <= taken <= |group| && RecordEnd(group, group[0], 1) == RecordEnd(group, group[0], taken)
    {
      taken := taken + 1;
    }
  }

  // ---------------------------------------------------------------- context around matches

  /** Whether some match lies within `context` entries of position `i`. */
  ghost predicate NearMatch(entries: seq<Entry>, isMatch: Entry -> bool, context: nat, i: nat) {
    exists m :: 0 <= m < |entries| && isMatch(entries[m]) && m - context <= i <= m + context
  }

  /** `positions` are those among the first `n` whose flag is set, in order. */
  ghost predicate AreFlagged(positions: seq<nat>, keep: seq<bool>, n: nat)
    requires n <= |keep|
  {
    && (forall i, j :: 0 <= i < j < |positions| ==> positions[i] < positions[j])
    && (forall i: nat :: i in positions <==> i < n && keep[i])
  }

  /** `apply_grep_context`: overlapping windows keep an entry once, and the order stays. */
  method ApplyGrepContext(entries: seq<Entry>, isMatch: Entry -> bool, context: nat)
    returns (out: seq<Entry>, ghost positions: seq<nat>)
    ensures |out| == |positions|
    ensures forall i :: 0 <= i < |out| ==> positions[i] < |entries| && out[i] == entries[positions[i]]
    ensures forall i, j :: 0 <= i < j < |positions| ==> positions[i] < positions[j]
    ensures forall i: nat :: i in positions <==>
      && i < |entries|
      && exists m :: 0 <= m < |entries| && isMatch(entries[m]) && m - context <= i <= m + context
  {
    var keep := new bool[|entries|](_ => false);
    for index := 0 to |entries|
      invariant forall i :: 0 <= i < |entries| ==>
        (keep[i] <==> NearMatchBelow(entries, isMatch, context, i, index))
    {
      if isMatch(entries[index]) {
        var start := SaturatingSub(index, context);
        var end := Min(index + context, |entries| - 1);
        ghost var before := keep[..];
        for slot := start to end + 1
          invariant forall i :: 0 <= i < |entries| ==> (keep[i] <==> before[i] || start <= i < slot)
        {
          keep[slot] := true;
        }
      }
    }
    NearMatchAll(entries, isMatch, context);
    ghost var flags := keep[..];
    assert forall i :: 0 <= i < |flags| ==> (flags[i] <==> NearMatch(entries, isMatch, context, i));
    hide NearMatchBelow;
    out, positions := [], [];
    for i := 0 to |entries|
      invariant keep[..] == flags && |out| == |positions| && AreFlagged(positions, flags, i)
      invariant forall k :: 0 <= k < |out| ==> positions[k] < |entries| && out[k] == entries[positions[k]]
    {
      if keep[i] {
        FlaggedGrows(positions, flags, i);
        out, positions := out + [entries[i]], positions + [i];
      }
    }
    assert forall i: nat :: i in positions <==> i < |entries| && NearMatch(entries, isMatch, context, i);
  }

  lemma FlaggedGrows(positions: seq<nat>, keep: seq<bool>, n: nat)
    requires n < |keep| && AreFlagged(positions, keep, n) && keep[n]
    ensures AreFlagged(positions + [n], keep, n + 1)
  {
    forall i | 0 <= i < |positions| ensures positions[i] < n {
      assert positions[i] in positions;
    }
  }

  ghost predicate NearMatchBelow(entries: seq<Entry>, isMatch: Entry -> bool, context: nat, i: nat, n: nat)
    requires n <= |entries|
  {
    n > 0 && (NearMatchBelow(entries, isMatch, context, i, n - 1)
              || (isMatch(entries[n - 1]) && n - 1 - context <= i <= n - 1 + context))
  }

  lemma {:induction false} NearMatchBelowIs(
      entries: seq<Entry>, isMatch: Entry -> bool, context: nat, i: nat, n: nat)
    requires n <= |entries|
    ensures NearMatchBelow(entries, isMatch, context, i, n)
      <==> exists m :: 0 <= m < n && isMatch(entries[m]) && m - context <= i <= m + context
  {
    if n > 0 {
      NearMatchBelowIs(entries, isMatch, context, i, n - 1);
    }
  }

  lemma NearMatchAll(entries: seq<Entry>, isMatch: Entry -> bool, context: nat)
    ensures forall i :: 0 <= i < |entries| ==>
      (NearMatchBelow(entries, isMatch, context, i, |entries|) <==> NearMatch(entries, isMatch, context, i))
  {
    forall i | 0 <= i < |entries|
      ensures NearMatchBelow(entries, isMatch, context, i, |entries|) <==> NearMatch(entries, isMatch, context, i)
    {
      NearMatchBelowIs(entries, isMatch, context, i, |entries|);
    }
  }

  // ---------------------------------------------------------------- why one time per record

  const A1 := Entry(Some("a"), 1, 1, 1, None, "")
  const A2 := Entry(Some("a"), 1, 1, 9, None, "")
  const B1 := Entry(Some("b"), 1, 1, 5, None, "")

  lemma SpanningOf(s: Service)
    ensures Of([A1, A2, B1], s)
         == if s == A1.service then [A1, A2] else if s == B1.service then [B1] else []
  {
    assert A1.service != B1.service by { assert A1.service.value[0] != B1.service.value[0]; }
    OfGrows([], A1, s);
    OfGrows([A1], A2, s);
    OfGrows([A1, A2], B1, s);
    hide Of;
    assert [] + [A1] == [A1] && [A1] + [A2] == [A1, A2] && [A1, A2] + [B1] == [A1, A2, B1];
    assert Of([], s) == [] by { FilterNone([], (e: Entry) => e.service == s); }
  }

  lemma GroupsGrow(before: seq<Entry>, e: Entry)
    ensures GroupsOf(before + [e])
         == GroupsOf(before)[e.service :=
              (if e.service in GroupsOf(before) then GroupsOf(before)[e.service] else []) + [e]]
  {
    assert (before + [e])[..|before|] == before;
  }

  lemma GroupsOfThree(a: Entry, b: Entry, c: Entry)
    requires a.service == b.service != c.service
    ensures GroupsOf([a, b, c]) == map[a.service := [a, b], c.service := [c]]
  {
    GroupsGrow([], a);
    GroupsGrow([a], b);
    GroupsGrow([a, b], c);
    assert GroupsOf([]) == map[];
    hide *;
    assert [] + [a] == [a] && [a] + [b] == [a, b] && [a, b] + [c] == [a, b, c] && [] + [c] == [c];
  }

  lemma LeastOfTwo(queues: Queues, s: Service, t: Service)
    requires queues.Keys == {s, t} && queues[s] != []
    requires queues[t] == [] || SortTime(queues[s][0]) < SortTime(queues[t][0])
    ensures IsLeastHead(queues, s)
  {
    HeadLessEqTotal(queues[s][0], s, queues[s][0], s);
  }

  lemma SpanningMerges()
    ensures MergesInOrder([A1, A2, B1], [A1, A2, B1])
  {
    assert A1.service.value[0] != B1.service.value[0];
    GroupsOfThree(A1, A2, B1);
    var queues := GroupsOf([A1, A2, B1]);
    LeastOfTwo(queues, A1.service, B1.service);
    assert HeadLength([A1, A2]) == 2 && HeadLength([B1]) == 1;
    var after := Popped(queues, A1.service);
    assert after[A1.service] == [];
    LeastOfTwo(after, B1.service, A1.service);
    assert AllEmpty(Popped(after, B1.service));
    assert Merges(Popped(after, B1.service), []);
    assert Merges(after, [B1]);
    assert [A1, A2, B1][2..] == [B1] && [A1, A2] <= [A1, A2, B1];
  }

  ghost predicate Unsorts(entries: seq<Entry>, out: seq<Entry>) {
    && MergesInOrder(entries, out) && !TimeSorted(out)
    && forall s :: TimeSorted(Of(entries, s)) && Contiguous(Of(entries, s))
  }

  /** Whole records and services in time order are not enough: one record may span two times. */
  lemma TwoTimesInOneRecordUnsort()
    ensures exists entries, out :: Unsorts(entries, out)
  {
    var entries := [A1, A2, B1];
    forall s ensures TimeSorted(Of(entries, s)) && Contiguous(Of(entries, s)) {
      SpanningOf(s);
    }
    SpanningMerges();
    hide MergesInOrder, Of;
    assert SortTime(entries[1]) > SortTime(entries[2]);
    assert Unsorts(entries, entries);
  }
}
