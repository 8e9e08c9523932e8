/** Vocabulary shared by every model in the project. */
module Prelude {

  datatype Option<+T> = None | Some(value: T)

  function Min(a: int, b: int): int {
    if a <= b then a else b
  }

  function Max(a: int, b: int): int {
    if a >= b then a else b
  }

  /** Rust's `usize::saturating_sub`. */
  function SaturatingSub(a: nat, b: nat): nat {
    if a <= b then 0 else a - b
  }

  /** The answers of `p` along `s` are all `true` and then all `false`. */
  ghost predicate Partitioned<T>(s: seq<T>, p: T -> bool) {
    forall i, j :: 0 <= i < j < |s| && p(s[j]) ==> p(s[i])
  }

  /** Rust's `partition_point`: a binary search that looks only at the middle of what is left. */
  function PartitionPoint<T>(s: seq<T>, p: T -> bool): (n: nat)
    ensures n <= |s|
    ensures Partitioned(s, p) ==> forall i :: 0 <= i < |s| ==> (p(s[i]) <==> i < n)
  {
    PartitionPointBetween(s, p, 0, |s|)
  }

  function PartitionPointBetween<T>(s: seq<T>, p: T -> bool, low: nat, high: nat): (n: nat)
    requires low <= high <= |s|
    ensures low <= n <= high
    ensures Partitioned(s, p) ==> forall i :: low <= i < high ==> (p(s[i]) <==> i < n)
    decreases high - low
  {
    if low == high then
      low
    else
      var middle := low + (high - low) / 2;
      if p(s[middle]) then
        PartitionPointBetween(s, p, middle + 1, high)
      else
        PartitionPointBetween(s, p, low, middle)
  }

  ghost predicate Distinct<T>(s: seq<T>) {
    forall i, j :: 0 <= i < j < |s| ==> s[i] != s[j]
  }

  /** The elements of `s` that satisfy `p`, in order. */
  function Filter<T>(s: seq<T>, p: T -> bool): seq<T> {
    if s == [] then [] else (if p(s[0]) then [s[0]] else []) + Filter(s[1..], p)
  }

  lemma FilterStep<T>(x: T, rest: seq<T>, p: T -> bool)
    ensures Filter([x] + rest, p) == (if p(x) then [x] else []) + Filter(rest, p)
  {
    assert ([x] + rest)[1..] == rest;
  }

  lemma {:induction false} FilterConcat<T>(a: seq<T>, b: seq<T>, p: T -> bool)
    ensures Filter(a + b, p) == Filter(a, p) + Filter(b, p)
  {
    if a == [] {
      assert a + b == b;
    } else {
      var kept := if p(a[0]) then [a[0]] else [];
      FilterStep(a[0], a[1..], p);
      FilterStep(a[0], a[1..] + b, p);
      FilterConcat(a[1..], b, p);
      hide Filter;
      assert a == [a[0]] + a[1..] && a + b == [a[0]] + (a[1..] + b);
      ConcatAssociative(kept, Filter(a[1..], p), Filter(b, p));
    }
  }

  lemma {:induction false} FilterAll<T>(s: seq<T>, p: T -> bool)
    requires forall x :: x in s ==> p(x)
    ensures Filter(s, p) == s
  {
    if s != [] {
      assert forall x :: x in s[1..] ==> x in s;
      FilterAll(s[1..], p);
    }
  }

  lemma {:induction false} FilterNone<T>(s: seq<T>, p: T -> bool)
    requires forall x :: x in s ==> !p(x)
    ensures Filter(s, p) == []
  {
    if s != [] {
      assert forall x :: x in s[1..] ==> x in s;
      FilterNone(s[1..], p);
    }
  }

  lemma {:induction false} FilterMembers<T>(s: seq<T>, p: T -> bool)
    ensures forall x :: x in Filter(s, p) <==> x in s && p(x)
  {
    if s != [] {
      FilterMembers(s[1..], p);
      assert s == [s[0]] + s[1..];
    }
  }

  lemma FilterSnoc<T>(s: seq<T>, x: T, p: T -> bool)
    ensures Filter(s + [x], p) == Filter(s, p) + (if p(x) then [x] else [])
  {
    FilterConcat(s, [x], p);
    FilterStep(x, [], p);
    assert [x] + [] == [x];
    var kept := if p(x) then [x] else [];
    assert kept + [] == kept;
  }

  /** Filtering a partitioned sequence for the elements that fail `p` drops the front. */
  lemma {:induction false} FilterIsSuffix<T>(s: seq<T>, p: T -> bool, n: nat)
    requires n <= |s|
    requires forall i :: 0 <= i < |s| ==> (p(s[i]) <==> i >= n)
    ensures Filter(s, p) == s[n..]
  {
    FilterNone(s[..n], p);
    FilterAll(s[n..], p);
    FilterConcat(s[..n], s[n..], p);
    assert s == s[..n] + s[n..];
  }

  lemma SliceGrows<T>(s: seq<T>, p: nat, q: nat)
    requires p <= q < |s|
    ensures s[p..q + 1] == s[p..q] + [s[q]]
  {
  }

  lemma PrefixGrows<T>(s: seq<T>, k: nat)
    requires k < |s|
    ensures s[..k + 1] == s[..k] + [s[k]]
  {
  }

  lemma ConcatAssociative<T>(a: seq<T>, b: seq<T>, c: seq<T>)
    ensures a + (b + c) == (a + b) + c
  {
  }

  lemma SplitThree<T>(whole: seq<T>, front: seq<T>, a: seq<T>, b: seq<T>)
    requires front <= whole && front == a + b
    ensures whole == a + (b + whole[|front|..])
  {
  }

  /** Rust orders strings by code point; the shorter of two strings that agree comes first. */
  predicate StringLessEq(a: string, b: string) {
    if a == [] then true
    else if b == [] then false
    else a[0] < b[0] || (a[0] == b[0] && StringLessEq(a[1..], b[1..]))
  }

  /** They agree up to a position where `a` has the lower code point. */
  ghost predicate DiffersUpward(a: string, b: string, k: nat) {
    k < |a| && k < |b| && a[..k] == b[..k] && a[k] < b[k]
  }

  lemma DiffersLater(a: string, b: string, k: nat)
    requires a != [] && b != [] && a[0] == b[0]
    ensures DiffersUpward(a, b, k + 1) <==> DiffersUpward(a[1..], b[1..], k)
  {
    if k + 1 < |a| && k + 1 < |b| {
      assert a[..k + 1] == [a[0]] + a[1..][..k] && b[..k + 1] == [b[0]] + b[1..][..k];
      assert a[..k + 1][1..] == a[1..][..k] && b[..k + 1][1..] == b[1..][..k];
    }
  }

  /** `a` is a front of `b`, or they first differ where `a` has the lower code point. */
  lemma {:induction false} StringLessEqMeans(a: string, b: string)
    ensures StringLessEq(a, b) <==> a <= b || exists k: nat :: DiffersUpward(a, b, k)
  {
    if a != [] && b != [] {
      var (x, y) := (a[1..], b[1..]);
      assert a == [a[0]] + x && b == [b[0]] + y;
      if a[0] == b[0] {
        StringLessEqMeans(x, y);
        forall k: nat ensures DiffersUpward(a, b, k + 1) <==> DiffersUpward(x, y, k) {
          DiffersLater(a, b, k);
        }
        hide DiffersUpward;
        if k: nat :| DiffersUpward(x, y, k) {
          assert DiffersUpward(a, b, k + 1);
        }
        if k: nat :| DiffersUpward(a, b, k) {
          NotAtFirst(a, b, k);
          assert DiffersUpward(x, y, k - 1);
        }
      } else {
        assert DiffersUpward(a, b, 0) <==> a[0] < b[0];
        forall k: nat | DiffersUpward(a, b, k) ensures k == 0 {
          OnlyAtFirst(a, b, k);
        }
      }
    }
  }

  lemma OnlyAtFirst(a: string, b: string, k: nat)
    requires DiffersUpward(a, b, k)
    ensures k > 0 ==> a[0] == b[0]
  {
    assert k > 0 ==> a[..k][0] == a[0] && b[..k][0] == b[0];
  }

  lemma NotAtFirst(a: string, b: string, k: nat)
    requires DiffersUpward(a, b, k) && a[0] == b[0]
    ensures k > 0
  {
  }

  lemma StringLessEqTotal(a: string, b: string)
    ensures StringLessEq(a, b) || StringLessEq(b, a)
  {
  }

  lemma {:induction false} StringLessEqAntisymmetric(a: string, b: string)
    requires StringLessEq(a, b) && StringLessEq(b, a)
    ensures a == b
  {
    if a != [] && b != [] {
      StringLessEqAntisymmetric(a[1..], b[1..]);
      assert a == [a[0]] + a[1..] && b == [b[0]] + b[1..];
    }
  }

  lemma StringLessEqTransitive(a: string, b: string, c: string)
    requires StringLessEq(a, b) && StringLessEq(b, c)
    ensures StringLessEq(a, c)
  {
  }
}
