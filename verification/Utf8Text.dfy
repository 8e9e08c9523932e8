/**
 Text measured in UTF-8 bytes and cut only between characters.

 A Rust `String` is a sequence of Unicode scalar values, which is what a Dafny `string` is; its
 `len()` is the number of bytes that UTF-8 (section 3 of RFC 3629) spends on them.
 */
module Utf8Text {
  import opened Prelude

  function CharWidth(c: char): nat {
    var n := c as int;
    if n < 0x80 then 1 else if n < 0x800 then 2 else if n < 0x1_0000 then 3 else 4
  }

  function ByteLen(s: string): nat {
    if s == [] then 0 else CharWidth(s[0]) + ByteLen(s[1..])
  }

  lemma {:induction false} ByteLenConcat(a: string, b: string)
    ensures ByteLen(a + b) == ByteLen(a) + ByteLen(b)
  {
    if a == [] {
      assert a + b == b;
    } else {
      assert (a + b)[0] == a[0] && (a + b)[1..] == a[1..] + b;
      ByteLenConcat(a[1..], b);
    }
  }

  lemma ByteLenSplit(s: string, k: nat)
    requires k <= |s|
    ensures ByteLen(s) == ByteLen(s[..k]) + ByteLen(s[k..])
  {
    assert s == s[..k] + s[k..];
    ByteLenConcat(s[..k], s[k..]);
  }

  /** Index of the first character from `k` on whose byte offset is at least `minStart`. */
  function FirstBoundaryFrom(s: string, minStart: nat, k: nat): (b: nat)
    requires k <= |s|
    ensures k <= b <= |s|
    ensures b < |s| ==> minStart <= ByteLen(s[..b])
    ensures forall i :: k <= i < b ==> ByteLen(s[..i]) < minStart
    decreases |s| - k
  {
    if k == |s| || minStart <= ByteLen(s[..k]) then k else FirstBoundaryFrom(s, minStart, k + 1)
  }

  function TrimToLastBytes(s: string, maxBytes: nat): (r: string)
  {
    if ByteLen(s) <= maxBytes then s
    else if maxBytes == 0 then ""
    else s[FirstBoundaryFrom(s, SaturatingSub(ByteLen(s), maxBytes), 0)..]
  }

  /** `r` is the longest suffix of `s` that fits in `maxBytes`. */
  ghost predicate IsLongestFittingSuffix(r: string, s: string, maxBytes: nat) {
    && |r| <= |s|
    && r == s[|s| - |r|..]
    && ByteLen(r) <= maxBytes
    && forall k :: 0 <= k < |s| - |r| ==> maxBytes < ByteLen(s[k..])
  }

  lemma TrimToLastBytesIsLongestSuffix(s: string, maxBytes: nat)
    ensures IsLongestFittingSuffix(TrimToLastBytes(s, maxBytes), s, maxBytes)
  {
    var r := TrimToLastBytes(s, maxBytes);
    if ByteLen(s) <= maxBytes {
    } else {
      var cut := if maxBytes == 0 then |s| else FirstBoundaryFrom(s, ByteLen(s) - maxBytes, 0);
      assert r == s[cut..];
      ByteLenSplit(s, cut);
      forall k | 0 <= k < cut ensures maxBytes < ByteLen(s[k..]) {
        ByteLenSplit(s, k);
        if maxBytes == 0 {
          assert ByteLen(s[k..]) >= CharWidth(s[k..][0]);
        }
      }
    }
  }

  /** Trimming again, to the same size, changes nothing. */
  lemma TrimToLastBytesIdempotent(s: string, maxBytes: nat)
    ensures TrimToLastBytes(TrimToLastBytes(s, maxBytes), maxBytes) == TrimToLastBytes(s, maxBytes)
  {
    TrimToLastBytesIsLongestSuffix(s, maxBytes);
  }

  /** Index of the last character before `k` whose byte offset is at most `maxBytes`, or 0. */
  function LastBoundaryBelow(s: string, maxBytes: nat, k: nat): (b: nat)
    requires k <= |s|
    ensures b <= |s|
  {
    if k == 0 then 0
    else if ByteLen(s[..k - 1]) <= maxBytes then k - 1
    else LastBoundaryBelow(s, maxBytes, k - 1)
  }

  function TruncateToFirstBytes(s: string, maxBytes: nat): (r: string)
  {
    if ByteLen(s) <= maxBytes then s else s[..LastBoundaryBelow(s, maxBytes, |s|)]
  }

  /** `r` is the longest prefix of `s` that fits in `maxBytes`. */
  ghost predicate IsLongestFittingPrefix(r: string, s: string, maxBytes: nat) {
    && r <= s
    && ByteLen(r) <= maxBytes
    && forall k :: |r| < k <= |s| ==> maxBytes < ByteLen(s[..k])
  }

  lemma {:induction false} LastBoundaryBelowIsLast(s: string, maxBytes: nat, k: nat)
    requires k <= |s| && maxBytes < ByteLen(s[..k])
    ensures LastBoundaryBelow(s, maxBytes, k) < k
    ensures ByteLen(s[..LastBoundaryBelow(s, maxBytes, k)]) <= maxBytes
    ensures forall i :: LastBoundaryBelow(s, maxBytes, k) < i <= k ==> maxBytes < ByteLen(s[..i])
  {
    if k > 0 && maxBytes < ByteLen(s[..k - 1]) {
      LastBoundaryBelowIsLast(s, maxBytes, k - 1);
    }
  }

  lemma TruncateToFirstBytesIsLongestPrefix(s: string, maxBytes: nat)
    ensures IsLongestFittingPrefix(TruncateToFirstBytes(s, maxBytes), s, maxBytes)
  {
    if maxBytes < ByteLen(s) {
      assert s[..|s|] == s;
      LastBoundaryBelowIsLast(s, maxBytes, |s|);
    }
  }

  lemma LongestPrefixIsUnique(r: string, t: string, s: string, maxBytes: nat)
    requires IsLongestFittingPrefix(r, s, maxBytes) && IsLongestFittingPrefix(t, s, maxBytes)
    ensures r == t
  {
    assert r == s[..|r|] && t == s[..|t|];
  }
}
