/**
 UTF-8 (section 3 of RFC 3629), and reading bytes that may not be UTF-8 the way Rust's
 `String::from_utf8_lossy` does: each longest run of bytes that could begin a character, and does
 not finish it, becomes one replacement character.
 */
module Utf8Codec {
  import opened Prelude
  import opened Utf8Text

  type Byte = b: int | 0 <= b < 256

  const REPLACEMENT: char := '\U{FFFD}'

  // ---------------------------------------------------------------- encoding

  function Encode(c: char): (bytes: seq<Byte>)
    ensures |bytes| == CharWidth(c)
  {
    var n := c as int;
    if n < 0x80 then [n]
    else if n < 0x800 then [0xC0 + n / 0x40, 0x80 + n % 0x40]
    else if n < 0x1_0000 then [0xE0 + n / 0x1000, 0x80 + n / 0x40 % 0x40, 0x80 + n % 0x40]
    else [0xF0 + n / 0x4_0000, 0x80 + n / 0x1000 % 0x40, 0x80 + n / 0x40 % 0x40, 0x80 + n % 0x40]
  }

  function EncodeAll(s: string): seq<Byte> {
    if s == [] then [] else Encode(s[0]) + EncodeAll(s[1..])
  }

  lemma {:induction false} EncodeAllConcat(a: string, b: string)
    ensures EncodeAll(a + b) == EncodeAll(a) + EncodeAll(b)
  {
    if a == [] {
      assert a + b == b;
    } else {
      assert (a + b)[0] == a[0] && (a + b)[1..] == a[1..] + b;
      EncodeAllConcat(a[1..], b);
      ConcatAssociative(Encode(a[0]), EncodeAll(a[1..]), EncodeAll(b));
    }
  }

  lemma {:induction false} EncodedLength(s: string)
    ensures |EncodeAll(s)| == ByteLen(s)
  {
    if s != [] {
      EncodedLength(s[1..]);
    }
  }

  // ---------------------------------------------------------------- decoding

  /** How many bytes a sequence that begins with `b` has; 0 where none begins with it. */
  function Width(b: Byte): nat {
    if b < 0x80 then 1 else if 0xC2 <= b <= 0xDF then 2 else if 0xE0 <= b <= 0xEF then 3
    else if 0xF0 <= b <= 0xF4 then 4 else 0
  }

  predicate IsContinuation(b: Byte) {
    0x80 <= b <= 0xBF
  }

  /** The second byte excludes overlong forms, surrogates and numbers past the last code point. */
  predicate IsSecond(first: Byte, b: Byte) {
    if first == 0xE0 then 0xA0 <= b <= 0xBF
    else if first == 0xED then 0x80 <= b <= 0x9F
    else if first == 0xF0 then 0x90 <= b <= 0xBF
    else if first == 0xF4 then 0x80 <= b <= 0x8F
    else IsContinuation(b)
  }

  /** How many bytes at the front belong to one character, or to one broken beginning of it. */
  function FrontLength(s: seq<Byte>): (n: nat)
    requires s != []
    ensures 1 <= n <= |s|
  {
    var w := Width(s[0]);
    if w < 2 || |s| < 2 || !IsSecond(s[0], s[1]) then 1
    else if w < 3 || |s| < 3 || !IsContinuation(s[2]) then 2
    else if w < 4 || |s| < 4 || !IsContinuation(s[3]) then 3
    else 4
  }

  predicate IsWhole(s: seq<Byte>)
    requires s != []
  {
    FrontLength(s) == Width(s[0])
  }

  function DecodeFront(s: seq<Byte>): char
    requires s != [] && IsWhole(s)
  {
    var first: int := s[0];
    var second: int := if |s| > 1 then s[1] else 0;
    match FrontLength(s)
    case 1 => first as char
    case 2 => ((first - 0xC0) * 0x40 + second - 0x80) as char
    case 3 => ((first - 0xE0) * 0x1000 + (second - 0x80) * 0x40 + SixBitsOf(s[2])) as char
    case _ =>
      ((first - 0xF0) * 0x4_0000 + (second - 0x80) * 0x1000 + SixBitsOf(s[2]) * 0x40 + SixBitsOf(s[3])) as char
  }

  function SixBitsOf(b: Byte): int {
    b as int - 0x80
  }

  function Lossy(s: seq<Byte>): string {
    if s == [] then []
    else [if IsWhole(s) then DecodeFront(s) else REPLACEMENT] + Lossy(s[FrontLength(s)..])
  }

  // ---------------------------------------------------------------- round trips

  lemma SixBits(n: nat)
    ensures n == n / 0x40 * 0x40 + n % 0x40
    ensures n / 0x40 / 0x40 == n / 0x1000 && n / 0x1000 / 0x40 == n / 0x4_0000
  {
  }

  /** What an encoded character begins with is recognised, up to any point inside it. */
  lemma EncodedFront(c: char, rest: seq<Byte>, k: nat)
    requires 0 < k <= CharWidth(c) && (k < CharWidth(c) ==> rest == [])
    ensures var s := Encode(c)[..k] + rest;
      s != [] && FrontLength(s) == k && Width(s[0]) == CharWidth(c)
  {
    SixBits(c as int);
  }

  lemma {:induction false} EncodedDecodes(c: char, rest: seq<Byte>)
    ensures var s := Encode(c) + rest;
      s != [] && FrontLength(s) == CharWidth(c) && IsWhole(s) && DecodeFront(s) == c
  {
    EncodedFront(c, rest, CharWidth(c));
    var n := c as int;
    SixBits(n);
    SixBits(n / 0x40);
    SixBits(n / 0x1000);
    assert Encode(c)[..CharWidth(c)] == Encode(c);
  }

  /** A text that breaks off inside a character reads as the text and one replacement character. */
  lemma {:induction false} LossyOfBroken(s: string, broken: seq<Byte>)
    ensures Lossy(EncodeAll(s) + broken) == s + Lossy(broken)
  {
    if s == [] {
      assert EncodeAll(s) + broken == broken;
    } else {
      var front, rest := Encode(s[0]), EncodeAll(s[1..]) + broken;
      EncodedDecodes(s[0], rest);
      LossyOfBroken(s[1..], broken);
      LossyStep(front, rest);
      EncodeAllStep(s, broken);
      hide *;
      assert s == [s[0]] + s[1..];
      ConcatAssociative([s[0]], s[1..], Lossy(broken));
    }
  }

  lemma EncodeAllStep(s: string, more: seq<Byte>)
    requires s != []
    ensures EncodeAll(s) + more == Encode(s[0]) + (EncodeAll(s[1..]) + more)
  {
    hide Encode;
  }

  lemma LossyStep(front: seq<Byte>, rest: seq<Byte>)
    requires front + rest != [] && FrontLength(front + rest) == |front| && IsWhole(front + rest)
    ensures Lossy(front + rest) == [DecodeFront(front + rest)] + Lossy(rest)
  {
    hide FrontLength, IsWhole, DecodeFront;
    assert (front + rest)[|front|..] == rest;
  }

  lemma LossyOfPart(c: char, k: nat)
    requires 0 < k < CharWidth(c)
    ensures Lossy(Encode(c)[..k]) == [REPLACEMENT]
  {
    var s := Encode(c)[..k];
    EncodedFront(c, [], k);
    assert s + [] == s && s[k..] == [];
  }

  /** Every text is read back from its encoding. */
  lemma {:induction false} LossyReadsBack(s: string)
    ensures Lossy(EncodeAll(s)) == s
  {
    LossyOfBroken(s, []);
    assert EncodeAll(s) + [] == EncodeAll(s) && s + [] == s;
  }

  // ---------------------------------------------------------------- bytes that are no text

  /** One more base-64 digit. */
  lemma Digit(front: nat, digit: nat)
    requires digit < 0x40
    ensures (front * 0x40 + digit) / 0x40 == front && (front * 0x40 + digit) % 0x40 == digit
  {
  }

  lemma TwoIsEncoded(s: seq<Byte>)
    requires s != [] && IsWhole(s) && FrontLength(s) == 2
    ensures Encode(DecodeFront(s)) == s[..2]
  {
    Digit(s[0] - 0xC0, s[1] - 0x80);
  }

  lemma ThreeIsEncoded(s: seq<Byte>)
    requires s != [] && IsWhole(s) && FrontLength(s) == 3
    ensures Encode(DecodeFront(s)) == s[..3]
  {
    var (a, b, c) := (s[0] as int - 0xE0, s[1] as int - 0x80, s[2] as int - 0x80);
    Digit(a, b);
    Digit(a * 0x40 + b, c);
    SixBits(DecodeFront(s) as int);
  }

  lemma FourIsEncoded(s: seq<Byte>)
    requires s != [] && IsWhole(s) && FrontLength(s) == 4
    ensures Encode(DecodeFront(s)) == s[..4]
  {
    var (a, b, c, d) := (s[0] as int - 0xF0, s[1] as int - 0x80, s[2] as int - 0x80, s[3] as int - 0x80);
    Digit(a, b);
    Digit(a * 0x40 + b, c);
    Digit((a * 0x40 + b) * 0x40 + c, d);
    SixBits(DecodeFront(s) as int);
  }

  /** What reads as a whole character is the encoding of that character. */
  lemma WholeIsEncoded(s: seq<Byte>)
    requires s != [] && IsWhole(s)
    ensures CharWidth(DecodeFront(s)) == FrontLength(s) && Encode(DecodeFront(s)) == s[..FrontLength(s)]
  {
    match FrontLength(s) {
      case 1 =>
      case 2 => TwoIsEncoded(s);
      case 3 => ThreeIsEncoded(s);
      case _ => FourIsEncoded(s);
    }
    hide DecodeFront, IsWhole;
  }

  lemma WholeHasCharacter(s: seq<Byte>)
    requires s != []
    ensures IsWhole(s) ==> exists d :: Encode(d) <= s
  {
    if IsWhole(s) {
      WholeIsEncoded(s);
      hide Encode, DecodeFront, FrontLength;
      assert Encode(DecodeFront(s)) <= s;
    }
  }

  lemma FrontOfFront(s: seq<Byte>, k: nat)
    requires 0 < k <= |s|
    ensures FrontLength(s[..k]) == Min(FrontLength(s), k)
  {
  }

  /** A broken beginning of more than one byte is the beginning of some character. */
  lemma BrokenBegins(s: seq<Byte>) returns (c: char)
    requires s != [] && !IsWhole(s) && FrontLength(s) > 1
    ensures FrontLength(s) < CharWidth(c) && Encode(c)[..FrontLength(s)] == s[..FrontLength(s)]
  {
    var n := FrontLength(s);
    var filler: Byte := 0x80;
    var t := s[..n] + if Width(s[0]) - n == 1 then [filler] else [filler, filler];
    assert FrontLength(t) == Width(s[0]) == |t|;
    c := DecodeFront(t);
    WholeIsEncoded(t);
    hide FrontLength, DecodeFront, IsWhole, Encode;
    assert t[..|t|] == t;
  }

  /**
   How any bytes are read. A front that encodes a character reads as it. Otherwise one replacement stands
   for the longest front that could still become a character, or for one byte where there is none.
   */
  lemma LossyFront(s: seq<Byte>, c: char) returns (n: nat)
    requires s != []
    ensures Encode(c) <= s ==> Lossy(s) == [c] + Lossy(s[|Encode(c)|..])
    ensures (forall d :: !(Encode(d) <= s)) ==>
      && 0 < n <= |s| && Lossy(s) == [REPLACEMENT] + Lossy(s[n..])
      && (n > 1 ==> exists d :: n < |Encode(d)| && Encode(d)[..n] == s[..n])
      && (forall d, k :: n < k <= |s| && k <= |Encode(d)| ==> Encode(d)[..k] != s[..k])
  {
    n := FrontLength(s);
    if Encode(c) <= s {
      var rest := s[|Encode(c)|..];
      assert s == Encode(c) + rest;
      EncodedDecodes(c, rest);
      LossyStep(Encode(c), rest);
    }
    if forall d :: !(Encode(d) <= s) {
      WholeHasCharacter(s);
      if n > 1 {
        var d := BrokenBegins(s);
        assert n < |Encode(d)| && Encode(d)[..n] == s[..n];
      }
      forall d, k | n < k <= |s| && k <= |Encode(d)| ensures Encode(d)[..k] != s[..k] {
        EncodedFront(d, [], k);
        assert Encode(d)[..k] + [] == Encode(d)[..k];
        FrontOfFront(s, k);
      }
    }
  }

  /** Where a cut at `n` bytes falls: after whole characters, and some bytes into the next one. */
  lemma {:induction false} CutFalls(s: string, n: nat) returns (k: nat, inside: nat)
    requires n <= |EncodeAll(s)|
    ensures k <= |s| && (inside > 0 ==> k < |s| && inside < CharWidth(s[k]))
    ensures EncodeAll(s)[..n] == EncodeAll(s[..k]) + (if inside == 0 then [] else Encode(s[k])[..inside])
    ensures k == |s| <==> n == |EncodeAll(s)|
  {
    if s == [] {
      k, inside := 0, 0;
    } else if n < CharWidth(s[0]) {
      k, inside := 0, n;
      assert s[..0] == [];
    } else {
      var front, rest := Encode(s[0]), EncodeAll(s[1..]);
      k, inside := CutFalls(s[1..], n - |front|);
      assert (front + rest)[..n] == front + rest[..n - |front|];
      assert s[..k + 1][1..] == s[1..][..k];
      var tail := if inside == 0 then [] else Encode(s[1..][k])[..inside];
      ConcatAssociative(front, EncodeAll(s[1..][..k]), tail);
      k := k + 1;
    }
  }

  // ---------------------------------------------------------------- single bytes

  /** Outside ASCII no byte of an encoding is an ASCII byte. */
  lemma AsciiIsItself(c: char, b: Byte)
    requires b < 0x80
    ensures b in Encode(c) <==> c as int == b
  {
    SixBits(c as int);
  }

  lemma {:induction false} AsciiIn(s: string, c: char)
    requires c as int < 0x80
    ensures c as int in EncodeAll(s) <==> c in s
  {
    if s != [] {
      AsciiIsItself(s[0], c as int);
      AsciiIn(s[1..], c);
    }
  }

  lemma {:induction false} LastByte(s: string, c: char)
    requires c as int < 0x80 && s != []
    ensures EncodeAll(s) != []
    ensures EncodeAll(s)[|EncodeAll(s)| - 1] == c as int <==> s[|s| - 1] == c
  {
    var n := |s| - 1;
    assert s == s[..n] + [s[n]];
    EncodeAllConcat(s[..n], [s[n]]);
    assert EncodeAll([s[n]]) == Encode(s[n]) + EncodeAll([s[n]][1..]) == Encode(s[n]);
    AsciiIsItself(s[n], c as int);
    hide EncodeAll;
    var last := Encode(s[n])[|Encode(s[n])| - 1];
    assert last in Encode(s[n]);
  }
}
