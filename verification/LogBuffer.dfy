/**
 The session's bounded in-memory ring of log lines (crates/micromux/src/model/memory.rs).

 `LongestFitting` says what the ring is for: it holds the longest end of what was pushed that both
 limits allow. The class reaches the same contents with eviction loops and a running byte count.
 */
module LogBuffer {
  import opened Prelude
  import opened Utf8Text
  import Utf8Codec

  datatype LogLine = LogLine(seqNo: nat, runGeneration: nat, timestamp: nat, line: string)

  datatype Retention = Retention(maxLines: Option<nat>, maxBytes: Option<nat>)

  function TotalBytes(entries: seq<LogLine>): nat {
    if entries == [] then 0 else ByteLen(entries[0].line) + TotalBytes(entries[1..])
  }

  predicate WithinLines(retention: Retention, entries: seq<LogLine>) {
    retention.maxLines.Some? ==> |entries| <= retention.maxLines.value
  }

  predicate WithinBytes(retention: Retention, entries: seq<LogLine>) {
    retention.maxBytes.Some? ==> TotalBytes(entries) <= retention.maxBytes.value
  }

  predicate Fits(retention: Retention, entries: seq<LogLine>) {
    WithinLines(retention, entries) && WithinBytes(retention, entries)
  }

  function Trimmed(retention: Retention, line: LogLine): LogLine {
    if retention.maxBytes.Some?
    then line.(line := TrimToLastBytes(line.line, retention.maxBytes.value))
    else line
  }

  function TrimAll(retention: Retention, lines: seq<LogLine>): (r: seq<LogLine>)
    ensures |r| == |lines|
    ensures forall i :: 0 <= i < |lines| ==> r[i] == Trimmed(retention, lines[i])
  {
    seq(|lines|, i requires 0 <= i < |lines| => Trimmed(retention, lines[i]))
  }

  /** The longest suffix of `lines` that both limits allow. */
  function LongestFitting(retention: Retention, lines: seq<LogLine>): seq<LogLine> {
    if lines == [] || Fits(retention, lines) then lines else LongestFitting(retention, lines[1..])
  }

  ghost predicate Precedes(a: LogLine, b: LogLine) {
    a.seqNo < b.seqNo
  }

  /** Strictly ascending numbers. The trigger keeps the solver from comparing every pair of lines. */
  ghost predicate Ascending(lines: seq<LogLine>) {
    forall i, j {:trigger Precedes(lines[i], lines[j])} ::
      0 <= i < j < |lines| ==> Precedes(lines[i], lines[j])
  }

  lemma AscendingAt(lines: seq<LogLine>, i: nat, j: nat)
    requires Ascending(lines) && i <= j < |lines|
    ensures i < j ==> lines[i].seqNo < lines[j].seqNo
    ensures lines[i].seqNo <= lines[j].seqNo
  {
    assert i < j ==> Precedes(lines[i], lines[j]);
  }

  lemma AscendingPrefix(lines: seq<LogLine>, n: nat)
    requires Ascending(lines) && n <= |lines|
    ensures Ascending(lines[..n])
  {
    assert forall i, j :: 0 <= i < j < n ==> Precedes(lines[i], lines[j]);
  }

  lemma AscendingSuffix(lines: seq<LogLine>, n: nat)
    requires Ascending(lines) && n <= |lines|
    ensures Ascending(lines[n..])
  {
    forall i, j | 0 <= i < j < |lines| - n ensures Precedes(lines[n..][i], lines[n..][j]) {
      AscendingAt(lines, n + i, n + j);
    }
  }

  lemma AscendingPush(lines: seq<LogLine>, line: LogLine)
    requires Ascending(lines) && (lines != [] ==> lines[|lines| - 1].seqNo < line.seqNo)
    ensures Ascending(lines + [line])
  {
    forall i, j | 0 <= i < j <= |lines| ensures Precedes((lines + [line])[i], (lines + [line])[j]) {
      AscendingAt(lines, i, Min(j, |lines| - 1));
    }
  }

  // ---------------------------------------------------------------- byte counts and suffixes

  lemma {:induction false} TotalBytesConcat(a: seq<LogLine>, b: seq<LogLine>)
    ensures TotalBytes(a + b) == TotalBytes(a) + TotalBytes(b)
  {
    if a == [] {
      assert a + b == b;
    } else {
      assert (a + b)[0] == a[0] && (a + b)[1..] == a[1..] + b;
      TotalBytesConcat(a[1..], b);
    }
  }

  lemma TotalBytesSuffix(lines: seq<LogLine>, k: nat)
    requires k <= |lines|
    ensures TotalBytes(lines[k..]) <= TotalBytes(lines)
  {
    assert lines == lines[..k] + lines[k..];
    TotalBytesConcat(lines[..k], lines[k..]);
  }

  /** What fits still fits when its oldest lines go. */
  lemma FitsSuffix(retention: Retention, lines: seq<LogLine>, k: nat)
    requires k <= |lines| && Fits(retention, lines)
    ensures Fits(retention, lines[k..])
  {
    TotalBytesSuffix(lines, k);
  }

  /** No cut before `k` leaves something that fits. */
  ghost predicate NoneFitBefore(retention: Retention, lines: seq<LogLine>, k: nat)
    requires k <= |lines|
  {
    forall i :: 0 <= i < k ==> !Fits(retention, lines[i..])
  }

  lemma NoneFitOneMore(retention: Retention, lines: seq<LogLine>, k: nat)
    requires k < |lines| && NoneFitBefore(retention, lines, k) && !Fits(retention, lines[k..])
    ensures NoneFitBefore(retention, lines, k + 1)
    ensures TotalBytes(lines[k..]) == ByteLen(lines[k].line) + TotalBytes(lines[k + 1..])
  {
    assert lines[k..][1..] == lines[k + 1..];
  }

  /** `LongestFitting` is characterised by fitting and by every longer suffix not fitting. */
  lemma {:induction false} LongestFittingIs(retention: Retention, lines: seq<LogLine>, k: nat)
    requires k <= |lines| && Fits(retention, lines[k..])
    requires NoneFitBefore(retention, lines, k)
    ensures LongestFitting(retention, lines) == lines[k..]
  {
    if k > 0 {
      assert lines[0..] == lines;
      assert forall i :: 0 <= i <= |lines| - 1 ==> lines[1..][i..] == lines[i + 1..];
      LongestFittingIs(retention, lines[1..], k - 1);
    } else {
      assert lines[0..] == lines;
    }
  }

  /** Where the cut falls. */
  lemma {:induction false} LongestFittingCut(retention: Retention, lines: seq<LogLine>) returns (k: nat)
    ensures k <= |lines|
    ensures LongestFitting(retention, lines) == lines[k..]
    ensures Fits(retention, lines[k..])
    ensures NoneFitBefore(retention, lines, k)
  {
    if lines == [] || Fits(retention, lines) {
      k := 0;
      assert lines[0..] == lines;
    } else {
      var rest := LongestFittingCut(retention, lines[1..]);
      k := rest + 1;
      assert lines[1..][rest..] == lines[k..];
      forall i | 0 <= i < k ensures !Fits(retention, lines[i..]) {
        if i == 0 {
          assert lines[0..] == lines;
        } else {
          assert lines[1..][i - 1..] == lines[i..];
        }
      }
    }
  }

  lemma NotFittingGrows(retention: Retention, a: seq<LogLine>, b: seq<LogLine>)
    requires !Fits(retention, a)
    ensures !Fits(retention, a + b)
  {
    TotalBytesConcat(a, b);
  }

  lemma NoneFitAcross(retention: Retention, a: seq<LogLine>, b: seq<LogLine>, k: nat, m: nat)
    requires k <= |a| && m <= |a| - k + |b|
    requires NoneFitBefore(retention, a, k) && NoneFitBefore(retention, a[k..] + b, m)
    ensures NoneFitBefore(retention, a + b, k + m)
  {
    hide Fits;
    forall i | 0 <= i < k + m ensures !Fits(retention, (a + b)[i..]) {
      if i < k {
        assert (a + b)[i..] == a[i..] + b;
        NotFittingGrows(retention, a[i..], b);
      } else {
        assert (a + b)[i..] == (a[k..] + b)[i - k..];
      }
    }
  }

  /** Cutting early loses nothing that a later cut would have kept. */
  lemma LongestFittingAbsorbs(retention: Retention, a: seq<LogLine>, b: seq<LogLine>)
    ensures LongestFitting(retention, LongestFitting(retention, a) + b)
         == LongestFitting(retention, a + b)
  {
    hide LongestFitting, Fits, NoneFitBefore;
    var k := LongestFittingCut(retention, a);
    var m := LongestFittingCut(retention, a[k..] + b);
    assert (a + b)[k + m..] == (a[k..] + b)[m..];
    NoneFitAcross(retention, a, b, k, m);
    LongestFittingIs(retention, a + b, k + m);
  }

  // ---------------------------------------------------------------- the ring as a specification

  /** Contents after pushing one line into a ring that holds `entries`. */
  function Pushed(retention: Retention, entries: seq<LogLine>, line: LogLine): seq<LogLine> {
    LongestFitting(retention, entries + [Trimmed(retention, line)])
  }

  function PushedAll(retention: Retention, entries: seq<LogLine>, lines: seq<LogLine>): seq<LogLine> {
    if lines == [] then entries
    else Pushed(retention, PushedAll(retention, entries, lines[..|lines| - 1]), lines[|lines| - 1])
  }

  function LastReplaced(retention: Retention, entries: seq<LogLine>, line: LogLine): seq<LogLine> {
    if entries != [] && entries[|entries| - 1].seqNo == line.seqNo
    then Pushed(retention, entries[..|entries| - 1], line)
    else entries
  }

  function ClearedBefore(entries: seq<LogLine>, nextSeq: nat): seq<LogLine> {
    if entries != [] && entries[0].seqNo < nextSeq then ClearedBefore(entries[1..], nextSeq) else entries
  }

  /** Whatever was appended, the ring holds exactly the longest end of it that the limits allow. */
  lemma {:induction false} RingHoldsLongestSuffix(retention: Retention, history: seq<LogLine>)
    ensures PushedAll(retention, [], history) == LongestFitting(retention, TrimAll(retention, history))
  {
    if history != [] {
      var n := |history| - 1;
      RingHoldsLongestSuffix(retention, history[..n]);
      LongestFittingAbsorbs(
        retention, TrimAll(retention, history[..n]), [Trimmed(retention, history[n])]);
      assert TrimAll(retention, history)
          == TrimAll(retention, history[..n]) + [Trimmed(retention, history[n])];
    }
  }

  lemma {:induction false} ClearedBeforeIsFilter(entries: seq<LogLine>, nextSeq: nat)
    requires Ascending(entries)
    ensures ClearedBefore(entries, nextSeq) == Filter(entries, (l: LogLine) => l.seqNo >= nextSeq)
  {
    if entries != [] {
      if entries[0].seqNo < nextSeq {
        ClearedBeforeIsFilter(entries[1..], nextSeq);
      } else {
        forall l | l in entries ensures l.seqNo >= nextSeq {
          var i :| 0 <= i < |entries| && entries[i] == l;
          AscendingAt(entries, 0, i);
        }
        FilterAll(entries, (l: LogLine) => l.seqNo >= nextSeq);
      }
    }
  }

  lemma {:induction false} ClearedBeforeIsSuffix(entries: seq<LogLine>, nextSeq: nat) returns (k: nat)
    ensures k <= |entries| && ClearedBefore(entries, nextSeq) == entries[k..]
  {
    if entries != [] && entries[0].seqNo < nextSeq {
      var rest := ClearedBeforeIsSuffix(entries[1..], nextSeq);
      k := rest + 1;
    } else {
      k := 0;
    }
  }

  // ---------------------------------------------------------------- what a push and a replacement leave

  function AllText(entries: seq<LogLine>): string {
    if entries == [] then [] else entries[0].line + AllText(entries[1..])
  }

  /** The bytes that count are those of the encoded text. */
  lemma {:induction false} TotalBytesIsEncoded(entries: seq<LogLine>)
    ensures TotalBytes(entries) == |Utf8Codec.EncodeAll(AllText(entries))|
  {
    if entries != [] {
      TotalBytesIsEncoded(entries[1..]);
      Utf8Codec.EncodeAllConcat(entries[0].line, AllText(entries[1..]));
      Utf8Codec.EncodedLength(entries[0].line);
    }
  }

  /** `text` is what is kept of a line: the longest end of it that the byte limit allows, if there is one. */
  ghost predicate IsKeptOf(retention: Retention, text: string, line: string) {
    match retention.maxBytes
    case None => text == line
    case Some(most) => IsLongestFittingSuffix(text, line, most)
  }

  /** `kept` is `all` without its first `k` lines: within both limits, as it would not be with one more. */
  ghost predicate IsLongestWithin(retention: Retention, kept: seq<LogLine>, all: seq<LogLine>, k: nat) {
    && k <= |all| && kept == all[k..]
    && (retention.maxLines.Some? ==> |kept| <= retention.maxLines.value)
    && (retention.maxBytes.Some? ==> TotalBytes(kept) <= retention.maxBytes.value)
    && (k > 0 ==>
          || (retention.maxLines.Some? && |kept| == retention.maxLines.value)
          || (retention.maxBytes.Some? && TotalBytes(all[k - 1..]) > retention.maxBytes.value))
  }

  /** A push keeps the end of the line, behind as many of the lines before as both limits allow. */
  lemma PushedMeans(retention: Retention, entries: seq<LogLine>, line: LogLine) returns (text: string, k: nat)
    ensures IsKeptOf(retention, text, line.line)
    ensures IsLongestWithin(retention, Pushed(retention, entries, line), entries + [line.(line := text)], k)
    ensures retention.maxLines != Some(0) ==> k <= |entries|
  {
    var trimmed := Trimmed(retention, line);
    var all := entries + [trimmed];
    text := trimmed.line;
    if retention.maxBytes.Some? {
      TrimToLastBytesIsLongestSuffix(line.line, retention.maxBytes.value);
    }
    k := LongestFittingCut(retention, all);
    assert all[|all| - 1..] == [trimmed];
    assert k > 0 ==> !Fits(retention, all[k - 1..]);
    hide LongestFitting, Trimmed, IsLongestFittingSuffix;
  }

  /**
   A replacement of the newest line puts the end of the new one in its place, whenever the ring may hold a
   line at all, behind as many of the lines before as both limits allow; any other changes nothing.
   */
  lemma LastReplacedMeans(retention: Retention, entries: seq<LogLine>, line: LogLine) returns (text: string, k: nat)
    ensures IsKeptOf(retention, text, line.line)
    ensures var after := LastReplaced(retention, entries, line);
      if entries != [] && entries[|entries| - 1].seqNo == line.seqNo then
        && IsLongestWithin(retention, after, entries[..|entries| - 1] + [line.(line := text)], k)
        && (retention.maxLines != Some(0) ==> after != [] && after[|after| - 1] == line.(line := text))
      else after == entries
  {
    var front := if entries == [] then [] else entries[..|entries| - 1];
    text, k := PushedMeans(retention, front, line);
    hide Pushed, IsKeptOf;
  }

  // ---------------------------------------------------------------- what every operation keeps

  ghost predicate AllTrimmed(retention: Retention, entries: seq<LogLine>) {
    forall i :: 0 <= i < |entries| ==> Trimmed(retention, entries[i]) == entries[i]
  }

  /** The invariant of the ring's contents. */
  ghost predicate WellKept(retention: Retention, entries: seq<LogLine>) {
    Fits(retention, entries) && AllTrimmed(retention, entries)
  }

  lemma TrimmedIdempotent(retention: Retention, line: LogLine)
    ensures Trimmed(retention, Trimmed(retention, line)) == Trimmed(retention, line)
  {
    if retention.maxBytes.Some? {
      TrimToLastBytesIdempotent(line.line, retention.maxBytes.value);
    }
  }

  lemma PushedKeeps(retention: Retention, entries: seq<LogLine>, line: LogLine)
    requires AllTrimmed(retention, entries)
    ensures WellKept(retention, Pushed(retention, entries, line))
    ensures Ascending(entries) && (forall l :: l in entries ==> l.seqNo < line.seqNo)
            ==> Ascending(Pushed(retention, entries, line))
  {
    TrimmedIdempotent(retention, line);
    var trimmed := Trimmed(retention, line);
    var k := LongestFittingCut(retention, entries + [trimmed]);
    hide LongestFitting, Fits, Trimmed, Ascending;
    if Ascending(entries) && forall l :: l in entries ==> l.seqNo < line.seqNo {
      TrimmedNumber(retention, line);
      AscendingExtended(entries, trimmed);
      AscendingSuffix(entries + [trimmed], k);
    }
  }

  lemma TrimmedNumber(retention: Retention, line: LogLine)
    ensures Trimmed(retention, line).seqNo == line.seqNo
  {
  }

  lemma AscendingExtended(entries: seq<LogLine>, line: LogLine)
    requires Ascending(entries) && forall l :: l in entries ==> l.seqNo < line.seqNo
    ensures Ascending(entries + [line])
  {
  }

  datatype Operation =
    | Append(line: LogLine)
    | ReplaceLast(line: LogLine)
    | ClearBefore(nextSeq: nat)
    | Reconfigure(retention: Retention)

  datatype Ring = Ring(retention: Retention, entries: seq<LogLine>)

  function Apply(ring: Ring, op: Operation): Ring {
    match op
    case Append(line) => ring.(entries := Pushed(ring.retention, ring.entries, line))
    case ReplaceLast(line) => ring.(entries := LastReplaced(ring.retention, ring.entries, line))
    case ClearBefore(nextSeq) => ring.(entries := ClearedBefore(ring.entries, nextSeq))
    case Reconfigure(retention) => Ring(retention, PushedAll(retention, [], ring.entries))
  }

  function ApplyAll(ring: Ring, ops: seq<Operation>): Ring {
    if ops == [] then ring else Apply(ApplyAll(ring, ops[..|ops| - 1]), ops[|ops| - 1])
  }

  /** The sequence numbers appended by a run. */
  ghost function AppendedNumbers(ops: seq<Operation>): set<nat> {
    set j | 0 <= j < |ops| && ops[j].Append? :: ops[j].line.seqNo
  }

  /** The writer numbers appended lines upward; nothing else is asked of a run. */
  ghost predicate NumbersUpward(ops: seq<Operation>) {
    forall j :: 0 <= j < |ops| && ops[j].Append? ==>
      forall n :: n in AppendedNumbers(ops[..j]) ==> n < ops[j].line.seqNo
  }

  /** Every number in the ring was appended at some step of the run. */
  ghost predicate NumbersFrom(entries: seq<LogLine>, numbers: set<nat>) {
    forall i :: 0 <= i < |entries| ==> entries[i].seqNo in numbers
  }

  lemma PushedAllShape(retention: Retention, lines: seq<LogLine>) returns (k: nat)
    ensures k <= |lines| && PushedAll(retention, [], lines) == TrimAll(retention, lines)[k..]
    ensures WellKept(retention, PushedAll(retention, [], lines))
  {
    RingHoldsLongestSuffix(retention, lines);
    k := LongestFittingCut(retention, TrimAll(retention, lines));
    forall i | 0 <= i < |lines|
      ensures Trimmed(retention, TrimAll(retention, lines)[i]) == TrimAll(retention, lines)[i]
    {
      TrimmedIdempotent(retention, lines[i]);
    }
  }

  /** Closure: over any run of operations the ring stays ascending, trimmed and inside both limits. */
  lemma {:induction false} RunsKeepRing(retention: Retention, ops: seq<Operation>)
    requires NumbersUpward(ops)
    ensures var ring := ApplyAll(Ring(retention, []), ops);
      && WellKept(ring.retention, ring.entries)
      && Ascending(ring.entries)
      && NumbersFrom(ring.entries, AppendedNumbers(ops))
  {
    if ops != [] {
      var n := |ops| - 1;
      var before := ops[..n];
      forall j | 0 <= j < n && before[j].Append?
        ensures forall m :: m in AppendedNumbers(before[..j]) ==> m < before[j].line.seqNo
      {
        assert before[..j] == ops[..j];
      }
      RunsKeepRing(retention, before);
      var ring := ApplyAll(Ring(retention, []), before);
      assert AppendedNumbers(before) <= AppendedNumbers(ops);
      if ops[n].Append? {
        AppendKeepsRing(ring.retention, ring.entries, ops[n].line, AppendedNumbers(before));
      } else {
        OtherStepKeepsRing(ring, ops[n], AppendedNumbers(before));
      }
    }
  }

  lemma AppendKeepsRing(retention: Retention, entries: seq<LogLine>, line: LogLine, numbers: set<nat>)
    requires WellKept(retention, entries) && Ascending(entries) && NumbersFrom(entries, numbers)
    requires forall n :: n in numbers ==> n < line.seqNo
    ensures WellKept(retention, Pushed(retention, entries, line))
    ensures Ascending(Pushed(retention, entries, line))
    ensures NumbersFrom(Pushed(retention, entries, line), numbers + {line.seqNo})
  {
    var all := entries + [Trimmed(retention, line)];
    var k := LongestFittingCut(retention, all);
    assert Pushed(retention, entries, line) == all[k..];
    hide Pushed, LongestFitting, Fits, Ascending;
    forall l | l in entries ensures l.seqNo < line.seqNo {
    }
    PushedKeeps(retention, entries, line);
    assert forall i :: 0 <= i < |all| ==> all[i].seqNo in numbers + {line.seqNo};
  }

  lemma ReplaceKeepsRing(retention: Retention, entries: seq<LogLine>, line: LogLine, numbers: set<nat>)
    requires WellKept(retention, entries) && Ascending(entries) && NumbersFrom(entries, numbers)
    ensures WellKept(retention, LastReplaced(retention, entries, line))
    ensures Ascending(LastReplaced(retention, entries, line))
    ensures NumbersFrom(LastReplaced(retention, entries, line), numbers)
  {
    if entries != [] && entries[|entries| - 1].seqNo == line.seqNo {
      var front := entries[..|entries| - 1];
      forall l | l in front ensures l.seqNo < line.seqNo {
        var i :| 0 <= i < |front| && front[i] == l;
        AscendingAt(entries, i, |entries| - 1);
      }
      PushedKeeps(retention, front, line);
      var k := LongestFittingCut(retention, front + [Trimmed(retention, line)]);
    }
  }

  lemma ReconfigureKeepsRing(retention: Retention, entries: seq<LogLine>, numbers: set<nat>)
    requires Ascending(entries) && NumbersFrom(entries, numbers)
    ensures WellKept(retention, PushedAll(retention, [], entries))
    ensures Ascending(PushedAll(retention, [], entries))
    ensures NumbersFrom(PushedAll(retention, [], entries), numbers)
  {
    hide PushedAll, WellKept;
    var k := PushedAllShape(retention, entries);
    var kept := PushedAll(retention, [], entries);
    forall i | 0 <= i < |kept| ensures kept[i].seqNo == entries[k + i].seqNo {
    }
    forall i, j | 0 <= i < j < |kept| ensures Precedes(kept[i], kept[j]) {
      AscendingAt(entries, k + i, k + j);
    }
  }

  lemma OtherStepKeepsRing(ring: Ring, op: Operation, numbers: set<nat>)
    requires WellKept(ring.retention, ring.entries) && Ascending(ring.entries)
    requires NumbersFrom(ring.entries, numbers) && !op.Append?
    ensures WellKept(Apply(ring, op).retention, Apply(ring, op).entries)
    ensures Ascending(Apply(ring, op).entries) && NumbersFrom(Apply(ring, op).entries, numbers)
  {
    if op.ReplaceLast? {
      ReplaceKeepsRing(ring.retention, ring.entries, op.line, numbers);
    } else if op.Reconfigure? {
      ReconfigureKeepsRing(op.retention, ring.entries, numbers);
    } else {
      var k := ClearedBeforeIsSuffix(ring.entries, op.nextSeq);
      FitsSuffix(ring.retention, ring.entries, k);
    }
  }

  /** Reconfiguring to the limits already in force changes nothing. */
  lemma ReconfigureSameRetention(retention: Retention, entries: seq<LogLine>)
    requires WellKept(retention, entries)
    ensures PushedAll(retention, [], entries) == entries
  {
    RingHoldsLongestSuffix(retention, entries);
    assert TrimAll(retention, entries) == entries;
  }

  // ---------------------------------------------------------------- queries

  function LinesTail(entries: seq<LogLine>, tail: Option<nat>): seq<LogLine> {
    entries[if tail.Some? then SaturatingSub(|entries|, tail.value) else 0..]
  }

  function FirstRetained(entries: seq<LogLine>): Option<nat> {
    if entries == [] then None else Some(entries[0].seqNo)
  }

  /** The retention marker, and the lines after a cursor found by binary search. */
  function LinesSince(entries: seq<LogLine>, after: nat): (Option<nat>, seq<LogLine>) {
    (FirstRetained(entries),
     entries[PartitionPoint(entries, (l: LogLine) => l.seqNo <= after)..])
  }

  lemma LinesSinceIsFilter(entries: seq<LogLine>, after: nat)
    requires Ascending(entries)
    ensures LinesSince(entries, after).1 == Filter(entries, (l: LogLine) => l.seqNo > after)
  {
    var n := PartitionPoint(entries, (l: LogLine) => l.seqNo <= after);
    assert forall i, j :: 0 <= i < j < |entries| ==> Precedes(entries[i], entries[j]);
    FilterIsSuffix(entries, (l: LogLine) => l.seqNo > after, n);
  }

  // ---------------------------------------------------------------- the ring itself

  class MemoryLogBuffer {
    var entries: seq<LogLine>
    var currentBytes: nat
    var retention: Retention

    ghost predicate Valid()
      reads this
    {
      currentBytes == TotalBytes(entries) && WellKept(retention, entries)
    }

    constructor (retention: Retention)
      ensures Valid() && entries == [] && this.retention == retention
    {
      this.entries := [];
      this.currentBytes := 0;
      this.retention := retention;
    }

    /** Drop the oldest line; the saturating subtraction never saturates. */
    method PopFront()
      requires entries != [] && currentBytes == TotalBytes(entries)
      modifies this`entries, this`currentBytes
      ensures entries == old(entries)[1..] && currentBytes == TotalBytes(entries)
      ensures currentBytes + ByteLen(old(entries)[0].line) == old(currentBytes)
    {
      currentBytes := SaturatingSub(currentBytes, ByteLen(entries[0].line));
      entries := entries[1..];
    }

    /** The first loop of `Push`: make room in bytes for `line`, which is not in the ring yet. */
    method EvictForBytes(line: LogLine) returns (ghost k: nat)
      requires currentBytes == TotalBytes(entries)
      requires WithinBytes(retention, [line])
      modifies this`entries, this`currentBytes
      ensures k <= |old(entries)| && entries == old(entries)[k..]
      ensures currentBytes == TotalBytes(entries) && WithinBytes(retention, entries + [line])
      ensures NoneFitBefore(retention, old(entries) + [line], k)
    {
      ghost var all := entries + [line];
      k := 0;
      TotalBytesConcat(entries, [line]);
      if retention.maxBytes.Some? {
        while currentBytes + ByteLen(line.line) > retention.maxBytes.value
          invariant k <= |old(entries)| && entries == old(entries)[k..]
          invariant currentBytes == TotalBytes(entries)
          invariant TotalBytes(entries + [line]) == currentBytes + ByteLen(line.line)
          invariant NoneFitBefore(retention, all, k)
          modifies this`entries, this`currentBytes
          decreases |entries|
        {
          if entries == [] {
            break;
          }
          assert all[k..] == entries + [line];
          NoneFitOneMore(retention, all, k);
          TotalBytesConcat(entries[1..], [line]);
          k := k + 1;
          PopFront();
        }
      }
    }

    /** The second loop of `Push`: drop lines beyond the line limit. */
    method EvictForLines(ghost all: seq<LogLine>, ghost from: nat) returns (ghost k: nat)
      requires currentBytes == TotalBytes(entries) && WithinBytes(retention, entries)
      requires from <= |all| && entries == all[from..] && NoneFitBefore(retention, all, from)
      modifies this`entries, this`currentBytes
      ensures k <= |all| && entries == all[k..] && NoneFitBefore(retention, all, k)
      ensures currentBytes == TotalBytes(entries) && Fits(retention, entries)
    {
      k := from;
      if retention.maxLines.Some? {
        while |entries| > retention.maxLines.value
          invariant k <= |all| && entries == all[k..] && NoneFitBefore(retention, all, k)
          invariant currentBytes == TotalBytes(entries) && WithinBytes(retention, entries)
          modifies this`entries, this`currentBytes
          decreases |entries|
        {
          if entries == [] {
            break;
          }
          NoneFitOneMore(retention, all, k);
          k := k + 1;
          PopFront();
        }
      }
    }

    method Push(pushed: LogLine)
      requires Valid()
      modifies this
      ensures Valid() && retention == old(retention)
      ensures entries == Pushed(retention, old(entries), pushed)
    {
      var line := pushed;
      if retention.maxBytes.Some? {
        line := line.(line := TrimToLastBytes(line.line, retention.maxBytes.value));
        TrimToLastBytesIsLongestSuffix(pushed.line, retention.maxBytes.value);
      }
      ghost var all := entries + [line];
      ghost var k := EvictForBytes(line);
      TotalBytesConcat(entries, [line]);
      entries := entries + [line];
      currentBytes := currentBytes + ByteLen(line.line);
      assert entries == all[k..];
      k := EvictForLines(all, k);
      LongestFittingIs(retention, all, k);
      PushedKeeps(retention, old(entries), pushed);
    }

    method Append(line: LogLine)
      requires Valid()
      modifies this
      ensures Valid() && retention == old(retention)
      ensures entries == Apply(Ring(retention, old(entries)), Operation.Append(line)).entries
    {
      Push(line);
    }

    method ReplaceLast(line: LogLine)
      requires Valid()
      modifies this
      ensures Valid() && retention == old(retention)
      ensures entries == Apply(Ring(retention, old(entries)), Operation.ReplaceLast(line)).entries
    {
      if entries != [] && entries[|entries| - 1].seqNo == line.seqNo {
        var last := entries[|entries| - 1];
        TotalBytesConcat(entries[..|entries| - 1], [last]);
        assert entries == entries[..|entries| - 1] + [last];
        currentBytes := SaturatingSub(currentBytes, ByteLen(last.line));
        entries := entries[..|entries| - 1];
        Push(line);
      }
    }

    method Reconfigure(newRetention: Retention)
      modifies this
      ensures Valid() && retention == newRetention
      ensures entries == Apply(Ring(old(retention), old(entries)), Operation.Reconfigure(newRetention)).entries
    {
      var taken := entries;
      entries := [];
      currentBytes := 0;
      retention := newRetention;
      for i := 0 to |taken|
        invariant Valid() && retention == newRetention
        invariant entries == PushedAll(newRetention, [], taken[..i])
      {
        Push(taken[i]);
        assert taken[..i + 1][..i] == taken[..i];
      }
      assert taken[..|taken|] == taken;
    }

    method ClearBeforeNextSeq(nextSeq: nat)
      requires Valid()
      modifies this
      ensures Valid() && retention == old(retention)
      ensures entries == Apply(Ring(retention, old(entries)), Operation.ClearBefore(nextSeq)).entries
    {
      while entries != [] && entries[0].seqNo < nextSeq
        invariant Valid() && retention == old(retention)
        invariant ClearedBefore(entries, nextSeq) == ClearedBefore(old(entries), nextSeq)
        decreases |entries|
      {
        FitsSuffix(retention, entries, 1);
        PopFront();
      }
    }

    method Lines(tail: Option<nat>) returns (lines: seq<LogLine>)
      requires Valid()
      ensures lines == LinesTail(entries, tail)
      ensures |lines| == (if tail.Some? then Min(tail.value, |entries|) else |entries|)
      ensures lines == entries[|entries| - |lines|..]
    {
      var skip := if tail.Some? then SaturatingSub(|entries|, tail.value) else 0;
      lines := entries[skip..];
    }
  }
}
