/**
 Reading the output of a probe line by line while keeping only the front of each line
 (crates/micromux/src/health_check.rs).

 The bytes arrive in chunks of any size. What is read must not depend on where they are split.
 */
module BoundedReader {
  import opened Prelude
  import opened Utf8Codec
  import opened Utf8Text

  /** `MODEL_STRING_MAX_BYTES`. */
  const TEXT_LIMIT: nat := 16 * 1024
  /** Three bytes more, so that a character the limit cuts is not mistaken for a broken one. */
  const CAPTURE_LIMIT: nat := TEXT_LIMIT + 3
  const NEWLINE: Byte := 0x0A
  const RETURN: Byte := 0x0D

  /** What the underlying reader answers next: some bytes, or an error. */
  datatype Read = Data(bytes: seq<Byte>) | Broken
  datatype Outcome = Line(text: string) | End | IoError

  // ---------------------------------------------------------------- the stream behind the chunks

  /** The bytes up to the end of the stream or the next error. */
  function Ahead(answers: seq<Read>): seq<Byte> {
    if answers == [] || answers[0].Broken? then [] else answers[0].bytes + Ahead(answers[1..])
  }

  /** What comes after the next error, if there is one. */
  function Behind(answers: seq<Read>): (r: Option<seq<Read>>)
    ensures r.Some? ==> |r.value| < |answers|
  {
    if answers == [] then None
    else if answers[0].Broken? then Some(answers[1..])
    else Behind(answers[1..])
  }

  /** Reads deliver something; an empty answer would mean the end. */
  ghost predicate NoneEmpty(answers: seq<Read>) {
    forall i :: 0 <= i < |answers| && answers[i].Data? ==> answers[i].bytes != []
  }

  /** The position after the first `x`; the length where there is none. */
  function Through<T(==)>(s: seq<T>, x: T): (n: nat)
    ensures n <= |s|
    ensures s != [] ==> n > 0
    ensures n < |s| ==> s[n - 1] == x
    ensures forall i :: 0 <= i < n - 1 ==> s[i] != x
    ensures n == |s| && s != [] && x in s ==> s[n - 1] == x
  {
    if s == [] then 0 else if s[0] == x then 1 else 1 + Through(s[1..], x)
  }

  function WithoutLast<T(==)>(s: seq<T>, x: T): seq<T> {
    if s != [] && s[|s| - 1] == x then s[..|s| - 1] else s
  }

  /** Without a newline at the end, and then without a carriage return at the end. */
  function Chomped<T(==)>(s: seq<T>, newline: T, ret: T): seq<T> {
    WithoutLast(WithoutLast(s, newline), ret)
  }

  /** What is kept of a line while it is read. */
  function Captured(taken: seq<Byte>): seq<Byte> {
    taken[..Min(|taken|, CAPTURE_LIMIT)]
  }

  function Answer(taken: seq<Byte>): string {
    TruncateToFirstBytes(Lossy(Chomped(Captured(taken), NEWLINE, RETURN)), TEXT_LIMIT)
  }

  predicate HasLine(stream: seq<Byte>, behind: Option<seq<Read>>) {
    NEWLINE in stream || (stream != [] && behind.None?)
  }

  /** Every line of the stream. An error loses the line that it interrupts. */
  function LinesOf(stream: seq<Byte>, behind: Option<seq<Read>>): seq<string>
    decreases if behind.None? then 0 else 1 + |behind.value|, |stream|
  {
    if HasLine(stream, behind) then
      var n := Through(stream, NEWLINE);
      [Answer(stream[..n])] + LinesOf(stream[n..], behind)
    else if behind.None? then []
    else LinesOf(Ahead(behind.value), Behind(behind.value))
  }

  // ---------------------------------------------------------------- the code

  /** `BufReader`, and the `line` buffer that its user hands in again for every line. */
  class Reader {
    var buffer: seq<Byte>
    var answers: seq<Read>
    var line: seq<Byte>

    constructor (answers: seq<Read>)
      requires NoneEmpty(answers)
      ensures Valid() && buffer == [] && this.answers == answers && line == []
    {
      buffer, this.answers, line := [], answers, [];
    }

    ghost predicate Valid()
      reads this`answers
    {
      NoneEmpty(answers)
    }

    ghost function Stream(): seq<Byte>
      reads this`buffer, this`answers
    {
      buffer + Ahead(answers)
    }

    /** `fill_buf`: asks the underlying reader only when nothing is buffered. */
    method FillBuf() returns (failed: bool)
      requires Valid()
      modifies this`buffer, this`answers
      ensures Valid()
      ensures failed ==>
        old(Stream()) == [] && old(Behind(answers)) == Some(answers) && buffer == []
      ensures !failed ==>
        Stream() == old(Stream()) && Behind(answers) == old(Behind(answers)) && (buffer == [] ==> answers == [])
    {
      if buffer != [] || answers == [] {
        return false;
      }
      var next := answers[0];
      answers := answers[1..];
      match next {
        case Data(bytes) =>
          buffer := bytes;
          return false;
        case Broken =>
          return true;
      }
    }

    /** `read_bounded_line`. */
    method ReadBoundedLine() returns (outcome: Outcome)
      requires Valid()
      modifies this
      ensures Valid() && |line| <= 16 * 1024 + 3
      ensures var (stream, behind) := (old(Stream()), old(Behind(answers)));
        var n := Through(stream, NEWLINE);
        if HasLine(stream, behind) then
          outcome == Line(Answer(stream[..n])) && Stream() == stream[n..] && Behind(answers) == behind
        else if behind.None? then
          outcome == End && Stream() == [] && Behind(answers) == None
        else
          outcome == IoError && buffer == [] && answers == behind.value
    {
      hide *;
      var state := CaptureLine();
      match state {
        case IoError => return IoError;
        case End => return End;
        case Line(_) => outcome := Finish();
      }
      AnswerIs(old(Stream())[..Through(old(Stream()), NEWLINE)]);
    }

    /** Its loop. The text is filled in by `Finish`. */
    method CaptureLine() returns (state: Outcome)
      requires Valid()
      modifies this
      ensures Valid() && |line| <= 16 * 1024 + 3
      ensures var (stream, behind) := (old(Stream()), old(Behind(answers)));
        var n := Through(stream, NEWLINE);
        if HasLine(stream, behind) then
          state.Line? && line == Captured(stream[..n]) && Stream() == stream[n..] && Behind(answers) == behind
        else if behind.None? then
          state == End && Stream() == [] && Behind(answers) == None
        else
          state == IoError && buffer == [] && answers == behind.value
    {
      line := [];
      ghost var stream, behind, taken := Stream(), Behind(answers), [];
      var sawInput := false;
      assert [] + stream == stream && Captured([]) == [];
      hide *;
      while true
        invariant Valid() && NEWLINE !in taken && (sawInput <==> taken != [])
        invariant line == Captured(taken) && stream == taken + Stream() && Behind(answers) == behind
        decreases |Stream()|
      {
        var failed := FillBuf();
        StreamIs(this);
        if failed || buffer == [] {
          AheadOfNothing(answers);
          assert stream == taken + [] == taken;
          NoNewlineAhead(taken, behind);
          return if failed then IoError else if sawInput then Line("") else End;
        }
        sawInput := true;
        var end := Through(buffer, NEWLINE);
        var remaining := SaturatingSub(CAPTURE_LIMIT, |line|);
        TakenGrows(taken, buffer, Ahead(answers), end);
        CapturedGrows(taken, buffer, end);
        line := line + buffer[..Min(end, remaining)];
        var finished := buffer[end - 1] == NEWLINE;
        taken := taken + buffer[..end];
        buffer := buffer[end..];
        StreamIs(this);
        if finished {
          NewlineAhead(stream, taken, Stream(), behind);
          return Line("");
        }
      }
    }

    /** The end of `read_bounded_line`: drop the line ending, decode and cut. */
    method Finish() returns (outcome: Outcome)
      modifies this`line
      ensures |line| <= |old(line)|
      ensures outcome == Line(TruncateToFirstBytes(Lossy(Chomped(old(line), NEWLINE, RETURN)), TEXT_LIMIT))
    {
      if line != [] && line[|line| - 1] == NEWLINE {
        line := line[..|line| - 1];
      }
      if line != [] && line[|line| - 1] == RETURN {
        line := line[..|line| - 1];
      }
      return Line(TruncateToFirstBytes(Lossy(line), TEXT_LIMIT));
    }

    /** The loop of `spawn_output_task`: errors are logged, and reading goes on. */
    method ReadAll() returns (lines: seq<string>)
      requires Valid()
      modifies this
      ensures lines == LinesOf(old(Stream()), old(Behind(answers)))
    {
      lines := [];
      while true
        invariant Valid()
        invariant LinesOf(old(Stream()), old(Behind(answers))) == lines + LinesOf(Stream(), Behind(answers))
        decreases if Behind(answers).None? then 0 else 1 + |Behind(answers).value|, |Stream()|
      {
        ghost var stream, behind := Stream(), Behind(answers);
        LinesStep(lines, stream, behind);
        hide *;
        var outcome := ReadBoundedLine();
        match outcome {
          case Line(text) => lines := lines + [text];
          case End => break;
          case IoError => AfterError(this);
        }
      }
      assert lines + [] == lines;
    }
  }

  lemma AfterError(reader: Reader)
    requires reader.buffer == []
    ensures reader.Stream() == Ahead(reader.answers)
  {
    assert [] + Ahead(reader.answers) == Ahead(reader.answers);
  }

  lemma AheadOfNothing(answers: seq<Read>)
    ensures answers == [] ==> Ahead(answers) == [] && Behind(answers) == None
  {
  }

  lemma {:induction false} ThroughNone<T>(s: seq<T>, x: T)
    requires x !in s
    ensures Through(s, x) == |s|
  {
    if s != [] {
      ThroughNone(s[1..], x);
    }
  }

  lemma {:induction false} ThroughAfter<T>(a: seq<T>, b: seq<T>, x: T)
    requires x !in a
    ensures Through(a + b, x) == |a| + Through(b, x)
  {
    if a == [] {
      assert a + b == b;
    } else {
      assert (a + b)[1..] == a[1..] + b;
      ThroughAfter(a[1..], b, x);
    }
  }

  lemma StreamIs(reader: Reader)
    ensures reader.Stream() == reader.buffer + Ahead(reader.answers)
    ensures reader.buffer == [] && reader.answers == [] ==> reader.Stream() == []
  {
  }

  lemma NoNewlineAhead(taken: seq<Byte>, behind: Option<seq<Read>>)
    requires NEWLINE !in taken
    ensures HasLine(taken, behind) <==> taken != [] && behind.None?
    ensures Through(taken, NEWLINE) == |taken| && taken[..|taken|] == taken && taken[|taken|..] == []
    ensures |Captured(taken)| <= 16 * 1024 + 3
  {
    ThroughNone(taken, NEWLINE);
  }

  lemma NewlineAhead(stream: seq<Byte>, after: seq<Byte>, rest: seq<Byte>, behind: Option<seq<Read>>)
    requires EndsLine(stream, after, rest)
    ensures HasLine(stream, behind) && |Captured(after)| <= 16 * 1024 + 3
    ensures stream[..Through(stream, NEWLINE)] == after && stream[Through(stream, NEWLINE)..] == rest
  {
  }

  /** One buffer more: either it ends the line, or it goes into the line as a whole. */
  lemma {:induction false} TakenGrows(taken: seq<Byte>, buffer: seq<Byte>, ahead: seq<Byte>, end: nat)
    requires NEWLINE !in taken && buffer != [] && end == Through(buffer, NEWLINE)
    ensures 0 < end <= |buffer|
    ensures taken + (buffer + ahead) == (taken + buffer[..end]) + (buffer[end..] + ahead)
    ensures buffer[end - 1] != NEWLINE ==> NEWLINE !in taken + buffer[..end]
    ensures buffer[end - 1] == NEWLINE ==>
      EndsLine(taken + (buffer + ahead), taken + buffer[..end], buffer[end..] + ahead)
  {
    hide *;
    NoneBefore(buffer, NEWLINE);
    SplitAt(buffer, end);
    Grows(taken, buffer[..end - 1], buffer[end - 1], buffer[end..], ahead);
  }

  lemma SplitAt<T>(s: seq<T>, end: nat)
    requires 0 < end <= |s|
    ensures s[..end] == s[..end - 1] + [s[end - 1]]
    ensures s == (s[..end - 1] + [s[end - 1]]) + s[end..]
  {
  }

  lemma Grows(taken: seq<Byte>, front: seq<Byte>, x: Byte, back: seq<Byte>, ahead: seq<Byte>)
    requires NEWLINE !in taken && NEWLINE !in front
    ensures var (stream, after, rest) :=
        (taken + (((front + [x]) + back) + ahead), taken + (front + [x]), back + ahead);
      && stream == after + rest
      && (if x == NEWLINE then EndsLine(stream, after, rest) else NEWLINE !in after)
  {
    hide *;
    Regroup(taken, front + [x], back, ahead);
    ConcatAssociative(taken, front, [x]);
    if x == NEWLINE {
      LineEnds(taken + front, back + ahead);
    }
  }

  lemma NoneBefore<T>(s: seq<T>, x: T)
    requires s != []
    ensures 0 < Through(s, x) && x !in s[..Through(s, x) - 1]
  {
  }

  /** `after` is the first line of the stream, and `rest` is what follows it. */
  ghost predicate EndsLine(stream: seq<Byte>, after: seq<Byte>, rest: seq<Byte>) {
    && NEWLINE in stream && Through(stream, NEWLINE) == |after|
    && stream[..|after|] == after && stream[|after|..] == rest
  }

  lemma LineEnds(front: seq<Byte>, rest: seq<Byte>)
    requires NEWLINE !in front
    ensures EndsLine((front + [NEWLINE]) + rest, front + [NEWLINE], rest)
  {
    ThroughEnd(front, rest, NEWLINE);
    hide Through;
    ConcatAssociative(front, [NEWLINE], rest);
    assert ((front + [NEWLINE]) + rest)[|front|] == NEWLINE;
  }

  lemma Regroup<T>(a: seq<T>, b: seq<T>, c: seq<T>, d: seq<T>)
    ensures a + ((b + c) + d) == (a + b) + (c + d)
  {
  }

  lemma ThroughEnd<T>(a: seq<T>, b: seq<T>, x: T)
    requires x !in a
    ensures Through(a + ([x] + b), x) == |a| + 1
  {
    ThroughAfter(a, [x] + b, x);
  }

  lemma AnswerIs(taken: seq<Byte>)
    ensures Answer(taken) == TruncateToFirstBytes(Lossy(Chomped(Captured(taken), NEWLINE, RETURN)), TEXT_LIMIT)
  {
    hide TruncateToFirstBytes, Lossy, Chomped, Captured;
  }

  lemma LinesStep(lines: seq<string>, stream: seq<Byte>, behind: Option<seq<Read>>)
    ensures HasLine(stream, behind) ==>
      var n := Through(stream, NEWLINE);
      && |stream[n..]| < |stream|
      && lines + LinesOf(stream, behind) == (lines + [Answer(stream[..n])]) + LinesOf(stream[n..], behind)
    ensures !HasLine(stream, behind) ==>
      LinesOf(stream, behind)
        == if behind.None? then [] else LinesOf(Ahead(behind.value), Behind(behind.value))
  {
    hide Answer, Through, Ahead, Behind;
    if HasLine(stream, behind) {
      var n := Through(stream, NEWLINE);
      ConcatAssociative(lines, [Answer(stream[..n])], LinesOf(stream[n..], behind));
    }
  }

  lemma CapturedGrows(taken: seq<Byte>, buffer: seq<Byte>, end: nat)
    requires end <= |buffer|
    ensures var remaining := SaturatingSub(CAPTURE_LIMIT, |Captured(taken)|);
      Captured(taken) + buffer[..Min(end, remaining)] == Captured(taken + buffer[..end])
  {
  }

  // ---------------------------------------------------------------- text

  /** The lines of a text, without their endings and cut to the limit between characters. */
  function TextLines(text: string): seq<string>
    decreases |text|
  {
    if text == [] then []
    else
      var n := Through(text, '\n');
      [TruncateToFirstBytes(Chomped(text[..n], '\n', '\r'), TEXT_LIMIT)] + TextLines(text[n..])
  }

  lemma {:induction false} EncodedThrough(text: string)
    ensures Through(EncodeAll(text), NEWLINE) == |EncodeAll(text[..Through(text, '\n')])|
  {
    if text != [] {
      var rest := text[1..];
      var n := Through(rest, '\n');
      EncodedThrough(rest);
      assert text[..1 + n] == [text[0]] + rest[..n] && text[..1] == [text[0]] + [];
      EncodeAllFront(text[0], rest[..n]);
      EncodeAllFront(text[0], []);
      EncodeAllFront(text[0], rest);
      assert text == [text[0]] + rest;
      AsciiIsItself(text[0], NEWLINE);
      if text[0] != '\n' {
        ThroughAfter(Encode(text[0]), EncodeAll(rest), NEWLINE);
      }
    }
  }

  lemma EncodeAllFront(c: char, rest: string)
    ensures EncodeAll([c] + rest) == Encode(c) + EncodeAll(rest)
    ensures EncodeAll([]) == []
  {
    assert ([c] + rest)[1..] == rest;
  }

  /** Line endings are ASCII, so dropping them and encoding may be swapped. */
  lemma WithoutLastEncoding(s: string, c: char, b: Byte)
    requires c as int == b < 0x80
    ensures WithoutLast(EncodeAll(s), b) == EncodeAll(WithoutLast(s, c))
  {
    if s != [] {
      var n := |s| - 1;
      assert Encode(c) == [b];
      LastByte(s, c);
      EncodeAllLast(s);
      hide Encode, EncodeAll;
      assert s[n] == c ==> (EncodeAll(s[..n]) + [b])[..|EncodeAll(s[..n])|] == EncodeAll(s[..n]);
    }
  }

  lemma {:induction false} EncodeAllLast(s: string)
    requires s != []
    ensures EncodeAll(s) == EncodeAll(s[..|s| - 1]) + Encode(s[|s| - 1])
  {
    hide Encode, EncodeAll;
    var front, last := s[..|s| - 1], s[|s| - 1];
    assert s == front + [last] && [last] == [last] + [];
    EncodeAllConcat(front, [last]);
    EncodeAllFront(last, []);
    assert Encode(last) + [] == Encode(last);
  }

  lemma ChompedEncoding(s: string)
    ensures Chomped(EncodeAll(s), NEWLINE, RETURN) == EncodeAll(Chomped(s, '\n', '\r'))
  {
    hide WithoutLast, EncodeAll;
    WithoutLastEncoding(s, '\n', NEWLINE);
    WithoutLastEncoding(WithoutLast(s, '\n'), '\r', RETURN);
  }

  /**
   What is kept of a line and cleaned of line endings is the front of the cleaned line: all of it,
   or at least two bytes more than the limit.
   */
  lemma CapturedIsFront(line: seq<Byte>)
    requires forall i :: 0 <= i < |line| - 1 ==> line[i] != NEWLINE
    ensures var (kept, all) := (Chomped(Captured(line), NEWLINE, RETURN), Chomped(line, NEWLINE, RETURN));
      kept <= all && (kept == all || |kept| >= TEXT_LIMIT + 2)
  {
    if |line| <= CAPTURE_LIMIT {
      assert Captured(line) == line;
    } else {
      var captured := line[..CAPTURE_LIMIT];
      assert captured[CAPTURE_LIMIT - 1] == line[CAPTURE_LIMIT - 1];
    }
  }

  /** Behind a point where neither continuation fits, both texts are cut alike. */
  lemma {:induction false} SameCut(front: string, a: string, b: string, limit: nat)
    requires a == [] || ByteLen(front) + CharWidth(a[0]) > limit
    requires b == [] || ByteLen(front) + CharWidth(b[0]) > limit
    ensures TruncateToFirstBytes(front + a, limit) == TruncateToFirstBytes(front + b, limit)
  {
    CutInFront(front, a, limit);
    CutInFront(front, b, limit);
    hide TruncateToFirstBytes;
    LongestPrefixIsUnique(TruncateToFirstBytes(front + a, limit), TruncateToFirstBytes(front + b, limit), front, limit);
  }

  lemma {:induction false} CutInFront(front: string, a: string, limit: nat)
    requires a == [] || ByteLen(front) + CharWidth(a[0]) > limit
    ensures IsLongestFittingPrefix(TruncateToFirstBytes(front + a, limit), front, limit)
  {
    var r := TruncateToFirstBytes(front + a, limit);
    TruncateToFirstBytesIsLongestPrefix(front + a, limit);
    hide TruncateToFirstBytes, ByteLen;
    assert (front + a)[..|r|] == r;
    if |r| > |front| {
      ByteLenSplitAt(front, a, |r|);
    }
    forall k | |r| < k <= |front| ensures limit < ByteLen(front[..k]) {
      assert (front + a)[..k] == front[..k];
    }
  }

  lemma ByteLenSplitAt(front: string, a: string, k: nat)
    requires |front| < k <= |front| + |a|
    ensures ByteLen((front + a)[..k]) >= ByteLen(front) + CharWidth(a[0])
  {
    var more := a[..k - |front|];
    assert (front + a)[..k] == front + more;
    ByteLenConcat(front, more);
  }

  /** One line of text: the longest front of it that fits, whatever was captured of its bytes. */
  lemma {:induction false} LineIsCut(line: string)
    requires forall i :: 0 <= i < |line| - 1 ==> line[i] != '\n'
    ensures Answer(EncodeAll(line)) == TruncateToFirstBytes(Chomped(line, '\n', '\r'), TEXT_LIMIT)
  {
    hide *;
    var text, bytes := Chomped(line, '\n', '\r'), EncodeAll(line);
    ChompedEncoding(line);
    NewlineOnlyAtEnd(line);
    CapturedIsFront(bytes);
    AnswerIs(bytes);
    var kept := Chomped(Captured(bytes), NEWLINE, RETURN);
    if kept == EncodeAll(text) {
      LossyReadsBack(text);
    } else {
      assert kept == EncodeAll(text)[..|kept|];
      FrontIsCut(text, |kept|);
    }
  }

  lemma NewlineOnlyAtEnd(line: string)
    requires forall i :: 0 <= i < |line| - 1 ==> line[i] != '\n'
    ensures forall i :: 0 <= i < |EncodeAll(line)| - 1 ==> EncodeAll(line)[i] != NEWLINE
  {
    if line != [] {
      var n := |line| - 1;
      assert line == line[..n] + [line[n]];
      EncodeAllConcat(line[..n], [line[n]]);
      EncodeAllFront(line[n], []);
      assert [line[n]] == [line[n]] + [];
      AsciiIn(line[..n], '\n');
      AsciiIsItself(line[n], NEWLINE);
      var front, last := EncodeAll(line[..n]), Encode(line[n]);
      assert EncodeAll(line) == front + last;
      hide EncodeAll, Encode;
      forall i | 0 <= i < |front + last| - 1 ensures (front + last)[i] != NEWLINE {
        if i >= |front| {
          assert (front + last)[i] == last[i - |front|] && last[i - |front|] in last;
        } else {
          assert front[i] in front;
        }
      }
    }
  }

  lemma {:induction false} FrontIsCut(text: string, n: nat)
    requires TEXT_LIMIT + 2 <= n < |EncodeAll(text)|
    ensures TruncateToFirstBytes(Lossy(EncodeAll(text)[..n]), TEXT_LIMIT) == TruncateToFirstBytes(text, TEXT_LIMIT)
  {
    hide *;
    var k, inside := CutFalls(text, n);
    var front, rest := text[..k], text[k..];
    EncodedLength(front);
    var broken := if inside == 0 then [] else Encode(text[k])[..inside];
    LossyOfBroken(front, broken);
    var more := if inside == 0 then [] else [REPLACEMENT];
    if inside > 0 {
      LossyOfPart(text[k], inside);
    } else {
      LossyOfNothing();
    }
    WidthsAre(text[k]);
    assert text == front + rest;
    SameCut(front, more, rest, TEXT_LIMIT);
  }

  lemma LossyOfNothing()
    ensures Lossy([]) == []
  {
  }

  lemma WidthsAre(c: char)
    ensures 1 <= CharWidth(c) <= 4 && CharWidth(REPLACEMENT) == 3
  {
  }

  lemma {:induction false} LinesOfText(text: string)
    ensures LinesOf(EncodeAll(text), None) == TextLines(text)
    decreases |text|
  {
    hide *;
    if text == [] {
      NoLines();
    } else {
      var n := Through(text, '\n');
      var line, rest := text[..n], text[n..];
      LinesOfText(rest);
      FirstTextLine(text);
      LineIsCut(line);
      EncodedThrough(text);
      EncodeAllConcat(line, rest);
      assert text == line + rest;
      EncodeAllLast(line);
      WidthsAre(line[n - 1]);
      FirstLine(EncodeAll(line), EncodeAll(rest));
    }
  }

  lemma NoLines()
    ensures EncodeAll([]) == [] && LinesOf([], None) == [] && TextLines([]) == []
  {
  }

  lemma FirstTextLine(text: string)
    requires text != []
    ensures var n := Through(text, '\n');
      n > 0 && (forall i :: 0 <= i < n - 1 ==> text[i] != '\n')
      && TextLines(text)
         == [TruncateToFirstBytes(Chomped(text[..n], '\n', '\r'), TEXT_LIMIT)] + TextLines(text[n..])
  {
    hide TruncateToFirstBytes, Chomped;
  }

  lemma FirstLine(line: seq<Byte>, rest: seq<Byte>)
    requires line != [] && Through(line + rest, NEWLINE) == |line|
    ensures LinesOf(line + rest, None) == [Answer(line)] + LinesOf(rest, None)
  {
    hide Answer, Through;
    assert (line + rest)[..|line|] == line && (line + rest)[|line|..] == rest;
  }

  /**
   What the lines of a text are: up to each line feed, or to the end, without one carriage return before
   that, and cut to the longest front that fits 16 KiB.
   */
  lemma TextLinesMean(line: string, rest: string) returns (cut: string)
    requires '\n' !in line && (line == [] || line[|line| - 1] != '\r')
    ensures IsLongestFittingPrefix(cut, line, 16 * 1024)
    ensures TextLines(line + "\n" + rest) == [cut] + TextLines(rest)
    ensures TextLines(line + "\r\n" + rest) == [cut] + TextLines(rest)
    ensures line != [] ==> TextLines(line) == [cut]
    ensures TextLines(line + "\r") == [cut] && TextLines([]) == []
  {
    cut := TruncateToFirstBytes(line, TEXT_LIMIT);
    TruncateToFirstBytesIsLongestPrefix(line, TEXT_LIMIT);
    EndingsChomped(line);
    assert TextLines([]) == [];
    hide TruncateToFirstBytes, IsLongestFittingPrefix, TextLines, Chomped;
    EndedLine(line, line + "\n", rest);
    EndedLine(line, line + "\r\n", rest);
    if line != [] {
      LastTextLine(line);
    }
    LastTextLine(line + "\r");
  }

  lemma EndingsChomped(line: string)
    requires '\n' !in line && (line == [] || line[|line| - 1] != '\r')
    ensures Chomped(line, '\n', '\r') == Chomped(line + "\r", '\n', '\r') == line
    ensures Chomped(line + "\n", '\n', '\r') == Chomped(line + "\r\n", '\n', '\r') == line
  {
    assert line + "\n" == line + ['\n'] && line + "\r\n" == (line + "\r") + ['\n'];
    assert (line + "\r")[..|line|] == line && (line + "\n")[..|line|] == line;
    assert (line + "\r\n")[..|line| + 1] == line + "\r";
  }

  lemma EndedLine(line: string, ended: string, rest: string)
    requires '\n' !in line && (ended == line + "\n" || ended == line + "\r\n")
    ensures TextLines(ended + rest) == [TruncateToFirstBytes(Chomped(ended, '\n', '\r'), TEXT_LIMIT)] + TextLines(rest)
  {
    var front := ended[..|ended| - 1];
    assert ended == front + ['\n'] && '\n' !in front;
    ThroughEnd(front, rest, '\n');
    hide Chomped, TruncateToFirstBytes, Through;
    assert ended + rest == front + (['\n'] + rest);
    assert (ended + rest)[..|ended|] == ended && (ended + rest)[|ended|..] == rest;
  }

  lemma LastTextLine(line: string)
    requires '\n' !in line && line != []
    ensures TextLines(line) == [TruncateToFirstBytes(Chomped(line, '\n', '\r'), TEXT_LIMIT)]
  {
    ThroughNone(line, '\n');
    hide Chomped, TruncateToFirstBytes, Through;
    assert line[..|line|] == line && line[|line|..] == [];
  }

  lemma {:induction false} DataOnly(answers: seq<Read>)
    ensures (forall i :: 0 <= i < |answers| ==> answers[i].Data?) <==> Behind(answers).None?
  {
    if answers != [] {
      DataOnly(answers[1..]);
    }
  }

  /**
   However the encoding of a text is split into reads, every line of the text comes out once, as the
   longest front of the line without its ending that fits the limit.
   */
  lemma {:induction false} ChunksDoNotMatter(text: string, answers: seq<Read>)
    requires (forall i :: 0 <= i < |answers| ==> answers[i].Data?) && Ahead(answers) == EncodeAll(text)
    ensures LinesOf(Ahead(answers), Behind(answers)) == TextLines(text)
  {
    DataOnly(answers);
    hide *;
    LinesOfText(text);
  }

  // ---------------------------------------------------------------- errors

  lemma {:induction false} AheadOfError(before: seq<Read>, after: seq<Read>)
    requires forall i :: 0 <= i < |before| ==> before[i].Data?
    ensures Ahead(before + [Broken] + after) == Ahead(before) && Behind(before + [Broken] + after) == Some(after)
  {
    var all := before + [Broken] + after;
    if before == [] {
      assert all[0] == Broken && all[1..] == after;
    } else {
      AheadOfError(before[1..], after);
      assert all[0] == before[0] && all[1..] == before[1..] + [Broken] + after;
    }
  }

  lemma {:induction false} FirstLineBefore(line: seq<Byte>, rest: seq<Byte>, behind: seq<Read>)
    requires line != [] && Through(line + rest, NEWLINE) == |line| && NEWLINE in line + rest
    ensures LinesOf(line + rest, Some(behind)) == [Answer(line)] + LinesOf(rest, Some(behind))
  {
    hide Answer, Through;
    assert (line + rest)[..|line|] == line && (line + rest)[|line|..] == rest;
  }

  lemma NoLineBefore(cut: string, behind: seq<Read>)
    requires '\n' !in cut
    ensures LinesOf(EncodeAll(cut), Some(behind)) == LinesOf(Ahead(behind), Behind(behind))
  {
    AsciiIn(cut, '\n');
  }

  /**
   An error loses the line that it interrupts and nothing else: the lines that were complete before it
   come out, and then those of what is read after it.
   */
  lemma {:induction false} ErrorLosesOneLine(whole: string, cut: string, before: seq<Read>, after: seq<Read>)
    requires (forall i :: 0 <= i < |before| ==> before[i].Data?) && Ahead(before) == EncodeAll(whole + cut)
    requires '\n' !in cut && (whole == [] || whole[|whole| - 1] == '\n')
    ensures var answers := before + [Broken] + after;
      LinesOf(Ahead(answers), Behind(answers)) == TextLines(whole) + LinesOf(Ahead(after), Behind(after))
  {
    AheadOfError(before, after);
    LinesBeforeError(whole, cut, after);
  }

  lemma {:induction false} LinesBeforeError(whole: string, cut: string, after: seq<Read>)
    requires '\n' !in cut && (whole == [] || whole[|whole| - 1] == '\n')
    ensures LinesOf(EncodeAll(whole + cut), Some(after)) == TextLines(whole) + LinesOf(Ahead(after), Behind(after))
    decreases |whole|
  {
    hide *;
    if whole == [] {
      NoLines();
      NoLineBefore(cut, after);
      assert whole + cut == cut && [] + LinesOf(Ahead(after), Behind(after)) == LinesOf(Ahead(after), Behind(after));
    } else {
      var n := Through(whole, '\n');
      var line, rest := whole[..n], whole[n..];
      FirstTextLine(whole);
      WholeLine(whole, n);
      LinesBeforeError(rest, cut, after);
      LineIsCut(line);
      assert whole == line + rest && whole + cut == line + (rest + cut);
      EncodeAllConcat(line, rest + cut);
      EncodedLine(line, rest + cut);
      FirstLineBefore(EncodeAll(line), EncodeAll(rest + cut), after);
      ConcatAssociative([Answer(EncodeAll(line))], TextLines(rest), LinesOf(Ahead(after), Behind(after)));
    }
  }

  /** The first line of a text of whole lines ends with a line feed. */
  lemma WholeLine(whole: string, n: nat)
    requires whole != [] && whole[|whole| - 1] == '\n' && n == Through(whole, '\n')
    ensures 0 < n <= |whole| && whole[n - 1] == '\n' && (whole[n..] == [] || whole[n..][|whole| - n - 1] == '\n')
    ensures forall i :: 0 <= i < n - 1 ==> whole[i] != '\n'
  {
    assert whole[|whole| - 1] in whole;
  }

  lemma {:induction false} EncodedLine(line: string, more: string)
    requires line != [] && line[|line| - 1] == '\n' && forall i :: 0 <= i < |line| - 1 ==> line[i] != '\n'
    ensures EncodeAll(line) != [] && NEWLINE in EncodeAll(line) + EncodeAll(more)
    ensures Through(EncodeAll(line) + EncodeAll(more), NEWLINE) == |EncodeAll(line)|
  {
    var n := |line| - 1;
    var front := line[..n];
    assert line == front + ['\n'];
    ThroughEnd(front, more, '\n');
    assert line + more == front + (['\n'] + more);
    EncodedThrough(line + more);
    EncodeAllConcat(line, more);
    AsciiIn(line, '\n');
    hide EncodeAll, Through;
    assert (line + more)[..n + 1] == line;
  }
}
