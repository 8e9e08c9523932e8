/**
 Every ordered map of identifiers to texts can be written as a dotenv file that is read back and
 expanded to the same map (crates/micromux/src/env.rs).
 */
module DotenvWriting {
  import opened Dotenv
  import opened Interpolation
  import opened Prelude

  datatype Style = DoubleQuoted | SingleQuoted
  datatype Setting = Setting(key: string, value: string, style: Style)

  function Escape(c: char): string {
    if c == '\\' then "\\\\" else if c == '"' then "\\\"" else if c == '\n' then "\\n"
    else if c == '\r' then "\\r" else [c]
  }

  function Escaped(s: string): string {
    if s == [] then [] else Escape(s[0]) + Escaped(s[1..])
  }

  /** Double quotes need escapes and doubled dollar signs; single quotes are literal. */
  function Quoted(value: string, style: Style): string {
    match style
    case DoubleQuoted => "\"" + Escaped(Doubled(value)) + "\""
    case SingleQuoted => "'" + value + "'"
  }

  function LineFor(setting: Setting): string {
    setting.key + "=" + Quoted(setting.value, setting.style)
  }

  function FileFor(settings: seq<Setting>): string {
    if settings == [] then [] else LineFor(settings[0]) + "\n" + FileFor(settings[1..])
  }

  ghost predicate Writable(setting: Setting) {
    && IsIdentifier(setting.key)
    && (setting.style.SingleQuoted? ==> '\'' !in setting.value && '\n' !in setting.value)
  }

  ghost predicate AllWritable(settings: seq<Setting>) {
    && (forall i :: 0 <= i < |settings| ==> Writable(settings[i]))
    && forall i, j :: 0 <= i < j < |settings| ==> settings[i].key != settings[j].key
  }

  function Plain(settings: seq<Setting>): (r: seq<Binding>)
    ensures |r| == |settings|
  {
    seq(|settings|, i requires 0 <= i < |settings| => Binding(settings[i].key, settings[i].value))
  }

  /** What stands in the map between reading and expanding. */
  function Unexpanded(settings: seq<Setting>): (r: seq<Binding>)
    ensures |r| == |settings|
  {
    seq(|settings|, i requires 0 <= i < |settings| => Binding(settings[i].key, Doubled(settings[i].value)))
  }

  // ---------------------------------------------------------------- trimming

  lemma {:induction false} TrimStartDrops(blank: string, s: string)
    requires AllBlank(blank)
    requires s == [] || !IsWhitespace(s[0])
    ensures TrimStart(blank + s) == s
  {
    if blank == [] {
      assert blank + s == s;
    } else {
      assert (blank + s)[1..] == blank[1..] + s;
      TrimStartDrops(blank[1..], s);
    }
  }

  lemma {:induction false} TrimEndDrops(s: string, blank: string)
    requires AllBlank(blank)
    requires s == [] || !IsWhitespace(s[|s| - 1])
    ensures TrimEnd(s + blank) == s
    decreases |blank|
  {
    if blank == [] {
      assert s + blank == s;
    } else {
      var n := |blank| - 1;
      assert (s + blank)[..|s| + n] == s + blank[..n];
      TrimEndDrops(s, blank[..n]);
    }
  }

  ghost predicate AllBlank(s: string) {
    forall i :: 0 <= i < |s| ==> IsWhitespace(s[i])
  }

  /** Trimming takes the longest run of blanks, and nothing else. */
  lemma {:induction false} TrimStartTakesBlanks(s: string) returns (blank: string)
    ensures s == blank + TrimStart(s) && AllBlank(blank)
    ensures TrimStart(s) == [] || !IsWhitespace(TrimStart(s)[0])
  {
    if s != [] && IsWhitespace(s[0]) {
      var rest := TrimStartTakesBlanks(s[1..]);
      blank := [s[0]] + rest;
      assert s == [s[0]] + s[1..];
    } else {
      blank := [];
    }
  }

  lemma {:induction false} TrimEndTakesBlanks(s: string) returns (blank: string)
    ensures s == TrimEnd(s) + blank && AllBlank(blank)
    ensures TrimEnd(s) == [] || !IsWhitespace(TrimEnd(s)[|TrimEnd(s)| - 1])
  {
    if s != [] && IsWhitespace(s[|s| - 1]) {
      var rest := TrimEndTakesBlanks(s[..|s| - 1]);
      blank := rest + [s[|s| - 1]];
      assert s == s[..|s| - 1] + [s[|s| - 1]];
    } else {
      blank := [];
    }
  }

  /** A text that neither begins nor ends with white space. */
  predicate IsTight(s: string) {
    s == [] || (!IsWhitespace(s[0]) && !IsWhitespace(s[|s| - 1]))
  }

  lemma TightIsKept(s: string)
    requires IsTight(s)
    ensures TrimStart(s) == s && TrimEnd(s) == s && Trim(s) == s
  {
    TrimStartDrops([], s);
    TrimEndDrops(s, []);
    assert [] + s == s && s + [] == s;
  }

  lemma TrimOf(before: string, text: string, after: string)
    requires AllBlank(before) && AllBlank(after) && IsTight(text)
    ensures Trim(before + text + after) == text
  {
    assert before + text + after == before + (text + after);
    if text == [] {
      assert before + (text + after) == (before + after) + [];
      TrimStartDrops(before + after, []);
      assert AllBlank([]);
    } else {
      TrimStartDrops(before, text + after);
    }
    TrimEndDrops(text, after);
  }

  /**
   `parse_value` with blanks around a quoted value. What single quotes hold comes out of the later
   expansion as it stands, under every environment; double quotes only take escapes.
   */
  lemma QuotedValueMeans(before: string, inner: string, after: string, env: Environment)
    requires AllBlank(before) && AllBlank(after)
    ensures var value := ValueOf(before + ("'" + inner + "'") + after);
      Substituted(Tokens(value), env) == inner && Unbound(Tokens(value), env) == []
    ensures ValueOf(before + ("\"" + inner + "\"") + after) == Unescaped(inner)
  {
    var single, double := "'" + inner + "'", "\"" + inner + "\"";
    TrimOf(before, single, after);
    TrimOf(before, double, after);
    hide Trim, Unescaped, Doubled, Substituted, Tokens, Unbound;
    assert single[1..|single| - 1] == inner && double[1..|double| - 1] == inner;
    DoubledStandsForItself(inner, env);
  }

  /** And with blanks around anything else that neither begins nor ends with one. */
  lemma PlainValueMeans(before: string, text: string, after: string)
    requires AllBlank(before) && AllBlank(after) && IsTight(text)
    requires |text| < 2 || text[0] != text[|text| - 1] || !IsQuoted(text)
    ensures ValueOf(before + text + after) == text
  {
    TrimOf(before, text, after);
    hide Trim;
  }

  // ---------------------------------------------------------------- quoted values

  lemma {:induction false} EscapedHasNoLineEnd(s: string)
    ensures '\n' !in Escaped(s) && '\r' !in Escaped(s)
  {
    if s != [] {
      EscapedHasNoLineEnd(s[1..]);
    }
  }

  lemma {:induction false} EscapeIsUndone(c: char, tail: string)
    ensures Unescaped(Escape(c) + tail) == [c] + Unescaped(tail)
  {
    var head := Escape(c);
    assert (head + tail)[|head|..] == tail;
  }

  lemma {:induction false} EscapedUnescapes(s: string)
    ensures Unescaped(Escaped(s)) == s
  {
    EscapedUnfolds(s);
    if s == [] {
    } else {
      EscapedUnescapes(s[1..]);
      EscapeIsUndone(s[0], Escaped(s[1..]));
      hide *;
      assert s == [s[0]] + s[1..];
    }
  }

  lemma EscapeDoesNotClose(t: string, n: nat, c: char)
    requires 1 <= n && n + |Escape(c)| < |t| && t[0] == '"' && !IsEscaped(t, n)
    requires t[n] == Escape(c)[0] && (|Escape(c)| == 2 ==> t[n + 1] == Escape(c)[1])
    ensures FirstClosing(t, n) == FirstClosing(t, n + |Escape(c)|)
    ensures !IsEscaped(t, n + |Escape(c)|)
  {
    assert !Closes(t, n);
    if |Escape(c)| == 2 {
      assert IsEscaped(t, n + 1);
      assert !Closes(t, n + 1);
    }
  }

  lemma SplitQuoted(t: string, front: string, head: string, tail: string)
    requires t == front + (head + tail) + "\"" && head != []
    ensures t == (front + head) + tail + "\"" && |front| + |head| < |t|
    ensures forall i :: 0 <= i < |head| ==> t[|front| + i] == head[i]
  {
  }

  lemma {:induction false} EscapedUnfolds(s: string)
    ensures s == [] ==> Escaped(s) == []
    ensures s != [] ==> Escaped(s) == Escape(s[0]) + Escaped(s[1..]) && 1 <= |Escape(s[0])| <= 2
  {
  }

  lemma LastQuoteCloses(t: string, n: nat)
    requires 1 <= n == |t| - 1 && t[0] == t[n] == '"' && !IsEscaped(t, n)
    ensures FirstClosing(t, n) == n
  {
  }

  /** Inside a double quoted value nothing closes it, wherever a character starts. */
  lemma {:induction false} EscapedDoesNotClose(t: string, front: string, s: string)
    requires front != [] && t == front + Escaped(s) + "\"" && t[0] == '"' && !IsEscaped(t, |front|)
    ensures FirstClosing(t, |front|) == |t| - 1
    decreases |s|
  {
    hide *;
    EscapedUnfolds(s);
    if s == [] {
      LastQuoteCloses(t, |front|);
    } else {
      var head := Escape(s[0]);
      SplitQuoted(t, front, head, Escaped(s[1..]));
      assert t[|front| + 0] == head[0];
      EscapeDoesNotClose(t, |front|, s[0]);
      EscapedDoesNotClose(t, front + head, s[1..]);
    }
  }

  lemma {:induction false} LiteralDoesNotClose(t: string, k: nat)
    requires 1 <= k < |t| && t[0] == '\'' && t[|t| - 1] == '\'' && forall i :: 1 <= i < |t| - 1 ==> t[i] != '\''
    ensures FirstClosing(t, k) == |t| - 1
    decreases |t| - k
  {
    if k < |t| - 1 {
      LiteralDoesNotClose(t, k + 1);
    }
  }

  /** The closing quote of a written value is its last character, so no comment is cut off. */
  lemma QuotedHasNoComment(value: string, style: Style)
    requires style.SingleQuoted? ==> '\'' !in value
    ensures CommentStripped(Quoted(value, style)) == Quoted(value, style)
  {
    var t := Quoted(value, style);
    TightIsKept(t);
    QuotedCloses(value, style);
    hide Quoted, TrimStart, FirstClosing;
    assert t[..|t|] == t;
  }

  lemma QuotedCloses(value: string, style: Style)
    requires style.SingleQuoted? ==> '\'' !in value
    ensures var t := Quoted(value, style); t != [] && IsQuoted(t) && FirstClosing(t, 1) == |t| - 1
  {
    var t := Quoted(value, style);
    hide Escaped, Doubled, FirstClosing;
    match style
    case DoubleQuoted => EscapedDoesNotClose(t, "\"", Doubled(value));
    case SingleQuoted => LiteralDoesNotClose(t, 1);
  }

  lemma {:induction false} QuotedMeans(value: string, style: Style)
    ensures ValueOf(Quoted(value, style)) == Doubled(value)
  {
    var t := Quoted(value, style);
    TightIsKept(t);
    EscapedUnescapes(Doubled(value));
    hide Trim, TrimStart, Escaped, Unescaped, Doubled;
    match style
    case DoubleQuoted =>
      assert t[1..|t| - 1] == Escaped(Doubled(value));
    case SingleQuoted =>
      assert t[1..|t| - 1] == value;
  }

  // ---------------------------------------------------------------- lines

  lemma LineShape(setting: Setting)
    requires Writable(setting)
    ensures var (line, n) := (LineFor(setting), |setting.key|);
      && IsTight(line) && n < |line| && line[..n] == setting.key && line[n] == '='
      && line[n + 1..] == Quoted(setting.value, setting.style)
      && (forall i :: 0 <= i < n ==> IsVarContinue(line[i])) && n > 0 && IsVarStart(line[0])
      && '\n' !in line && line[|line| - 1] != '\r'
  {
    var line, n, quoted := LineFor(setting), |setting.key|, Quoted(setting.value, setting.style);
    EscapedHasNoLineEnd(Doubled(setting.value));
    assert line[|line| - 1] == quoted[|quoted| - 1];
    assert forall i :: 0 <= i < n ==> line[i] == setting.key[i];
    assert '\n' !in quoted;
  }

  lemma NoExportPrefix(line: string, n: nat)
    requires IsTight(line) && n < |line| && line[n] == '=' && forall i :: 0 <= i < n ==> IsVarContinue(line[i])
    ensures StripExportPrefix(line) == line
  {
    TightIsKept(line);
    if "export" <= line {
      assert forall i :: 0 <= i < 6 ==> line[i] == "export"[i] && "export"[i] != '=';
      assert n >= 6;
      assert line[6..][0] == line[6];
    }
  }

  lemma LineMeans(setting: Setting, lineNo: nat)
    requires Writable(setting)
    ensures MeaningOf(LineFor(setting), lineNo) == Binds(Binding(setting.key, Doubled(setting.value)))
  {
    hide *;
    var line, n := LineFor(setting), |setting.key|;
    LineShape(setting);
    KeyShape(setting);
    NoExportPrefix(line, n);
    QuotedHasNoComment(setting.value, setting.style);
    QuotedMeans(setting.value, setting.style);
    TightIsKept(line);
    TightIsKept(setting.key);
    SeparatorFound(line, n);
    MeaningFrom(line, line, lineNo, n);
  }

  lemma KeyShape(setting: Setting)
    requires Writable(setting)
    ensures IsTight(setting.key) && setting.key != [] && !IsVarStart('#')
    ensures setting.style.SingleQuoted? ==> '\'' !in setting.value
  {
  }

  lemma SeparatorFound(line: string, n: nat)
    requires n < |line| && line[n] == '=' && forall i :: 0 <= i < n ==> IsVarContinue(line[i])
    ensures IndexOf(line, '=', 0) == n
  {
  }

  /** How the parts of a line make up its meaning. */
  lemma MeaningFrom(raw: string, text: string, lineNo: nat, n: nat)
    requires Trim(raw) != [] && Trim(raw)[0] != '#' && StripExportPrefix(Trim(raw)) == text
    requires n < |text| && IndexOf(text, '=', 0) == n && Trim(text[..n]) == text[..n] != []
    ensures MeaningOf(raw, lineNo) == Binds(Binding(text[..n], ValueOf(CommentStripped(text[n + 1..]))))
  {
    hide Trim, StripExportPrefix, IndexOf, CommentStripped, ValueOf;
  }

  // ---------------------------------------------------------------- what a line may carry besides

  lemma {:induction false} TrimEndKeepsFront(front: string, tail: string)
    requires front != [] && !IsWhitespace(front[|front| - 1])
    ensures TrimEnd(front + tail) == front + TrimEnd(tail)
    decreases |tail|
  {
    if tail == [] {
      assert front + tail == front;
    } else {
      var n := |tail| - 1;
      assert (front + tail)[..|front| + n] == front + tail[..n];
      TrimEndKeepsFront(front, tail[..n]);
    }
  }

  lemma {:induction false} EscapedAlike(t: string, tail: string, k: nat)
    requires k <= |t|
    ensures IsEscaped(t + tail, k) == IsEscaped(t, k)
  {
    if k > 1 {
      EscapedAlike(t, tail, k - 1);
    }
  }

  /** Nothing behind the closing quote can change which one it is. */
  lemma {:induction false} ClosingAlike(t: string, tail: string, k: nat)
    requires 1 <= k <= |t| && FirstClosing(t, k) < |t|
    ensures FirstClosing(t + tail, k) == FirstClosing(t, k)
    decreases |t| - k
  {
    if k < |t| {
      EscapedAlike(t, tail, k);
      assert Closes(t + tail, k) == Closes(t, k);
      if !Closes(t, k) {
        ClosingAlike(t, tail, k + 1);
      }
    }
  }

  lemma TailIsComment(value: string, style: Style, tail: string)
    requires style.SingleQuoted? ==> '\'' !in value
    ensures CommentStripped(Quoted(value, style) + tail) == Quoted(value, style)
  {
    var t := Quoted(value, style);
    QuotedCloses(value, style);
    QuotedEnds(value, style);
    ClosingAlike(t, tail, 1);
    TrimStartDrops([], t + tail);
    hide Quoted, TrimStart, FirstClosing;
    assert [] + (t + tail) == t + tail && (t + tail)[..|t|] == t;
  }

  lemma QuotedEnds(value: string, style: Style)
    ensures var t := Quoted(value, style); |t| > 1 && !IsWhitespace(t[0]) && !IsWhitespace(t[|t| - 1])
  {
  }

  lemma {:induction false} PrefixIsStripped(prefix: string, rest: string)
    ensures StripPrefix(prefix + rest, prefix) == Some(rest)
  {
  }

  lemma {:induction false} ExportPrefixFrom(line: string, rest: string)
    requires TrimStart(line) == line && StripPrefix(line, "export") == Some(rest)
    requires rest != [] && IsWhitespace(rest[0])
    ensures StripExportPrefix(line) == TrimStart(rest[1..])
  {
    hide TrimStart, StripPrefix, IsWhitespace;
  }

  lemma {:induction false} ExportIsDropped(blank: string, text: string)
    requires blank != [] && AllBlank(blank) && text != [] && !IsWhitespace(text[0])
    ensures StripExportPrefix("export" + blank + text) == text
  {
    assert IsWhitespace(blank[0]) && AllBlank(blank[1..]) && AllBlank([]) && !IsWhitespace('e');
    hide *;
    var line, rest := "export" + blank + text, blank + text;
    assert line == "export" + rest && line[0] == 'e' && rest[0] == blank[0] && rest[1..] == blank[1..] + text;
    TrimStartDrops([], line);
    assert [] + line == line;
    PrefixIsStripped("export", rest);
    ExportPrefixFrom(line, rest);
    TrimStartDrops(blank[1..], text);
  }

  /** An `export` in front and anything at all behind the closing quote leave the binding as it is. */
  lemma DecoratedLineMeans(setting: Setting, blank: string, tail: string, lineNo: nat)
    requires Writable(setting) && blank != [] && AllBlank(blank)
    ensures MeaningOf("export" + blank + LineFor(setting) + tail, lineNo)
         == Binds(Binding(setting.key, Doubled(setting.value)))
  {
    hide *;
    var line, n, kept := LineFor(setting), |setting.key|, TrimEnd(tail);
    var raw, text := "export" + blank + line + tail, line + kept;
    LineShape(setting);
    LineEnds(setting);
    KeyShape(setting);
    TrimEndKeepsFront("export" + blank + line, tail);
    TrimOfTight(raw);
    assert Trim(raw) == "export" + blank + text;
    ExportIsDropped(blank, text);
    SeparatorFound(text, n);
    TightIsKept(setting.key);
    assert text[..n] == setting.key && text[n + 1..] == Quoted(setting.value, setting.style) + kept;
    MeaningFrom(raw, text, lineNo, n);
    TailIsComment(setting.value, setting.style, kept);
    QuotedMeans(setting.value, setting.style);
  }

  lemma LineEnds(setting: Setting)
    requires Writable(setting)
    ensures var line := LineFor(setting);
      line != [] && !IsWhitespace(line[0]) && !IsWhitespace(line[|line| - 1]) && !IsWhitespace('e')
  {
    LineShape(setting);
  }

  lemma TrimOfTight(s: string)
    requires s != [] && !IsWhitespace(s[0])
    ensures Trim(s) == TrimEnd(s)
  {
    TrimStartDrops([], s);
    assert [] + s == s;
  }

  lemma {:induction false} FileLines(settings: seq<Setting>)
    requires forall i :: 0 <= i < |settings| ==> Writable(settings[i])
    ensures |Lines(FileFor(settings))| == |settings|
    ensures forall i :: 0 <= i < |settings| ==> Lines(FileFor(settings))[i] == LineFor(settings[i])
  {
    FileUnfolds(settings);
    hide *;
    if settings != [] {
      FileLines(settings[1..]);
      LineShape(settings[0]);
      FirstLine(LineFor(settings[0]), FileFor(settings[1..]));
    }
  }

  lemma {:induction false} FileUnfolds(settings: seq<Setting>)
    ensures settings == [] ==> Lines(FileFor(settings)) == []
    ensures settings != [] ==>
      LineFor(settings[0]) != [] && FileFor(settings) == LineFor(settings[0]) + "\n" + FileFor(settings[1..])
  {
  }

  lemma {:induction false} FirstLine(line: string, rest: string)
    requires line != [] && '\n' !in line && line[|line| - 1] != '\r'
    ensures Lines(line + "\n" + rest) == [line] + Lines(rest)
  {
    var contents, n := line + "\n" + rest, |line|;
    assert forall i :: 0 <= i < n ==> contents[i] == line[i];
    assert contents[n] == '\n' && contents[..n] == line && contents[n + 1..] == rest;
  }

  // ---------------------------------------------------------------- the round trip

  lemma InsertedAppends(bindings: seq<Binding>, n: nat)
    requires n < |bindings| && UniqueKeys(bindings)
    ensures Inserted(bindings[..n], bindings[n]) == bindings[..n + 1]
  {
  }

  lemma {:induction false} FileParses(settings: seq<Setting>, lines: seq<string>, n: nat)
    requires AllWritable(settings) && n <= |settings| == |lines|
    requires forall i :: 0 <= i < |settings| ==> lines[i] == LineFor(settings[i])
    ensures Parsed(lines, n) == Ok(Unexpanded(settings)[..n])
  {
    hide *;
    ParsedStep(lines, if n == 0 then 0 else n - 1);
    UnexpandedIs(settings);
    if n > 0 {
      FileParses(settings, lines, n - 1);
      LineMeans(settings[n - 1], n);
      InsertedAppends(Unexpanded(settings), n - 1);
    }
  }

  lemma UnexpandedIs(settings: seq<Setting>)
    requires AllWritable(settings)
    ensures UniqueKeys(Unexpanded(settings)) && Unexpanded(settings)[..0] == []
    ensures forall i :: 0 <= i < |settings| ==>
      Writable(settings[i]) && Unexpanded(settings)[i] == Binding(settings[i].key, Doubled(settings[i].value))
  {
  }

  lemma {:induction false} UnexpandedExpands(settings: seq<Setting>, base: Environment, noted: seq<string>, n: nat)
    requires AllWritable(settings) && n <= |settings|
    ensures ExpandedTo(Unexpanded(settings), base, noted, n).bindings == Plain(settings)[..n]
    ensures ExpandedTo(Unexpanded(settings), base, noted, n).missing == noted
  {
    hide Tokens, Substituted, Unbound, Doubled, Inserted;
    if n > 0 {
      UnexpandedExpands(settings, base, noted, n - 1);
      var before := ExpandedTo(Unexpanded(settings), base, noted, n - 1);
      DoubledStandsForItself(settings[n - 1].value, before.current);
      InsertedAppends(Plain(settings), n - 1);
      assert noted + [] == noted;
    }
  }

  /**
   Any ordered map of identifiers to texts, each value in whichever style can hold it, is parsed
   and expanded to exactly itself under every base environment, and nothing is reported missing.
   */
  lemma {:induction false} WrittenFileReadsBack(settings: seq<Setting>, base: Environment, noted: seq<string>)
    requires AllWritable(settings)
    ensures var (lines, n) := (Lines(FileFor(settings)), |settings|);
      && |lines| == n && Parsed(lines, n) == Ok(Unexpanded(settings))
      && ExpandedTo(Unexpanded(settings), base, noted, n).bindings == Plain(settings)
      && ExpandedTo(Unexpanded(settings), base, noted, n).missing == noted
  {
    FileLines(settings);
    FileParses(settings, Lines(FileFor(settings)), |settings|);
    UnexpandedExpands(settings, base, noted, |settings|);
    hide *;
    assert Unexpanded(settings)[..|settings|] == Unexpanded(settings);
    assert Plain(settings)[..|settings|] == Plain(settings);
  }

  // ---------------------------------------------------------------- comments behind plain values

  /** A comment as documented: from the first `#` that has white space before it. */
  function AsDocumented(value: string): string {
    Trim(value[..FirstComment(value, 0)])
  }

  lemma {:induction false} FirstCommentShift(value: string, d: nat, k: nat)
    requires d <= |value| && 1 <= k <= |value| - d
    ensures FirstComment(value[d..], k) == FirstComment(value, d + k) - d
    decreases |value| - k
  {
    if k < |value| - d {
      FirstCommentShift(value, d, k + 1);
    }
  }

  lemma {:induction false} NoCommentAmongBlanks(value: string, d: nat, k: nat)
    requires k <= d <= |value| && AllBlank(value[..d])
    ensures FirstComment(value, k) == FirstComment(value, d)
    decreases d - k
  {
    if k < d {
      assert IsWhitespace(value[..d][k]);
      NoCommentAmongBlanks(value, d, k + 1);
    }
  }

  lemma {:induction false} TrimBoth(blank: string, s: string)
    requires AllBlank(blank) && (s == [] || !IsWhitespace(s[0]))
    ensures Trim(blank + s) == TrimEnd(s) == Trim(TrimEnd(s)) == Trim(s)
    ensures s != [] ==> TrimEnd(s) != []
  {
    TrimStartDrops(blank, s);
    TrimStartDrops([], s);
    assert [] + s == s;
    var behind := TrimEndTakesBlanks(s);
    assert TrimEnd(s) == [] ==> s == behind;
    TightIsKept(TrimEnd(s));
  }

  /**
   The code reads a plain value as documented exactly when the value is not a comment that starts
   right after the blanks behind `=`; such a comment is taken for the value.
   */
  lemma PlainCommentExactly(value: string)
    requires !IsQuoted(TrimStart(value))
    ensures Trim(CommentStripped(value)) == AsDocumented(value)
       <==> !(TrimStart(value) != [] && TrimStart(value)[0] == '#' && |TrimStart(value)| < |value|)
  {
    hide *;
    var blank := TrimStartTakesBlanks(value);
    var t := TrimStart(value);
    var k, end := FirstComment(value, 0), FirstComment(t, 0);
    PlainStripped(value, t);
    CommentPosition(blank, t);
    DocumentedIs(value);
    TrimBoth(blank, []);
    assert value[..|blank|] == blank + [];
    if t != [] {
      assert t[..end][0] == t[0];
      TrimBoth(blank, t[..end]);
      assert value[..|blank| + end] == blank + t[..end];
    }
  }

  /** Behind `KEY=` a blank and a comment. */
  lemma CommentBehindBlankIsValue()
    ensures AsDocumented(" # none") == [] && Trim(CommentStripped(" # none")) == "# none"
  {
    var value, t := " # none", "# none";
    assert value == " " + t;
    TrimStartDrops(" ", t);
    assert StartsComment(value, 1) && FirstComment(value, 0) == 1;
    assert value[..1] == " " + [];
    TrimBoth(" ", []);
    DocumentedIs(value);
    assert !StartsComment(t, 0) && !StartsComment(t, 1) && !StartsComment(t, 2);
    assert FirstComment(t, 0) == FirstComment(t, 3) == |t|;
    TightIsKept(t);
  }

  lemma DocumentedIs(value: string)
    ensures AsDocumented(value) == Trim(value[..FirstComment(value, 0)]) && TrimEnd([]) == []
  {
    hide FirstComment;
  }

  lemma PlainStripped(value: string, t: string)
    requires t == TrimStart(value) && !IsQuoted(t) && (t == [] || !IsWhitespace(t[0]))
    ensures Trim(CommentStripped(value)) == TrimEnd(t[..FirstComment(t, 0)])
    ensures FirstComment(t, 0) == if t == [] then 0 else FirstComment(t, 1)
  {
    var end := FirstComment(t, 0);
    assert t != [] ==> end == FirstComment(t, 1);
    hide FirstComment, TrimStart, StartsComment;
    TrimBoth([], t[..end]);
    TrimBoth([], t);
    assert t[..|t|] == t && [] + t[..end] == t[..end];
  }

  lemma CommentPosition(blank: string, t: string)
    requires AllBlank(blank) && (t == [] || !IsWhitespace(t[0]))
    ensures FirstComment(blank + t, 0)
         == |blank| + if blank != [] && t != [] && t[0] == '#' then 0 else FirstComment(t, 0)
  {
    var value, d := blank + t, |blank|;
    assert value[d..] == t && value[..d] == blank;
    NoCommentAmongBlanks(value, d, 0);
    if t != [] {
      FirstCommentShift(value, d, 1);
      assert FirstComment(t, 0) == FirstComment(t, 1);
      assert value[d] == t[0] && (d > 0 ==> IsWhitespace(value[d - 1]));
      assert StartsComment(value, d) <==> t[0] == '#' && d > 0;
    }
  }
}
