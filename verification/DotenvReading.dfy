/**
 What any line of a dotenv file means, and what a file of them binds (crates/micromux/src/env.rs): told
 from the parts of the line, without the scans that find them.
 */
module DotenvReading {
  import opened Dotenv
  import opened DotenvWriting
  import opened Interpolation
  import opened Prelude

  /** The twenty-five code points with the property `White_Space`. */
  const WHITE_SPACE :=
    "\t\n\U{B}\U{C}\r \U{85}\U{A0}\U{1680}\U{2000}\U{2001}\U{2002}\U{2003}\U{2004}\U{2005}\U{2006}\U{2007}"
    + "\U{2008}\U{2009}\U{200A}\U{2028}\U{2029}\U{202F}\U{205F}\U{3000}"

  lemma WhitespaceIs(c: char)
    ensures |WHITE_SPACE| == 25
    ensures IsWhitespace(c) <==> c in WHITE_SPACE
  {
    var w := WHITE_SPACE;
    if IsWhitespace(c) {
      var k := if c <= '\r' then c as int - 9 else if c == ' ' then 5 else if c == '\U{85}' then 6
        else if c == '\U{A0}' then 7 else if c == '\U{1680}' then 8 else if c <= '\U{200A}' then 9 + c as int - 0x2000
        else if c <= '\U{2029}' then 20 + c as int - 0x2028 else if c == '\U{202F}' then 22
        else if c == '\U{205F}' then 23 else 24;
      assert w[k] == c;
    }
  }

  // ---------------------------------------------------------------- lines of a text

  /** A line ends with a line feed, and a carriage return right before that goes with it. */
  lemma LinesMean(line: string, rest: string)
    requires '\n' !in line
    ensures line == [] || line[|line| - 1] != '\r' ==> Lines(line + "\n" + rest) == [line] + Lines(rest)
    ensures Lines(line + "\r\n" + rest) == [line] + Lines(rest)
    ensures line != [] ==> Lines(line) == [line]
    ensures Lines([]) == []
  {
    hide *;
    if line == [] || line[|line| - 1] != '\r' {
      LineFeedTaken(line, rest);
    }
    ReturnTaken(line, rest);
    LastLineTaken(line);
  }

  lemma LastLineTaken(line: string)
    requires '\n' !in line
    ensures line != [] ==> Lines(line) == [line]
    ensures Lines([]) == []
  {
    assert IndexOf(line, '\n', 0) == |line|;
  }

  lemma LineFeedTaken(line: string, rest: string)
    requires '\n' !in line && (line == [] || line[|line| - 1] != '\r')
    ensures Lines(line + "\n" + rest) == [line] + Lines(rest)
  {
    var contents, n := line + "\n" + rest, |line|;
    assert contents[n] == '\n' && contents[..n] == line && contents[n + 1..] == rest;
    LineTaken(contents, n);
  }

  lemma ReturnTaken(line: string, rest: string)
    requires '\n' !in line
    ensures Lines(line + "\r\n" + rest) == [line] + Lines(rest)
  {
    var contents, n := line + "\r\n" + rest, |line| + 1;
    assert contents[n] == '\n' && contents[..n] == line + ['\r'] && contents[n + 1..] == rest;
    LineTaken(contents, n);
    assert (line + ['\r'])[..|line|] == line;
  }

  lemma LineTaken(contents: string, n: nat)
    requires n < |contents| && contents[n] == '\n' && '\n' !in contents[..n]
    ensures Lines(contents) == [WithoutReturn(contents[..n])] + Lines(contents[n + 1..])
  {
    assert forall i :: 0 <= i < n ==> contents[i] == contents[..n][i];
    assert IndexOf(contents, '\n', 0) == n;
    hide IndexOf, WithoutReturn;
  }

  // ---------------------------------------------------------------- escapes

  /**
   What stands for what inside double quotes, behind any written text: the five escapes, any other
   character after a backslash together with it, a backslash at the end, and all else for itself.
   */
  lemma EscapesMean(text: string, c: char, rest: string)
    ensures var front := Escaped(text);
      && Unescaped(front + "\\n" + rest) == text + "\n" + Unescaped(rest)
      && Unescaped(front + "\\r" + rest) == text + "\r" + Unescaped(rest)
      && Unescaped(front + "\\t" + rest) == text + "\t" + Unescaped(rest)
      && Unescaped(front + "\\\"" + rest) == text + "\"" + Unescaped(rest)
      && Unescaped(front + "\\\\" + rest) == text + "\\" + Unescaped(rest)
      && (c !in "nrt\"\\" ==> Unescaped(front + ['\\', c] + rest) == text + ['\\', c] + Unescaped(rest))
      && (c != '\\' ==> Unescaped(front + [c] + rest) == text + [c] + Unescaped(rest))
      && Unescaped(front + "\\") == text + "\\"
  {
    hide *;
    OneEscape('n', rest);
    OneEscape('r', rest);
    OneEscape('t', rest);
    OneEscape('"', rest);
    OneEscape('\\', rest);
    OneEscape(c, rest);
    OneCharacter(c, rest);
    FormMeans(text, "\\n", rest, "\n");
    FormMeans(text, "\\r", rest, "\r");
    FormMeans(text, "\\t", rest, "\t");
    FormMeans(text, "\\\"", rest, "\"");
    FormMeans(text, "\\\\", rest, "\\");
    if c !in "nrt\"\\" {
      FormMeans(text, ['\\', c], rest, ['\\', c]);
    }
    if c != '\\' {
      FormMeans(text, [c], rest, [c]);
    }
    UnescapedBehind(text, "\\", []);
    assert Escaped(text) + "\\" + [] == Escaped(text) + "\\";
  }

  lemma FormMeans(text: string, form: string, rest: string, meaning: string)
    requires Unescaped(form + rest) == meaning + Unescaped(rest)
    ensures Unescaped(Escaped(text) + form + rest) == text + meaning + Unescaped(rest)
  {
    hide *;
    UnescapedBehind(text, form, rest);
    ConcatAssociative(text, meaning, Unescaped(rest));
  }

  lemma OneEscape(c: char, rest: string)
    ensures Unescaped(['\\', c] + rest) == Unescape(c) + Unescaped(rest)
    ensures Unescape('n') == "\n" && Unescape('r') == "\r" && Unescape('t') == "\t"
    ensures Unescape('"') == "\"" && Unescape('\\') == "\\" && (c !in "nrt\"\\" ==> Unescape(c) == ['\\', c])
  {
    assert (['\\', c] + rest)[2..] == rest;
    var s := "nrt\"\\";
    assert s[0] == 'n' && s[1] == 'r' && s[2] == 't' && s[3] == '"' && s[4] == '\\';
  }

  lemma OneCharacter(c: char, rest: string)
    ensures c != '\\' ==> Unescaped([c] + rest) == [c] + Unescaped(rest)
    ensures Unescaped("\\" + []) == "\\" && Unescaped([]) == []
  {
    assert ([c] + rest)[1..] == rest && "\\" + [] == "\\";
  }

  lemma {:induction false} UnescapedBehind(text: string, form: string, rest: string)
    ensures Unescaped(Escaped(text) + form + rest) == text + Unescaped(form + rest)
  {
    EscapedUnfolds(text);
    hide *;
    if text == [] {
      assert Escaped(text) + form + rest == form + rest;
    } else {
      var more := Escaped(text[1..]) + form + rest;
      UnescapedBehind(text[1..], form, rest);
      EscapeIsUndone(text[0], more);
      assert Escaped(text) + form + rest == Escape(text[0]) + more;
      assert text == [text[0]] + text[1..];
      ConcatAssociative([text[0]], text[1..], Unescaped(form + rest));
    }
  }

  // ---------------------------------------------------------------- lines that bind nothing

  /** `export` and white space, which is not part of the key. */
  ghost predicate HasExport(text: string) {
    6 < |text| && text[..6] == "export" && IsWhitespace(text[6])
  }

  lemma SplitsAt(text: string) returns (n: nat)
    ensures n == IndexOf(text, '=', 0) <= |text| && '=' !in text[..n]
    ensures n < |text| <==> '=' in text
    ensures n < |text| ==> text[n] == '='
  {
    n := IndexOf(text, '=', 0);
  }

  lemma NoExport(text: string)
    requires text != [] && !IsWhitespace(text[0]) && !HasExport(text)
    ensures StripExportPrefix(text) == text
  {
    TrimStartDrops([], text);
    assert [] + text == text;
    hide TrimStart, IsWhitespace;
    assert "export" <= text ==> text[..6] == "export" && text[6..] != [] ==> text[6..][0] == text[6];
  }

  lemma WithExport(text: string)
    requires HasExport(text) && !IsWhitespace(text[0])
    ensures text == "export" + text[6..] && StripExportPrefix(text) == TrimStart(text[7..])
  {
    TrimStartDrops([], text);
    assert [] + text == text;
    hide TrimStart, IsWhitespace;
    var rest := text[6..];
    assert text == "export" + rest && rest != [] && rest[0] == text[6] && rest[1..] == text[7..];
    ExportPrefixFrom(text, rest);
  }

  /** Without the prefix the line loses `export` and the blanks behind it. */
  lemma ExportStripped(text: string) returns (blank: string)
    requires text != [] && !IsWhitespace(text[0])
    ensures !HasExport(text) ==> blank == [] && StripExportPrefix(text) == text
    ensures HasExport(text) ==>
      blank != [] && AllBlank(blank) && text == "export" + blank + StripExportPrefix(text)
      && (StripExportPrefix(text) == [] || !IsWhitespace(StripExportPrefix(text)[0]))
  {
    blank := [];
    if HasExport(text) {
      WithExport(text);
      var tail := TrimStartTakesBlanks(text[7..]);
      blank := [text[6]] + tail;
      hide TrimStart, StripExportPrefix, IsWhitespace;
      assert text[6..] == [text[6]] + text[7..];
    } else {
      NoExport(text);
    }
  }

  /**
   A line is skipped exactly if it is blank or begins with a hash; any other line is in error exactly if it
   has no equals sign, or nothing, or only `export` and blanks, before the first one.
   */
  lemma BindsNothingExactly(before: string, text: string, after: string, lineNo: nat)
    requires AllBlank(before) && AllBlank(after) && IsTight(text)
    ensures var meaning := MeaningOf(before + text + after, lineNo);
      && (meaning.Skipped? <==> text == [] || text[0] == '#')
      && (text != [] && text[0] != '#' ==>
            && (meaning == Rejected(MissingSeparator(lineNo)) <==> '=' !in text)
            && (meaning == Rejected(EmptyKey(lineNo)) <==>
                  var n := IndexOf(text, '=', 0);
                  n < |text| && (n == 0 || (6 < n && text[..6] == "export" && AllBlank(text[6..n]))))
            && (meaning.Rejected? ==> meaning.error == MissingSeparator(lineNo) || meaning.error == EmptyKey(lineNo)))
  {
    TrimOf(before, text, after);
    if text != [] && text[0] != '#' {
      var blank := ExportStripped(text);
      var line := StripExportPrefix(text);
      var n := SplitsAt(line);
      SameSeparator(text, blank, line);
      if n < |line| {
        KeyIsBlank(line, n);
        EmptyKeyShows(text, blank, line, n);
      }
      hide *;
      MeaningIs(before + text + after, text, line, lineNo, n);
    } else {
      hide StripExportPrefix, IndexOf, CommentStripped, ValueOf, Trim;
    }
  }

  lemma MeaningIs(raw: string, text: string, line: string, lineNo: nat, n: nat)
    requires Trim(raw) == text != [] && text[0] != '#' && StripExportPrefix(text) == line
    requires n == IndexOf(line, '=', 0) <= |line|
    ensures n == |line| ==> MeaningOf(raw, lineNo) == Rejected(MissingSeparator(lineNo))
    ensures n < |line| && Trim(line[..n]) == [] ==> MeaningOf(raw, lineNo) == Rejected(EmptyKey(lineNo))
    ensures n < |line| && Trim(line[..n]) != [] ==> MeaningOf(raw, lineNo).Binds?
  {
    hide Trim, StripExportPrefix, IndexOf, CommentStripped, ValueOf;
  }

  lemma SameSeparator(text: string, blank: string, line: string)
    requires blank == [] ==> line == text
    requires blank != [] ==> AllBlank(blank) && text == "export" + blank + line
    ensures '=' in text <==> '=' in line
  {
    var word := "export";
    assert !IsWhitespace('=') && '=' !in word && (AllBlank(blank) ==> '=' !in blank);
    assert blank != [] ==> ('=' in text <==> '=' in word || '=' in blank || '=' in line);
  }

  lemma KeyIsBlank(line: string, n: nat)
    requires n < |line| && (line[0] == '=' || !IsWhitespace(line[0])) && line[n] == '=' && '=' !in line[..n]
    ensures Trim(line[..n]) == [] <==> n == 0
  {
    if n == 0 {
      TightIsKept([]);
    } else {
      assert line[0] == line[..n][0] && line[..n] == [line[0]] + line[1..n];
      TrimStartDrops([], line[..n]);
      assert [] + line[..n] == line[..n];
      TrimEndKeepsFront([line[0]], line[1..n]);
    }
  }

  lemma EmptyKeyShows(text: string, blank: string, line: string, n: nat)
    requires text != [] && n == IndexOf(line, '=', 0) < |line|
    requires blank == [] ==> line == text && !HasExport(text)
    requires blank != [] ==> AllBlank(blank) && text == "export" + blank + line && !IsWhitespace(line[0])
    ensures var m := IndexOf(text, '=', 0);
      m < |text| && (n == 0 <==> m == 0 || (6 < m && text[..6] == "export" && AllBlank(text[6..m])))
  {
    hide IndexOf;
    if blank == [] {
      if 6 < n {
        BlankBegins(text, n);
      }
    } else {
      SeparatorBehind(text, blank, line, n);
      BlankGoesOn(blank, line, n);
      hide AllBlank;
      ExportSplit(text, blank, line, n);
    }
  }

  lemma ExportSplit(text: string, blank: string, line: string, n: nat)
    requires n <= |line| && text == "export" + blank + line
    ensures text[..6] == "export" && text[6..6 + |blank| + n] == blank + line[..n]
  {
  }

  lemma BlankBegins(text: string, m: nat)
    requires 6 < m <= |text|
    ensures AllBlank(text[6..m]) ==> IsWhitespace(text[6])
  {
    assert text[6..m][0] == text[6];
  }

  lemma BlankGoesOn(blank: string, line: string, n: nat)
    requires AllBlank(blank) && n < |line| && !IsWhitespace(line[0])
    ensures AllBlank(blank + line[..n]) <==> n == 0
  {
    var all := blank + line[..n];
    assert n > 0 ==> all[|blank|] == line[0];
  }

  lemma SeparatorBehind(text: string, blank: string, line: string, n: nat)
    requires AllBlank(blank) && text == "export" + blank + line && n == IndexOf(line, '=', 0) < |line|
    ensures IndexOf(text, '=', 0) == 6 + |blank| + n
  {
    var word := "export";
    assert !IsWhitespace('=') && '=' !in word && '=' !in blank;
    var front := word + blank;
    assert '=' !in front && text == front + line;
    hide AllBlank, IndexOf;
    NotBefore(front, line, n);
  }

  lemma NotBefore(front: string, line: string, n: nat)
    requires '=' !in front && n == IndexOf(line, '=', 0) < |line|
    ensures IndexOf(front + line, '=', 0) == |front| + n
  {
    var text := front + line;
    forall i | 0 <= i < |front| + n ensures text[i] != '=' {
      if i < |front| {
        assert text[i] == front[i];
      } else {
        assert text[i] == line[i - |front|];
      }
    }
    assert text[|front| + n] == line[n];
  }

  // ---------------------------------------------------------------- plain values

  /** Nothing behind the value, or white space and a comment. */
  ghost predicate IsTail(blank: string, comment: string) {
    AllBlank(blank) && (comment != [] ==> blank != [] && comment[0] == '#')
  }

  /** No hash in it that white space precedes. */
  ghost predicate HoldsNoComment(value: string) {
    forall k :: 1 <= k < |value| && value[k] == '#' ==> !IsWhitespace(value[k - 1])
  }

  lemma {:induction false} CommentAt(t: string, k: nat, n: nat)
    requires k <= n <= |t| && (n < |t| ==> StartsComment(t, n)) && forall i :: k <= i < n ==> !StartsComment(t, i)
    ensures FirstComment(t, k) == n
    decreases n - k
  {
    if k < n {
      CommentAt(t, k + 1, n);
    }
  }

  /** A plain value, with blanks around it and a comment behind those, is read as itself. */
  lemma PlainIsRead(pad: string, value: string, blank: string, comment: string)
    requires AllBlank(pad) && IsTail(blank, comment)
    requires value != [] && IsTight(value) && !IsQuoted(value) && HoldsNoComment(value)
    ensures ValueOf(CommentStripped(pad + (value + (blank + comment)))) == value
  {
    var t, n := value + (blank + comment), |value| + |blank|;
    hide *;
    PlainStands(pad, value, blank, comment);
    PlainEnds(value, blank, comment);
    StrippedPlain(pad + t, t, n);
    ValueStands(value, blank);
    BeforeComment(value, blank, comment);
  }

  lemma PlainStands(pad: string, value: string, blank: string, comment: string)
    requires AllBlank(pad) && value != [] && IsTight(value) && !IsQuoted(value)
    ensures var t := value + (blank + comment); TrimStart(pad + t) == t && !IsQuoted(t)
    ensures IsTail(blank, comment) ==> AllBlank(blank)
  {
    var t := value + (blank + comment);
    assert t[0] == value[0];
    TrimStartDrops(pad, t);
  }

  lemma ValueStands(value: string, blank: string)
    requires AllBlank(blank) && value != [] && IsTight(value) && !IsQuoted(value)
    ensures TrimEnd(value + blank) == value && ValueOf(value) == ValueOf(value + blank) == value
  {
    assert AllBlank([]) && [] + value + [] == value && [] + value + blank == value + blank;
    TrimEndDrops(value, blank);
    hide TrimEnd, ValueOf;
    PlainValueMeans([], value, []);
    PlainValueMeans([], value, blank);
  }

  lemma BeforeComment(value: string, blank: string, comment: string)
    ensures var (t, n) := (value + (blank + comment), |value| + |blank|);
      && n <= |t| && t[..n] == value + blank && (n < |t| <==> comment != []) && (comment == [] ==> t == value + blank)
  {
  }

  lemma StrippedPlain(raw: string, t: string, n: nat)
    requires TrimStart(raw) == t && !IsQuoted(t) && FirstComment(t, 0) == n <= |t|
    ensures CommentStripped(raw) == if n < |t| then TrimEnd(t[..n]) else t
  {
    hide TrimStart, TrimEnd, FirstComment, IsQuoted;
  }

  lemma PlainEnds(value: string, blank: string, comment: string)
    requires value != [] && HoldsNoComment(value) && IsTail(blank, comment)
    ensures FirstComment(value + (blank + comment), 0) == |value| + |blank|
  {
    var t, n := value + (blank + comment), |value| + |blank|;
    assert !IsWhitespace('#');
    forall i | 0 <= i < n ensures !StartsComment(t, i) {
      if 1 <= i < |value| {
        assert t[i] == value[i] && t[i - 1] == value[i - 1];
      } else if i >= |value| {
        assert t[i] == blank[i - |value|];
      }
    }
    if comment != [] {
      assert t[n] == '#' && t[n - 1] == blank[|blank| - 1];
    }
    CommentAt(t, 0, n);
  }

  /** The value ends where the line does. */
  lemma EmptyIsRead(blank: string)
    requires AllBlank(blank)
    ensures ValueOf(CommentStripped(blank)) == []
  {
    TrimStartDrops(blank, []);
    assert blank + [] == blank;
    TightIsKept([]);
  }

  // ---------------------------------------------------------------- lines that bind

  /** A key that a line can begin with: no blanks around it, no equals sign, and not taken for something else. */
  ghost predicate IsKey(exported: bool, key: string, gap: string) {
    && key != [] && IsTight(key) && '=' !in key && AllBlank(gap)
    && (!exported ==> key[0] != '#' && !HasExport(key + gap))
  }

  function LineOf(exported: bool, key: string, gap: string, rest: string): string {
    (if exported then "export " else "") + (key + (gap + ("=" + rest)))
  }

  /** What stands before the first equals sign is the key, with or without `export`. */
  lemma KeyIsRead(exported: bool, key: string, gap: string, rest: string, lineNo: nat)
    requires IsKey(exported, key, gap) && (rest == [] || !IsWhitespace(rest[|rest| - 1]))
    ensures var line := LineOf(exported, key, gap, rest);
      && line != [] && IsTight(line)
      && MeaningOf(line, lineNo) == Binds(Binding(key, ValueOf(CommentStripped(rest))))
  {
    var text, line, n := key + (gap + ("=" + rest)), LineOf(exported, key, gap, rest), |key| + |gap|;
    hide *;
    LineIsTight(exported, key, gap, rest);
    PrefixRead(exported, key, gap, rest);
    FirstSeparator(key, gap, text);
    TrimOf([], key, gap);
    TightIsKept(line);
    KeySplit(key, gap, rest);
    KeyedMeaning(line, text, lineNo, n, key);
  }

  lemma KeySplit(key: string, gap: string, rest: string)
    ensures var (text, n) := (key + (gap + ("=" + rest)), |key| + |gap|);
      n < |text| && [] + key + gap == key + gap == text[..n] && text[n + 1..] == rest
  {
  }

  lemma LineIsTight(exported: bool, key: string, gap: string, rest: string)
    requires IsKey(exported, key, gap) && (rest == [] || !IsWhitespace(rest[|rest| - 1]))
    ensures var line := LineOf(exported, key, gap, rest);
      line != [] && IsTight(line) && line[0] != '#' && key + (gap + "=") <= key + (gap + ("=" + rest))
    ensures key != [] && IsTight(key) && '=' !in key && AllBlank(gap) && AllBlank([])
  {
    var text, line := key + (gap + ("=" + rest)), LineOf(exported, key, gap, rest);
    assert !IsWhitespace('=') && !IsWhitespace('e');
    assert text[|text| - 1] == if rest == [] then '=' else rest[|rest| - 1];
    assert line[|line| - 1] == text[|text| - 1] && line[0] == if exported then 'e' else key[0];
  }

  lemma KeyedMeaning(line: string, text: string, lineNo: nat, n: nat, key: string)
    requires Trim(line) == line != [] && line[0] != '#' && StripExportPrefix(line) == text
    requires n < |text| && IndexOf(text, '=', 0) == n && Trim(text[..n]) == key != []
    ensures MeaningOf(line, lineNo) == Binds(Binding(key, ValueOf(CommentStripped(text[n + 1..]))))
  {
    hide Trim, StripExportPrefix, IndexOf, CommentStripped, ValueOf;
  }

  lemma FirstSeparator(key: string, gap: string, text: string)
    requires '=' !in key && AllBlank(gap) && key + (gap + "=") <= text
    ensures IndexOf(text, '=', 0) == |key| + |gap|
  {
    assert !IsWhitespace('=');
    var n, front := |key| + |gap|, key + (gap + "=");
    forall i | 0 <= i < n ensures text[i] != '=' {
      assert text[i] == front[i];
      assert i < |key| ==> front[i] == key[i];
      assert i >= |key| ==> front[i] == gap[i - |key|];
    }
    assert text[n] == front[n] == '=';
  }

  lemma PrefixRead(exported: bool, key: string, gap: string, rest: string)
    requires IsKey(exported, key, gap)
    ensures StripExportPrefix(LineOf(exported, key, gap, rest)) == key + (gap + ("=" + rest))
    ensures exported || key[0] != '#'
  {
    assert !IsWhitespace('=') && IsWhitespace(' ');
    var text := key + (gap + ("=" + rest));
    assert text[0] == key[0];
    if exported {
      ExportIsDropped(" ", text);
      assert "export" + " " + text == "export " + text;
    } else {
      assert text == (key + gap) + ("=" + rest);
      ExportInName(key + gap, rest);
      var blank := ExportStripped(text);
    }
  }

  lemma ExportInName(named: string, rest: string)
    ensures HasExport(named + ("=" + rest)) ==> HasExport(named)
  {
    var text, word := named + ("=" + rest), "export";
    assert text[|named|] == '=' && !IsWhitespace('=') && forall i :: 0 <= i < 6 ==> word[i] != '=';
    assert forall i :: 0 <= i < 6 <= |text| ==> text[..6][i] == text[i];
    assert |named| > 6 ==> named[..6] == text[..6] && named[6] == text[6];
  }

  /**
   A line binds its key to the text behind the equals sign, without the blanks around it and the comment
   behind those, whatever blanks stand around the key and with or without `word` in front.
   */
  lemma PlainLineMeans(
      lead: string, exported: bool, key: string, gap: string, pad: string, value: string, blank: string,
      comment: string, lineNo: nat)
    requires AllBlank(lead) && IsKey(exported, key, gap) && AllBlank(pad) && IsTail(blank, comment)
    requires IsTight(value) && !IsQuoted(value) && HoldsNoComment(value)
    requires value == [] ==> comment == []
    ensures MeaningOf(lead + LineOf(exported, key, gap, pad + (value + (blank + comment))), lineNo)
         == Binds(Binding(key, value))
  {
    var rest := pad + (value + (blank + comment));
    hide *;
    LineIsRead(lead, exported, key, gap, rest, lineNo);
    KeptIsRead(pad, value, blank, comment);
  }

  /** The blanks at both ends of a line do not matter. */
  lemma LineIsRead(lead: string, exported: bool, key: string, gap: string, rest: string, lineNo: nat)
    requires AllBlank(lead) && IsKey(exported, key, gap)
    ensures MeaningOf(lead + LineOf(exported, key, gap, rest), lineNo)
         == Binds(Binding(key, ValueOf(CommentStripped(TrimEnd(rest)))))
  {
    var ending := TrimEndTakesBlanks(rest);
    var kept := TrimEnd(rest);
    hide *;
    KeyIsRead(exported, key, gap, kept, lineNo);
    var line := LineOf(exported, key, gap, kept);
    LineOfSplit(exported, key, gap, kept, ending);
    TrimOf(lead, line, ending);
    TightIsKept(line);
    assert lead + line + ending == lead + (line + ending);
    SameMeaning(lead + (line + ending), line, lineNo);
  }

  lemma KeptIsRead(pad: string, value: string, blank: string, comment: string)
    requires AllBlank(pad) && IsTail(blank, comment) && (value == [] ==> comment == [])
    requires IsTight(value) && !IsQuoted(value) && HoldsNoComment(value)
    ensures ValueOf(CommentStripped(TrimEnd(pad + (value + (blank + comment))))) == value
  {
    assert AllBlank(blank);
    hide *;
    if value == [] {
      OnlyBlank(pad, blank);
      BlankRest(pad, blank);
      EmptyIsRead([]);
    } else {
      var tail := KeptTail(pad, value, blank, comment);
      PlainIsRead(pad, value, tail.0, tail.1);
    }
  }

  lemma OnlyBlank(pad: string, blank: string)
    ensures pad + ([] + (blank + [])) == pad + blank
  {
  }

  lemma LineOfSplit(exported: bool, key: string, gap: string, kept: string, ending: string)
    ensures LineOf(exported, key, gap, kept + ending) == LineOf(exported, key, gap, kept) + ending
  {
  }

  lemma SameMeaning(raw: string, line: string, lineNo: nat)
    requires Trim(raw) == Trim(line)
    ensures MeaningOf(raw, lineNo) == MeaningOf(line, lineNo)
  {
    hide Trim, StripExportPrefix, IndexOf, CommentStripped, ValueOf;
  }

  lemma BlankRest(pad: string, blank: string)
    requires AllBlank(pad) && AllBlank(blank)
    ensures TrimEnd(pad + blank) == [] && AllBlank([])
  {
    TrimEndDrops([], pad + blank);
    assert [] + (pad + blank) == pad + blank;
  }

  /** What trimming the end of the line leaves behind the value. */
  lemma KeptTail(pad: string, value: string, blank: string, comment: string) returns (tail: (string, string))
    requires value != [] && IsTight(value) && IsTail(blank, comment)
    ensures IsTail(tail.0, tail.1)
    ensures TrimEnd(pad + (value + (blank + comment))) == pad + (value + (tail.0 + tail.1))
  {
    assert !IsWhitespace('#');
    if comment == [] {
      tail := ([], []);
      TrimEndDrops(pad + value, blank);
      assert pad + (value + (blank + comment)) == (pad + value) + blank;
      assert pad + (value + ([] + [])) == pad + value;
    } else {
      var rest := comment[1..];
      tail := (blank, "#" + TrimEnd(rest));
      var front := pad + (value + (blank + "#"));
      assert front[|front| - 1] == '#';
      TrimEndKeepsFront(front, rest);
      assert comment == "#" + rest;
      assert front + rest == pad + (value + (blank + comment));
      assert front + TrimEnd(rest) == pad + (value + (blank + ("#" + TrimEnd(rest))));
    }
  }

  // ---------------------------------------------------------------- files

  /** Line `i` (from zero) binds `key`. */
  predicate BindsAt(lines: seq<string>, i: nat, key: string)
    requires i < |lines|
  {
    var meaning := MeaningOf(lines[i], i + 1);
    meaning.Binds? && meaning.binding.key == key
  }

  /** Of the first `n` lines, line `i` is the last that binds `key`. */
  ghost predicate BindsLast(lines: seq<string>, n: nat, i: nat, key: string)
    requires n <= |lines|
  {
    i < n && BindsAt(lines, i, key) && forall j :: i < j < n ==> !BindsAt(lines, j, key)
  }

  lemma BindsLastStep(lines: seq<string>, n: nat, i: nat, key: string)
    requires n < |lines|
    ensures BindsLast(lines, n + 1, i, key)
       <==> if BindsAt(lines, n, key) then i == n else BindsLast(lines, n, i, key)
  {
    hide BindsAt;
  }

  /** A key is bound by the last line that binds it, and by none if no line does. */
  lemma {:induction false} LastLineWins(lines: seq<string>, n: nat, key: string)
    requires n <= |lines| && Parsed(lines, n).Ok?
    ensures var got := LookedUp(Parsed(lines, n).value, key);
      && (got.None? <==> forall i :: 0 <= i < n ==> !BindsAt(lines, i, key))
      && forall i: nat :: BindsLast(lines, n, i, key) ==> got == Some(MeaningOf(lines[i], i + 1).binding.value)
  {
    hide MeaningOf, Inserted, LookedUp, Parsed;
    ParsedStep(lines, if n == 0 then 0 else n - 1);
    if n == 0 {
      NothingLookedUp(key);
    } else {
      ParsedBefore(lines, n - 1);
      LastLineWins(lines, n - 1, key);
      var line := MeaningOf(lines[n - 1], n);
      assert BindsAt(lines, n - 1, key) <==> line.Binds? && line.binding.key == key;
      if line.Binds? {
        InsertedKeepsOthers(Parsed(lines, n - 1).value, line.binding, key);
      }
      hide BindsLast;
      forall i: nat | BindsLast(lines, n, i, key)
        ensures i < n && BindsAt(lines, i, key)
        ensures LookedUp(Parsed(lines, n).value, key) == Some(MeaningOf(lines[i], i + 1).binding.value)
      {
        BindsLastStep(lines, n - 1, i, key);
      }
    }
  }

  lemma ParsedBefore(lines: seq<string>, n: nat)
    requires n < |lines| && Parsed(lines, n + 1).Ok?
    ensures Parsed(lines, n).Ok? && !MeaningOf(lines[n], n + 1).Rejected?
  {
    hide MeaningOf, Inserted;
  }

  /** Keys come in the order of the lines that bind them first. */
  lemma {:induction false} KeysInOrder(lines: seq<string>, n: nat, p: nat, q: nat)
    requires n <= |lines| && Parsed(lines, n).Ok? && p < q < |Parsed(lines, n).value|
    ensures var keys := Keys(Parsed(lines, n).value);
      exists i :: 0 <= i < n && BindsAt(lines, i, keys[p]) && forall j :: 0 <= j <= i ==> !BindsAt(lines, j, keys[q])
  {
    hide MeaningOf, Inserted, LookedUp;
    ParsedStep(lines, if n == 0 then 0 else n - 1);
    if n > 0 {
      ParsedBefore(lines, n - 1);
      var before, line := Parsed(lines, n - 1).value, MeaningOf(lines[n - 1], n);
      if line.Binds? {
        InsertedMeans(before, line.binding);
      }
      var keys, was := Keys(Parsed(lines, n).value), Keys(before);
      assert |before| == |was| && |Parsed(lines, n).value| == |keys|;
      if q < |was| {
        KeysInOrder(lines, n - 1, p, q);
        assert keys[p] == was[p] && keys[q] == was[q];
      } else {
        assert line.Binds? && keys == was + [line.binding.key] && keys[q] !in was;
        assert keys[p] == was[p];
        NewKeyIsLast(lines, n - 1, was[p], keys[q]);
      }
    }
  }

  lemma NewKeyIsLast(lines: seq<string>, n: nat, old': string, new': string)
    requires n < |lines| && Parsed(lines, n).Ok?
    requires old' in Keys(Parsed(lines, n).value) && new' !in Keys(Parsed(lines, n).value)
    ensures exists i :: 0 <= i < n && BindsAt(lines, i, old') && forall j :: 0 <= j <= i ==> !BindsAt(lines, j, new')
  {
    LastLineWins(lines, n, old');
    LastLineWins(lines, n, new');
    KeysLookedUp(Parsed(lines, n).value, old');
    KeysLookedUp(Parsed(lines, n).value, new');
    hide MeaningOf, LookedUp;
    var i :| 0 <= i < n && BindsAt(lines, i, old');
  }

  lemma KeysLookedUp(bindings: seq<Binding>, key: string)
    ensures key in Keys(bindings) <==> LookedUp(bindings, key).Some?
  {
    var n := PositionOf(bindings, key);
    hide PositionOf;
    if n < |bindings| {
      assert Keys(bindings)[n] == key;
    }
  }

  /** Extending a map: the other's bindings win, and its new keys follow in their order. */
  lemma {:induction false} ExtendedMeans(bindings: seq<Binding>, more: seq<Binding>, key: string)
    requires UniqueKeys(more)
    ensures LookedUp(InsertedAll(bindings, more), key)
         == if LookedUp(more, key).Some? then LookedUp(more, key) else LookedUp(bindings, key)
    ensures Keys(InsertedAll(bindings, more))
         == Keys(bindings) + Filter(Keys(more), (k: string) => k !in Keys(bindings))
  {
    if more == [] {
      assert Keys(more) == [] && Keys(bindings) + [] == Keys(bindings);
    } else {
      var front, last := more[..|more| - 1], more[|more| - 1];
      LastInserted(bindings, more);
      hide *;
      ExtendedMeans(bindings, front, key);
      InsertedMeans(InsertedAll(bindings, front), last);
      InsertedMeans(front, last);
      NewKeysGrow(bindings, front, last);
    }
  }

  lemma LastInserted(bindings: seq<Binding>, more: seq<Binding>)
    requires more != [] && UniqueKeys(more)
    ensures var (front, last) := (more[..|more| - 1], more[|more| - 1]);
      && UniqueKeys(front) && more == front + [last] && Inserted(front, last) == more
      && InsertedAll(bindings, more) == Inserted(InsertedAll(bindings, front), last)
  {
    var n := |more| - 1;
    InsertedAppends(more, n);
    hide Inserted;
    assert more[..n + 1] == more;
  }

  lemma NewKeysGrow(bindings: seq<Binding>, front: seq<Binding>, last: Binding)
    requires UniqueKeys(front + [last])
    ensures var isNew := (k: string) => k !in Keys(bindings);
      var was := Keys(bindings) + Filter(Keys(front), isNew);
      var now := Keys(bindings) + Filter(Keys(front + [last]), isNew);
      now == (if last.key in was then was else was + [last.key])
  {
    var isNew := (k: string) => k !in Keys(bindings);
    var all := front + [last];
    assert Keys(all) == Keys(front) + [last.key];
    FilterSnoc(Keys(front), last.key, isNew);
    FilterMembers(Keys(front), isNew);
    forall i | 0 <= i < |front| ensures Keys(front)[i] != last.key {
      assert all[i].key != all[|front|].key;
    }
    hide Filter;
    var was, fresh' := Filter(Keys(front), isNew), if isNew(last.key) then [last.key] else [];
    assert Keys(bindings) + (was + fresh') == (Keys(bindings) + was) + fresh';
    assert (Keys(bindings) + was) + [] == Keys(bindings) + was;
  }
}
