/**
 Reading dotenv files and expanding what they bind (crates/micromux/src/env.rs).

 The scanners for comments, quotes, escapes and dollar signs are given meanings of their own, and
 then shown to compose: every value can be written down so that it is read back.
 */
module Dotenv {
  import opened Interpolation
  import opened Prelude

  datatype Binding = Binding(key: string, value: string)
  datatype Error = MissingSeparator(line: nat) | EmptyKey(line: nat)
  datatype Result<T> = Ok(value: T) | Err(error: Error)

  // ---------------------------------------------------------------- white space and lines

  /** The Unicode `White_Space` property. */
  predicate IsWhitespace(c: char) {
    || '\t' <= c <= '\r' || c == ' ' || c == '\U{85}' || c == '\U{A0}' || c == '\U{1680}'
    || '\U{2000}' <= c <= '\U{200A}' || c == '\U{2028}' || c == '\U{2029}' || c == '\U{202F}'
    || c == '\U{205F}' || c == '\U{3000}'
  }

  function TrimStart(s: string): string {
    if s != [] && IsWhitespace(s[0]) then TrimStart(s[1..]) else s
  }

  function TrimEnd(s: string): string {
    if s != [] && IsWhitespace(s[|s| - 1]) then TrimEnd(s[..|s| - 1]) else s
  }

  function Trim(s: string): string {
    TrimEnd(TrimStart(s))
  }

  function WithoutReturn(line: string): string {
    if line != [] && line[|line| - 1] == '\r' then line[..|line| - 1] else line
  }

  /** Rust's `lines`: a carriage return goes with the line feed after it. */
  function Lines(contents: string): seq<string>
    decreases |contents|
  {
    if contents == [] then []
    else
      var end := IndexOf(contents, '\n', 0);
      if end == |contents| then [contents]
      else [WithoutReturn(contents[..end])] + Lines(contents[end + 1..])
  }

  // ---------------------------------------------------------------- one line

  function StripPrefix(s: string, prefix: string): Option<string> {
    if prefix <= s then Some(s[|prefix|..]) else None
  }

  /** `strip_export_prefix`. */
  function StripExportPrefix(line: string): string {
    var trimmed := TrimStart(line);
    match StripPrefix(trimmed, "export")
    case Some(rest) => if rest != [] && IsWhitespace(rest[0]) then TrimStart(rest[1..]) else trimmed
    case None => trimmed
  }

  /** The character before position `k` is a backslash that is not itself escaped. */
  predicate IsEscaped(t: string, k: nat)
    requires k <= |t|
  {
    k > 1 && t[k - 1] == '\\' && !IsEscaped(t, k - 1)
  }

  /** Position `k` closes the quote that opens `t`. Only double quotes know escapes. */
  predicate Closes(t: string, k: nat) {
    1 <= k < |t| && t[k] == t[0] && (t[0] == '"' ==> !IsEscaped(t, k))
  }

  predicate StartsComment(t: string, k: nat) {
    1 <= k < |t| && t[k] == '#' && IsWhitespace(t[k - 1])
  }

  predicate IsQuoted(t: string) {
    t != [] && (t[0] == '\'' || t[0] == '"')
  }

  function FirstClosing(t: string, k: nat): (n: nat)
    requires 1 <= k <= |t|
    ensures k <= n <= |t| && (n < |t| ==> Closes(t, n)) && forall i :: k <= i < n ==> !Closes(t, i)
    decreases |t| - k
  {
    if k == |t| || Closes(t, k) then k else FirstClosing(t, k + 1)
  }

  function FirstComment(t: string, k: nat): (n: nat)
    requires k <= |t|
    ensures k <= n <= |t| && (n < |t| ==> StartsComment(t, n)) && forall i :: k <= i < n ==> !StartsComment(t, i)
    decreases |t| - k
  {
    if k == |t| || StartsComment(t, k) then k else FirstComment(t, k + 1)
  }

  /** What is left of a value without the comment behind it. */
  function CommentStripped(value: string): string {
    var t := TrimStart(value);
    if IsQuoted(t) then t[..Min(FirstClosing(t, 1) + 1, |t|)]
    else
      var end := FirstComment(t, 0);
      if end < |t| then TrimEnd(t[..end]) else t
  }

  /** `strip_value_inline_comment`: two scans, one that tracks escapes and one that tracks blanks. */
  method StripValueInlineComment(value: string) returns (stripped: string)
    ensures stripped == CommentStripped(value)
  {
    hide TrimStart, TrimEnd;
    var trimmed := TrimStart(value);
    if IsQuoted(trimmed) {
      var end := ScanQuoted(trimmed);
      stripped := trimmed[..end];
    } else {
      var end := ScanPlain(trimmed);
      stripped := if end < |trimmed| then TrimEnd(trimmed[..end]) else trimmed;
    }
  }

  /** Its loop after an opening quote: up to and including the closing quote, if there is one. */
  method ScanQuoted(trimmed: string) returns (end: nat)
    requires IsQuoted(trimmed)
    ensures end == Min(FirstClosing(trimmed, 1) + 1, |trimmed|)
  {
    var quote, escaped := trimmed[0], false;
    for i := 1 to |trimmed|
      invariant FirstClosing(trimmed, 1) == FirstClosing(trimmed, i)
      invariant escaped == (quote == '"' && IsEscaped(trimmed, i))
    {
      var c := trimmed[i];
      if escaped {
        escaped := false;
      } else if quote == '"' && c == '\\' {
        escaped := true;
      } else if c == quote {
        return i + 1;
      }
    }
    end := |trimmed|;
  }

  /** Its loop over a plain value: up to the comment, if there is one. */
  method ScanPlain(trimmed: string) returns (end: nat)
    ensures end == FirstComment(trimmed, 0)
  {
    var blankBefore := false;
    for i := 0 to |trimmed|
      invariant FirstComment(trimmed, 0) == FirstComment(trimmed, i)
      invariant blankBefore == (i > 0 && IsWhitespace(trimmed[i - 1]))
    {
      if trimmed[i] == '#' && blankBefore {
        return i;
      }
      blankBefore := IsWhitespace(trimmed[i]);
    }
    end := |trimmed|;
  }

  /** What a backslash and the character after it stand for. */
  function Unescape(c: char): string {
    if c == 'n' then "\n" else if c == 'r' then "\r" else if c == 't' then "\t"
    else if c == '"' then "\"" else if c == '\\' then "\\" else ['\\', c]
  }

  function Unescaped(s: string): string {
    if s == [] then []
    else if s[0] != '\\' then [s[0]] + Unescaped(s[1..])
    else if |s| == 1 then "\\"
    else Unescape(s[1]) + Unescaped(s[2..])
  }

  /** `unescape_double_quoted_value`. */
  method UnescapeDoubleQuotedValue(inner: string) returns (out: string)
    ensures out == Unescaped(inner)
  {
    out := [];
    var i := 0;
    while i < |inner|
      invariant i <= |inner| && Unescaped(inner) == out + Unescaped(inner[i..])
    {
      UnescapedStep(inner, i, out);
      var c := inner[i];
      i := i + 1;
      if c != '\\' {
        out := out + [c];
        continue;
      }
      if i == |inner| {
        out := out + ['\\'];
      } else {
        var next := inner[i];
        i := i + 1;
        if next == 'n' {
          out := out + ['\n'];
        } else if next == 'r' {
          out := out + ['\r'];
        } else if next == 't' {
          out := out + ['\t'];
        } else if next == '"' {
          out := out + ['"'];
        } else if next == '\\' {
          out := out + ['\\'];
        } else {
          out := out + ['\\'];
          out := out + [next];
        }
      }
    }
  }

  lemma UnescapedStep(s: string, i: nat, out: string)
    requires i < |s|
    ensures s[i] != '\\' ==> out + Unescaped(s[i..]) == (out + [s[i]]) + Unescaped(s[i + 1..])
    ensures s[i] == '\\' && i + 1 == |s| ==> out + Unescaped(s[i..]) == (out + ['\\']) + Unescaped(s[i + 1..])
    ensures s[i] == '\\' && i + 1 < |s| ==>
      out + Unescaped(s[i..]) == (out + Unescape(s[i + 1])) + Unescaped(s[i + 2..])
  {
    assert s[i..][1..] == s[i + 1..];
    if i + 1 < |s| {
      assert s[i..][2..] == s[i + 2..];
    }
  }

  /** What a raw value means, before interpolation. */
  function ValueOf(raw: string): string {
    var value := Trim(raw);
    if |value| < 2 then value
    else
      var first, last, inner := value[0], value[|value| - 1], value[1..|value| - 1];
      if first == '"' && last == '"' then Unescaped(inner)
      else if first == '\'' && last == '\'' then Doubled(inner)
      else value
  }

  /** `parse_value`. Single quotes are literal, so dollar signs are doubled against interpolation. */
  method ParseValue(raw: string) returns (value: string)
    ensures value == ValueOf(raw)
  {
    value := Trim(raw);
    if |value| < 2 {
      return value;
    }
    var inner := value[1..|value| - 1];
    if value[0] == '"' && value[|value| - 1] == '"' {
      value := UnescapeDoubleQuotedValue(inner);
    } else if value[0] == '\'' && value[|value| - 1] == '\'' {
      value := Doubled(inner);
    }
  }

  datatype LineMeaning = Skipped | Binds(binding: Binding) | Rejected(error: Error)

  function MeaningOf(raw: string, lineNo: nat): LineMeaning {
    var line := Trim(raw);
    if line == [] || line[0] == '#' then Skipped
    else
      var text := StripExportPrefix(line);
      var eq := IndexOf(text, '=', 0);
      if eq == |text| then Rejected(MissingSeparator(lineNo))
      else if Trim(text[..eq]) == [] then Rejected(EmptyKey(lineNo))
      else Binds(Binding(Trim(text[..eq]), ValueOf(CommentStripped(text[eq + 1..]))))
  }

  // ---------------------------------------------------------------- whole files

  /** The position of a key; the length where it is not bound. */
  function PositionOf(bindings: seq<Binding>, key: string): (n: nat)
    ensures n <= |bindings|
    ensures n < |bindings| ==> bindings[n].key == key
    ensures forall i :: 0 <= i < n ==> bindings[i].key != key
  {
    if bindings == [] || bindings[0].key == key then 0 else 1 + PositionOf(bindings[1..], key)
  }

  /** A key that is bound again keeps its place. */
  function Inserted(bindings: seq<Binding>, binding: Binding): seq<Binding> {
    var n := PositionOf(bindings, binding.key);
    if n < |bindings| then bindings[n := binding] else bindings + [binding]
  }

  ghost predicate UniqueKeys(bindings: seq<Binding>) {
    forall i, j :: 0 <= i < j < |bindings| ==> bindings[i].key != bindings[j].key
  }

  lemma InsertedKeepsUnique(bindings: seq<Binding>, binding: Binding)
    requires UniqueKeys(bindings)
    ensures UniqueKeys(Inserted(bindings, binding))
  {
  }

  /** What a key is bound to. */
  function LookedUp(bindings: seq<Binding>, key: string): Option<string> {
    var n := PositionOf(bindings, key);
    if n < |bindings| then Some(bindings[n].value) else None
  }

  function Keys(bindings: seq<Binding>): (keys: seq<string>)
    ensures |keys| == |bindings|
  {
    seq(|bindings|, i requires 0 <= i < |bindings| => bindings[i].key)
  }

  /** Only the one key is bound anew, and only a new key changes the order: it comes last. */
  lemma InsertedMeans(bindings: seq<Binding>, binding: Binding)
    ensures var after := Inserted(bindings, binding);
      && (forall k :: LookedUp(after, k) == if k == binding.key then Some(binding.value) else LookedUp(bindings, k))
      && Keys(after) == (if binding.key in Keys(bindings) then Keys(bindings) else Keys(bindings) + [binding.key])
  {
    var n, after := PositionOf(bindings, binding.key), Inserted(bindings, binding);
    forall k ensures LookedUp(after, k) == if k == binding.key then Some(binding.value) else LookedUp(bindings, k) {
      InsertedKeepsOthers(bindings, binding, k);
    }
    hide PositionOf;
    if n < |bindings| {
      assert Keys(bindings)[n] == binding.key;
      assert Keys(after) == Keys(bindings);
    } else {
      assert Keys(after) == Keys(bindings) + [binding.key];
    }
  }

  lemma InsertedKeepsOthers(bindings: seq<Binding>, binding: Binding, k: string)
    ensures LookedUp(Inserted(bindings, binding), k)
         == if k == binding.key then Some(binding.value) else LookedUp(bindings, k)
  {
    var n, m, after := PositionOf(bindings, binding.key), PositionOf(bindings, k), Inserted(bindings, binding);
    var p := PositionOf(after, k);
    hide PositionOf;
    assert forall i :: 0 <= i < |bindings| ==> after[i].key == bindings[i].key;
    if k == binding.key {
      assert after[n] == binding;
      assert p == n;
    } else if m < |bindings| {
      assert after[m].key == k;
      assert p == m;
    } else {
      assert p == |after|;
    }
  }

  function AfterLine(before: Result<seq<Binding>>, line: LineMeaning): Result<seq<Binding>> {
    if before.Err? then before
    else
      match line
      case Skipped => before
      case Rejected(error) => Err(error)
      case Binds(binding) => Ok(Inserted(before.value, binding))
  }

  /** The bindings of the first `n` lines, or the first error among them. */
  function Parsed(lines: seq<string>, n: nat): Result<seq<Binding>>
    requires n <= |lines|
  {
    if n == 0 then Ok([]) else AfterLine(Parsed(lines, n - 1), MeaningOf(lines[n - 1], n))
  }

  /** Among the first `n` lines, line `k` (from zero) is the first in error. */
  ghost predicate FirstRejected(lines: seq<string>, n: nat, k: nat, error: Error) {
    && k < n <= |lines| && MeaningOf(lines[k], k + 1) == Rejected(error)
    && forall m :: 0 <= m < k ==> !MeaningOf(lines[m], m + 1).Rejected?
  }

  /** A file is accepted exactly when every line is, and the first offender is reported otherwise. */
  lemma {:induction false} ParsedFailsAtFirst(lines: seq<string>, n: nat)
    requires n <= |lines|
    ensures Parsed(lines, n).Ok? <==> forall k :: 0 <= k < n ==> !MeaningOf(lines[k], k + 1).Rejected?
    ensures Parsed(lines, n).Ok? ==> UniqueKeys(Parsed(lines, n).value)
    ensures Parsed(lines, n).Err? ==> exists k :: FirstRejected(lines, n, k, Parsed(lines, n).error)
  {
    hide MeaningOf, Inserted, UniqueKeys;
    if n == 0 {
      NoKeysAreUnique();
    } else {
      ParsedFailsAtFirst(lines, n - 1);
      var before, line := Parsed(lines, n - 1), MeaningOf(lines[n - 1], n);
      if before.Err? {
        var k :| FirstRejected(lines, n - 1, k, before.error);
        assert FirstRejected(lines, n, k, before.error);
      } else if line.Rejected? {
        assert FirstRejected(lines, n, n - 1, line.error);
      } else if line.Binds? {
        InsertedKeepsUnique(before.value, line.binding);
      }
    }
  }

  lemma NoKeysAreUnique()
    ensures UniqueKeys([])
  {
  }

  /** An ordered map that remembers the order of first insertion. */
  class EnvMap {
    var inner: seq<Binding>

    constructor ()
      ensures inner == []
    {
      inner := [];
    }

    method Insert(key: string, value: string)
      modifies this
      ensures inner == Inserted(old(inner), Binding(key, value))
      ensures forall k :: LookedUp(inner, k) == if k == key then Some(value) else LookedUp(old(inner), k)
      ensures Keys(inner) == if key in old(Keys(inner)) then old(Keys(inner)) else old(Keys(inner)) + [key]
      ensures UniqueKeys(old(inner)) ==> UniqueKeys(inner)
    {
      InsertedMeans(inner, Binding(key, value));
      if UniqueKeys(inner) {
        InsertedKeepsUnique(inner, Binding(key, value));
      }
      var n := PositionOf(inner, key);
      if n < |inner| {
        inner := inner[n := Binding(key, value)];
      } else {
        inner := inner + [Binding(key, value)];
      }
    }

    /** The other map's bindings one after the other. */
    method Extend(other: EnvMap)
      requires other != this
      modifies this
      ensures inner == InsertedAll(old(inner), old(other.inner))
    {
      for i := 0 to |other.inner|
        invariant other.inner == old(other.inner)
        invariant inner == InsertedAll(old(inner), other.inner[..i])
      {
        assert other.inner[..i + 1][..i] == other.inner[..i];
        Insert(other.inner[i].key, other.inner[i].value);
      }
      assert other.inner[..|other.inner|] == other.inner;
    }
  }

  function InsertedAll(bindings: seq<Binding>, more: seq<Binding>): seq<Binding> {
    if more == [] then bindings
    else Inserted(InsertedAll(bindings, more[..|more| - 1]), more[|more| - 1])
  }

  /** `parse_dotenv`. */
  method ParseDotenv(contents: string) returns (result: Result<EnvMap>)
    ensures match result
      case Ok(env) => fresh(env) && Parsed(Lines(contents), |Lines(contents)|) == Ok(env.inner)
      case Err(error) => Parsed(Lines(contents), |Lines(contents)|) == Err(error)
  {
    hide *;
    var env := new EnvMap();
    var lines := Lines(contents);
    ParsedStep(lines, 0);
    for idx := 0 to |lines|
      invariant fresh(env) && Parsed(lines, idx) == Ok(env.inner)
    {
      var line := ParseLine(lines[idx], idx + 1);
      ParsedStep(lines, idx);
      ErrorsPersist(lines, idx + 1);
      match line
      case Skipped =>
      case Rejected(error) => return Err(error);
      case Binds(binding) => env.Insert(binding.key, binding.value);
    }
    return Ok(env);
  }

  lemma ParsedStep(lines: seq<string>, n: nat)
    requires n <= |lines|
    ensures Parsed(lines, 0) == Ok([])
    ensures n < |lines| && Parsed(lines, n).Ok? ==>
      Parsed(lines, n + 1) ==
        match MeaningOf(lines[n], n + 1)
        case Skipped => Parsed(lines, n)
        case Rejected(error) => Err(error)
        case Binds(binding) => Ok(Inserted(Parsed(lines, n).value, binding))
  {
    hide MeaningOf, Inserted;
  }

  /** The body of its loop. */
  method ParseLine(raw: string, lineNo: nat) returns (meaning: LineMeaning)
    ensures meaning == MeaningOf(raw, lineNo)
  {
    hide Trim, StripExportPrefix, IndexOf, CommentStripped, ValueOf;
    var line := Trim(raw);
    if line == [] || line[0] == '#' {
      return Skipped;
    }
    line := StripExportPrefix(line);
    var eq := IndexOf(line, '=', 0);
    if eq == |line| {
      return Rejected(MissingSeparator(lineNo));
    }
    var key := Trim(line[..eq]);
    if key == [] {
      return Rejected(EmptyKey(lineNo));
    }
    var rawValue := StripValueInlineComment(line[eq + 1..]);
    var value := ParseValue(rawValue);
    return Binds(Binding(key, value));
  }

  lemma {:induction false} ErrorsPersistTo(lines: seq<string>, n: nat, m: nat)
    requires n <= m <= |lines| && Parsed(lines, n).Err?
    ensures Parsed(lines, m) == Parsed(lines, n)
  {
    hide MeaningOf, Inserted;
    if n < m {
      ErrorsPersistTo(lines, n, m - 1);
    }
  }

  lemma ErrorsPersist(lines: seq<string>, n: nat)
    requires n <= |lines|
    ensures Parsed(lines, n).Err? ==> Parsed(lines, |lines|) == Parsed(lines, n)
  {
    if Parsed(lines, n).Err? {
      ErrorsPersistTo(lines, n, |lines|);
    }
  }

  // ---------------------------------------------------------------- expansion

  datatype Expansion = Expansion(current: Environment, bindings: seq<Binding>, missing: seq<string>)

  /** After the first `n` bindings: each sees the base and the bindings before it, expanded. */
  function ExpandedTo(env: seq<Binding>, base: Environment, noted: seq<string>, n: nat): Expansion
    requires n <= |env|
  {
    if n == 0 then Expansion(base, [], noted)
    else
      var before, binding := ExpandedTo(env, base, noted, n - 1), env[n - 1];
      var tokens := Tokens(binding.value);
      var value := Substituted(tokens, before.current);
      Expansion(
        before.current[binding.key := value],
        Inserted(before.bindings, Binding(binding.key, value)),
        before.missing + Unbound(tokens, before.current))
  }

  /** `expand_env_values_tracking`. */
  method ExpandEnvValuesTracking(env: EnvMap, base: Environment, noted: seq<string>)
    returns (out: EnvMap, missing: seq<string>)
    ensures fresh(out)
    ensures out.inner == ExpandedTo(env.inner, base, noted, |env.inner|).bindings
    ensures missing == ExpandedTo(env.inner, base, noted, |env.inner|).missing
  {
    hide Tokens, Substituted, Unbound, Inserted;
    var current := base;
    out := new EnvMap();
    missing := noted;
    for i := 0 to |env.inner|
      invariant fresh(out)
      invariant ExpandedTo(env.inner, base, noted, i) == Expansion(current, out.inner, missing)
    {
      var binding := env.inner[i];
      var expanded;
      expanded, missing := InterpolateTracking(binding.value, current, missing);
      out.Insert(binding.key, expanded);
      current := current[binding.key := expanded];
    }
  }

  lemma {:induction false} ExpandedToAgrees(
      a: seq<Binding>, b: seq<Binding>, base: Environment, noted: seq<string>, n: nat)
    requires n <= |a| && n <= |b| && a[..n] == b[..n]
    ensures ExpandedTo(a, base, noted, n) == ExpandedTo(b, base, noted, n)
  {
    hide Tokens, Substituted, Unbound, Inserted;
    if n > 0 {
      assert a[..n][n - 1] == b[..n][n - 1] && a[..n][..n - 1] == a[..n - 1] && b[..n][..n - 1] == b[..n - 1];
      ExpandedToAgrees(a, b, base, noted, n - 1);
    }
  }

  lemma {:induction false} ExpandedShape(env: seq<Binding>, base: Environment, noted: seq<string>, n: nat)
    requires UniqueKeys(env) && n <= |env|
    ensures |ExpandedTo(env, base, noted, n).bindings| == n
    ensures forall i :: 0 <= i < n ==> ExpandedTo(env, base, noted, n).bindings[i].key == env[i].key
  {
    hide Tokens, Substituted, Unbound;
    if n > 0 {
      ExpandedShape(env, base, noted, n - 1);
    }
  }

  lemma ExpandedAppends(env: seq<Binding>, base: Environment, noted: seq<string>, n: nat)
    requires UniqueKeys(env) && n < |env|
    ensures var (before, after) := (ExpandedTo(env, base, noted, n), ExpandedTo(env, base, noted, n + 1));
      before.bindings <= after.bindings && before.missing <= after.missing
  {
    ExpandedShape(env, base, noted, n);
    hide Tokens, Substituted, Unbound;
  }

  lemma {:induction false} ExpandedGrows(env: seq<Binding>, base: Environment, noted: seq<string>, n: nat, m: nat)
    requires UniqueKeys(env) && n <= m <= |env|
    ensures ExpandedTo(env, base, noted, n).bindings <= ExpandedTo(env, base, noted, m).bindings
    ensures ExpandedTo(env, base, noted, n).missing <= ExpandedTo(env, base, noted, m).missing
    decreases m
  {
    hide *;
    if n < m {
      ExpandedGrows(env, base, noted, n, m - 1);
      ExpandedAppends(env, base, noted, m - 1);
    }
  }

  /** Later keys never influence earlier ones: expanding a prefix gives the prefix of expanding all. */
  lemma PrefixExpandsToPrefix(env: seq<Binding>, base: Environment, noted: seq<string>, n: nat)
    requires UniqueKeys(env) && n <= |env|
    ensures |ExpandedTo(env, base, noted, |env|).bindings| == |env|
    ensures ExpandedTo(env[..n], base, noted, n).bindings == ExpandedTo(env, base, noted, |env|).bindings[..n]
    ensures ExpandedTo(env[..n], base, noted, n).missing <= ExpandedTo(env, base, noted, |env|).missing
  {
    ExpandedShape(env, base, noted, |env|);
    ExpandedShape(env, base, noted, n);
    ExpandedGrows(env, base, noted, n, |env|);
    hide *;
    assert env[..n][..n] == env[..n];
    ExpandedToAgrees(env[..n], env, base, noted, n);
  }

  /** What the bindings before the `n`-th see: their own keys as expanded, and all others as in the base. */
  lemma {:induction false} SeenAt(env: seq<Binding>, base: Environment, noted: seq<string>, n: nat, key: string)
    requires n <= |env|
    ensures var before := ExpandedTo(env, base, noted, n);
      var own := LookedUp(before.bindings, key);
      && (own.Some? <==> exists i :: 0 <= i < n && env[i].key == key)
      && (if own.Some? then key in before.current && before.current[key] == own.value
          else if key in base then key in before.current && before.current[key] == base[key]
          else key !in before.current)
  {
    hide Tokens, Substituted, Unbound, Inserted, LookedUp;
    if n > 0 {
      SeenAt(env, base, noted, n - 1, key);
      var before, after := ExpandedTo(env, base, noted, n - 1), ExpandedTo(env, base, noted, n);
      InsertedKeepsOthers(before.bindings, Binding(env[n - 1].key, after.current[env[n - 1].key]), key);
    } else {
      NothingLookedUp(key);
    }
  }

  lemma NothingLookedUp(key: string)
    ensures LookedUp([], key) == None
  {
  }

  lemma ExpandedAt(env: seq<Binding>, base: Environment, noted: seq<string>, i: nat)
    requires UniqueKeys(env) && i < |env|
    ensures var out := ExpandedTo(env, base, noted, |env|).bindings;
      |out| == |env| && out[i].key == env[i].key
      && out[i].value == Interpolated(env[i].value, ExpandedTo(env, base, noted, i).current).text
    ensures ExpandedTo(env, base, noted, i + 1).missing
         == ExpandedTo(env, base, noted, i).missing
            + Interpolated(env[i].value, ExpandedTo(env, base, noted, i).current).missing
  {
    hide *;
    ExpandedShape(env, base, noted, |env|);
    ExpandedGrows(env, base, noted, i + 1, |env|);
    ExpandedLast(env, base, noted, i);
    AtOfFront(ExpandedTo(env, base, noted, i + 1).bindings, ExpandedTo(env, base, noted, |env|).bindings, i);
  }

  lemma AtOfFront(front: seq<Binding>, all: seq<Binding>, i: nat)
    requires front <= all && i < |front|
    ensures front[i] == all[i]
  {
  }

  lemma ExpandedLast(env: seq<Binding>, base: Environment, noted: seq<string>, i: nat)
    requires UniqueKeys(env) && i < |env|
    ensures var (before, after) := (ExpandedTo(env, base, noted, i), ExpandedTo(env, base, noted, i + 1));
      var got := Interpolated(env[i].value, before.current);
      && |after.bindings| == i + 1 && after.bindings[i] == Binding(env[i].key, got.text)
      && after.missing == before.missing + got.missing
  {
    ExpandedShape(env, base, noted, i);
    hide Tokens, Substituted, Unbound;
  }

  /**
   A binding that refers to a key gets the expanded value of the binding of that key before it, whatever
   the base holds; the base's value where no binding comes before it, as for a key that refers to itself;
   and nothing where neither has the key, which is then reported as missing.
   */
  lemma LaterSeesEarlier(
      env: seq<Binding>, base: Environment, noted: seq<string>, i: nat, before: seq<Token>, key: string, after: string)
    requires UniqueKeys(env) && i < |env| && env[i].value == WrittenAll(before) + ("${" + key + "}" + after)
    requires (forall t :: t in before ==> CanBeWritten(t)) && '}' !in key
    ensures var (out, seen) := (ExpandedTo(env, base, noted, |env|).bindings, ExpandedTo(env, base, noted, i).current);
      var (front, back) := (Interpolated(WrittenAll(before), seen), Interpolated(after, seen));
      && |out| == |env|
      && (forall j :: 0 <= j < i && env[j].key == key ==> out[i].value == front.text + (out[j].value + back.text))
      && ((forall j :: 0 <= j < i ==> env[j].key != key) ==>
            && out[i].value == front.text + ((if key in base then base[key] else []) + back.text)
            && (key !in base && key != [] ==> key in ExpandedTo(env, base, noted, i + 1).missing))
  {
    var out, now := ExpandedTo(env, base, noted, |env|).bindings, ExpandedTo(env, base, noted, i);
    ExpandedAt(env, base, noted, i);
    ReferenceStands(before, key, after, now.current);
    SeenAt(env, base, noted, i, key);
    ExpandedShape(env, base, noted, i);
    ExpandedGrows(env, base, noted, i, |env|);
    UniqueLookedUp(now.bindings, key);
    hide ExpandedTo, LookedUp, Interpolated, UniqueKeys;
    forall j | 0 <= j < i && env[j].key == key ensures now.current[key] == out[j].value {
      assert now.bindings[j] == out[j];
    }
  }

  lemma UniqueLookedUp(bindings: seq<Binding>, key: string)
    requires forall i, j :: 0 <= i < j < |bindings| ==> bindings[i].key != bindings[j].key
    ensures forall j :: 0 <= j < |bindings| && bindings[j].key == key ==>
      LookedUp(bindings, key) == Some(bindings[j].value)
  {
  }
}
