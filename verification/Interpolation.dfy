/**
 Variable references in configured text, and expanding an environment in order
 (crates/micromux/src/env.rs).

 The meaning of a text is given in two passes: which tokens it consists of, which does not depend on
 the environment, and what each token stands for. The code does both in one scan.
 */
module Interpolation {
  import opened Prelude

  type Environment = map<string, string>

  datatype Token = Literal(symbol: char) | Reference(name: string)

  predicate IsVarStart(c: char) {
    c == '_' || 'a' <= c <= 'z' || 'A' <= c <= 'Z'
  }

  predicate IsVarContinue(c: char) {
    IsVarStart(c) || '0' <= c <= '9'
  }

  predicate IsIdentifier(name: string) {
    name != [] && IsVarStart(name[0]) && forall i :: 0 <= i < |name| ==> IsVarContinue(name[i])
  }

  /** The first position of `c` from `start` on; the length where there is none. */
  function IndexOf(s: string, c: char, start: nat): (n: nat)
    requires start <= |s|
    ensures start <= n <= |s|
    ensures forall i :: start <= i < n ==> s[i] != c
    ensures n < |s| ==> s[n] == c
    decreases |s| - start
  {
    if start == |s| || s[start] == c then start else IndexOf(s, c, start + 1)
  }

  /** Where the run of name characters from `start` on ends. */
  function NameEnd(s: string, start: nat): (n: nat)
    requires start <= |s|
    ensures start <= n <= |s|
    ensures forall i :: start <= i < n ==> IsVarContinue(s[i])
    ensures n < |s| ==> !IsVarContinue(s[n])
    decreases |s| - start
  {
    if start == |s| || !IsVarContinue(s[start]) then start else NameEnd(s, start + 1)
  }

  // ---------------------------------------------------------------- tokens

  /** The first token of a text, and how many characters it takes. */
  function FirstToken(input: string): (r: (Token, nat))
    requires input != []
    ensures 1 <= r.1 <= |input|
  {
    if input[0] != '$' || |input| == 1 then (Literal(input[0]), 1)
    else if input[1] == '$' then (Literal('$'), 2)
    else if input[1] == '{' then
      var close := IndexOf(input, '}', 2);
      (Reference(input[2..close]), Min(close + 1, |input|))
    else if IsVarStart(input[1]) then
      var end := NameEnd(input, 2);
      (Reference(input[1..end]), end)
    else (Literal('$'), 1)
  }

  function Tokens(input: string): seq<Token> {
    if input == [] then [] else [FirstToken(input).0] + Tokens(input[FirstToken(input).1..])
  }

  function Meaning(token: Token, env: Environment): string {
    match token
    case Literal(symbol) => [symbol]
    case Reference(name) => if name in env then env[name] else []
  }

  /** What the tokens stand for. A value goes in as it is: it is never scanned again. */
  function Substituted(tokens: seq<Token>, env: Environment): string {
    if tokens == [] then []
    else Substituted(tokens[..|tokens| - 1], env) + Meaning(tokens[|tokens| - 1], env)
  }

  predicate IsUnbound(token: Token, env: Environment) {
    token.Reference? && token.name != [] && token.name !in env
  }

  function Noted(token: Token, env: Environment): seq<string> {
    if IsUnbound(token, env) then [token.name] else []
  }

  /** The names that are referenced and not bound, in the order of their references. */
  function Unbound(tokens: seq<Token>, env: Environment): seq<string> {
    if tokens == [] then []
    else Unbound(tokens[..|tokens| - 1], env) + Noted(tokens[|tokens| - 1], env)
  }

  lemma TokensStep(input: string, done: seq<Token>, i: nat)
    requires i < |input| && Tokens(input) == done + Tokens(input[i..])
    ensures var (token, width) := FirstToken(input[i..]);
      && i + width <= |input| && Tokens(input) == (done + [token]) + Tokens(input[i + width..])
  {
    var (token, width) := FirstToken(input[i..]);
    assert input[i..][width..] == input[i + width..];
    ConcatAssociative(done, [token], Tokens(input[i + width..]));
  }

  lemma OneMore(done: seq<Token>, token: Token, env: Environment)
    ensures Substituted(done + [token], env) == Substituted(done, env) + Meaning(token, env)
    ensures Unbound(done + [token], env) == Unbound(done, env) + Noted(token, env)
  {
    assert (done + [token])[..|done|] == done;
  }

  /** What one token adds to the output and to the missing names. */
  lemma TokenEffect(input: string, i: nat)
    requires i < |input|
    ensures var (token, width) := FirstToken(input[i..]);
      var last := i + 1 == |input|;
      && (input[i] != '$' ==> token == Literal(input[i]) && width == 1)
      && (input[i] == '$' && last ==> token == Literal('$') && width == 1)
      && (input[i] == '$' && !last && input[i + 1] == '$' ==> token == Literal('$') && width == 2)
      && (input[i] == '$' && !last && input[i + 1] == '{' ==>
            var close := IndexOf(input, '}', i + 2);
            token == Reference(input[i + 2..close]) && width == Min(close + 1, |input|) - i)
      && (input[i] == '$' && !last && IsVarStart(input[i + 1]) ==>
            var end := NameEnd(input, i + 2);
            token == Reference(input[i + 1..end]) && width == end - i)
      && (input[i] == '$' && !last && input[i + 1] != '$' && input[i + 1] != '{' && !IsVarStart(input[i + 1]) ==>
            token == Literal('$') && width == 1)
  {
    var rest := input[i..];
    if |rest| > 1 {
      IndexOfShift(input, i, '}', i + 2);
      NameEndShift(input, i, i + 2);
      var close, end := IndexOf(input, '}', i + 2), NameEnd(input, i + 2);
      assert rest[2..close - i] == input[i + 2..close] && rest[1..end - i] == input[i + 1..end];
    }
  }

  lemma {:induction false} IndexOfShift(s: string, i: nat, c: char, start: nat)
    requires i <= start <= |s|
    ensures IndexOf(s[i..], c, start - i) == IndexOf(s, c, start) - i
    decreases |s| - start
  {
    if start < |s| {
      IndexOfShift(s, i, c, start + 1);
    }
  }

  lemma {:induction false} NameEndShift(s: string, i: nat, start: nat)
    requires i <= start <= |s|
    ensures NameEnd(s[i..], start - i) == NameEnd(s, start) - i
    decreases |s| - start
  {
    if start < |s| {
      NameEndShift(s, i, start + 1);
    }
  }

  /** `interpolate_tracking`: one scan that also notes unbound names. */
  method InterpolateTracking(input: string, env: Environment, noted: seq<string>)
    returns (out: string, missing: seq<string>)
    ensures out == Substituted(Tokens(input), env)
    ensures missing == noted + Unbound(Tokens(input), env)
  {
    out, missing := [], noted;
    var i := 0;
    ghost var done: seq<Token> := [];
    TokensAtStart(input, env, noted);
    hide *;
    while i < |input|
      invariant ScannedTo(input, env, noted, done, i, out, missing)
    {
      ghost var next := done + [FirstToken(input[i..]).0];
      ScannedFurther(input, env, noted, done, i, out, missing);
      out, missing, i := TakeToken(input, i, env, out, missing);
      done := next;
    }
    ScannedAll(input, env, noted, done, i, out, missing);
  }

  /** After the tokens `done`, which end at position `i`. */
  ghost predicate ScannedTo(
      input: string, env: Environment, noted: seq<string>, done: seq<Token>, i: nat, out: string,
      missing: seq<string>) {
    && i <= |input| && Tokens(input) == done + Tokens(input[i..])
    && out == Substituted(done, env) && missing == noted + Unbound(done, env)
  }

  lemma TokensAtStart(input: string, env: Environment, noted: seq<string>)
    ensures ScannedTo(input, env, noted, [], 0, [], noted)
  {
    assert Substituted([], env) == [] && Unbound([], env) == [];
    hide Tokens, Substituted, Unbound;
    assert input[0..] == input && noted + [] == noted && [] + Tokens(input) == Tokens(input);
  }

  lemma ScannedFurther(
      input: string, env: Environment, noted: seq<string>, done: seq<Token>, i: nat, out: string,
      missing: seq<string>)
    requires i < |input| && ScannedTo(input, env, noted, done, i, out, missing)
    ensures var (token, width) := FirstToken(input[i..]);
      ScannedTo(input, env, noted, done + [token], i + width, out + Meaning(token, env), missing + Noted(token, env))
  {
    var token := FirstToken(input[i..]).0;
    TokensStep(input, done, i);
    OneMore(done, token, env);
    hide FirstToken, Tokens, Substituted, Unbound, Meaning, Noted;
    ConcatAssociative(noted, Unbound(done, env), Noted(token, env));
  }

  lemma ScannedAll(
      input: string, env: Environment, noted: seq<string>, done: seq<Token>, i: nat, out: string,
      missing: seq<string>)
    requires i >= |input| && ScannedTo(input, env, noted, done, i, out, missing)
    ensures out == Substituted(Tokens(input), env) && missing == noted + Unbound(Tokens(input), env)
  {
    assert Tokens(input[i..]) == [];
    hide Tokens;
    assert done + [] == done;
  }

  /** One round of its loop: the token at `i`. */
  method TakeToken(input: string, i: nat, env: Environment, before: string, noted: seq<string>)
    returns (out: string, missing: seq<string>, next: nat)
    requires i < |input|
    ensures next == i + FirstToken(input[i..]).1
    ensures out == before + Meaning(FirstToken(input[i..]).0, env)
    ensures missing == noted + Noted(FirstToken(input[i..]).0, env)
  {
    out, missing := before, noted;
    TokenEffect(input, i);
    hide FirstToken, IndexOf, NameEnd;
    assert noted + [] == noted && before + [] == before;
    if input[i] != '$' {
      return before + [input[i]], noted, i + 1;
    }
    if i + 1 == |input| {
      return before + ['$'], noted, i + 1;
    }
    if input[i + 1] == '$' {
      return before + ['$'], noted, i + 2;
    }
    if input[i + 1] == '{' {
      var key;
      key, next := BracedName(input, i + 2);
      if key in env {
        out := out + env[key];
      } else if key != [] {
        missing := missing + [key];
      }
    } else if IsVarStart(input[i + 1]) {
      var key;
      key, next := BareName(input, i + 1);
      if key in env {
        out := out + env[key];
      } else {
        missing := missing + [key];
      }
    } else {
      return before + ['$'], noted, i + 1;
    }
  }

  /** Its inner loop for `${`: everything up to the closing brace, which need not be there. */
  method BracedName(input: string, start: nat) returns (key: string, next: nat)
    requires start <= |input|
    ensures key == input[start..IndexOf(input, '}', start)]
    ensures next == Min(IndexOf(input, '}', start) + 1, |input|)
  {
    key, next := [], start;
    while next < |input|
      invariant start <= next <= |input| && key == input[start..next]
      invariant IndexOf(input, '}', start) == IndexOf(input, '}', next)
    {
      var c := input[next];
      next := next + 1;
      if c == '}' {
        return;
      }
      key := key + [c];
    }
  }

  /** Its inner loop for `$` before a letter or an underscore. */
  method BareName(input: string, start: nat) returns (key: string, next: nat)
    requires start < |input| && IsVarStart(input[start])
    ensures next == NameEnd(input, start + 1) && key == input[start..next]
  {
    key, next := [input[start]], start + 1;
    while next < |input| && IsVarContinue(input[next])
      invariant start + 1 <= next <= |input| && key == input[start..next]
      invariant NameEnd(input, start + 1) == NameEnd(input, next)
    {
      key := key + [input[next]];
      next := next + 1;
    }
  }

  // ---------------------------------------------------------------- what can be written

  /** A token, written so that nothing around it can change its reading. */
  function Written(token: Token): string {
    match token
    case Literal(symbol) => if symbol == '$' then "$$" else [symbol]
    case Reference(name) => "${" + name + "}"
  }

  function WrittenAll(tokens: seq<Token>): string {
    if tokens == [] then [] else Written(tokens[0]) + WrittenAll(tokens[1..])
  }

  predicate CanBeWritten(token: Token) {
    token.Reference? ==> '}' !in token.name
  }

  lemma FirstTokenOfWritten(token: Token, rest: string)
    requires CanBeWritten(token)
    ensures FirstToken(Written(token) + rest) == (token, |Written(token)|)
  {
    match token
    case Literal(symbol) =>
    case Reference(name) =>
      var input, close := Written(token) + rest, 2 + |name|;
      assert input[0] == '$' && input[1] == '{' && input[2..close] == name && input[close] == '}';
      assert forall i :: 2 <= i < close ==> input[i] == name[i - 2];
      assert IndexOf(input, '}', 2) == close;
  }

  /** Any tokens can be written down, and are read back one for one. */
  lemma {:induction false} WrittenReadsBack(tokens: seq<Token>)
    requires forall token :: token in tokens ==> CanBeWritten(token)
    ensures Tokens(WrittenAll(tokens)) == tokens
  {
    if tokens != [] {
      var rest := WrittenAll(tokens[1..]);
      WrittenReadsBack(tokens[1..]);
      FirstTokenOfWritten(tokens[0], rest);
      hide FirstToken;
      assert (Written(tokens[0]) + rest)[|Written(tokens[0])|..] == rest;
    }
  }

  /** The forms that are not written with braces or a doubled dollar sign. */
  lemma BareForms(name: string, rest: string)
    ensures IsIdentifier(name) && (rest == [] || !IsVarContinue(rest[0])) ==>
      Tokens("$" + name + rest) == [Reference(name)] + Tokens(rest)
    ensures (rest == [] || (rest[0] != '$' && rest[0] != '{' && !IsVarStart(rest[0]))) ==>
      Tokens("$" + rest) == [Literal('$')] + Tokens(rest)
    ensures '}' !in name ==> Tokens("${" + name) == [Reference(name)]
  {
    assert ("$" + rest)[1..] == rest;
    if IsIdentifier(name) && (rest == [] || !IsVarContinue(rest[0])) {
      var input, end := "$" + name + rest, 1 + |name|;
      assert input[1..end] == name && input[end..] == rest;
      assert forall i :: 1 <= i < end ==> input[i] == name[i - 1];
      assert FirstToken(input) == (Reference(name), end);
    }
    if '}' !in name {
      var input := "${" + name;
      assert input[2..] == name && input[2..|input|] == name;
      assert forall i :: 2 <= i < |input| ==> input[i] == name[i - 2];
      assert IndexOf(input, '}', 2) == |input|;
      assert FirstToken(input) == (Reference(name), |input|);
      assert input[|input|..] == [];
    }
  }

  /** A text with every dollar sign doubled. */
  function Doubled(s: string): string {
    if s == [] then [] else (if s[0] == '$' then "$$" else [s[0]]) + Doubled(s[1..])
  }

  lemma {:induction false} SubstitutedFront(first: Token, rest: seq<Token>, env: Environment)
    ensures Substituted([first] + rest, env) == Meaning(first, env) + Substituted(rest, env)
    decreases |rest|
  {
    OneMoreOf(first, rest, env);
    if rest != [] {
      SubstitutedFront(first, rest[..|rest| - 1], env);
      hide *;
      ConcatAssociative(
        Meaning(first, env), Substituted(rest[..|rest| - 1], env), Meaning(rest[|rest| - 1], env));
    }
  }

  lemma {:induction false} UnboundFront(first: Token, rest: seq<Token>, env: Environment)
    ensures Unbound([first] + rest, env) == Noted(first, env) + Unbound(rest, env)
    decreases |rest|
  {
    OneMoreOf(first, rest, env);
    if rest != [] {
      UnboundFront(first, rest[..|rest| - 1], env);
      hide *;
      ConcatAssociative(Noted(first, env), Unbound(rest[..|rest| - 1], env), Noted(rest[|rest| - 1], env));
    }
  }

  lemma OneMoreOf(first: Token, rest: seq<Token>, env: Environment)
    ensures rest == [] ==> Substituted([first] + rest, env) == Meaning(first, env) + Substituted(rest, env)
    ensures rest == [] ==> Unbound([first] + rest, env) == Noted(first, env) + Unbound(rest, env)
    ensures rest != [] ==> var (front, last) := (rest[..|rest| - 1], rest[|rest| - 1]);
      && Substituted([first] + rest, env) == Substituted([first] + front, env) + Meaning(last, env)
      && Unbound([first] + rest, env) == Unbound([first] + front, env) + Noted(last, env)
      && Substituted(rest, env) == Substituted(front, env) + Meaning(last, env)
      && Unbound(rest, env) == Unbound(front, env) + Noted(last, env)
  {
    hide *;
    if rest == [] {
      OneMore([], first, env);
      NothingStandsForNothing(env);
      assert [first] + rest == [] + [first];
    } else {
      var front, last := rest[..|rest| - 1], rest[|rest| - 1];
      OneMore(front, last, env);
      OneMore([first] + front, last, env);
      assert [first] + rest == ([first] + front) + [last] && rest == front + [last];
    }
  }

  lemma NothingStandsForNothing(env: Environment)
    ensures Substituted([], env) == [] && Unbound([], env) == []
  {
  }

  /** Any text survives interpolation once its dollar signs are doubled. */
  lemma {:induction false} DoubledStandsForItself(s: string, env: Environment)
    ensures Substituted(Tokens(Doubled(s)), env) == s && Unbound(Tokens(Doubled(s)), env) == []
  {
    if s != [] {
      var token, rest := Literal(s[0]), Doubled(s[1..]);
      DoubledStandsForItself(s[1..], env);
      FirstTokenOfWritten(token, rest);
      TokensAfter(Written(token), rest);
      SubstitutedFront(token, Tokens(rest), env);
      UnboundFront(token, Tokens(rest), env);
      hide FirstToken, Tokens, Substituted, Unbound;
      assert [s[0]] + s[1..] == s;
    }
  }

  lemma TokensAfter(front: string, rest: string)
    requires front != [] && FirstToken(front + rest).1 == |front|
    ensures Tokens(front + rest) == [FirstToken(front + rest).0] + Tokens(rest)
  {
    hide FirstToken;
    assert (front + rest)[|front|..] == rest;
  }

  // ---------------------------------------------------------------- what every form stands for

  /** A text, and the names it misses. */
  datatype Outcome = Outcome(text: string, missing: seq<string>)

  function Interpolated(input: string, env: Environment): Outcome {
    Outcome(Substituted(Tokens(input), env), Unbound(Tokens(input), env))
  }

  /** One after the other. */
  function Then(a: Outcome, b: Outcome): Outcome {
    Outcome(a.text + b.text, a.missing + b.missing)
  }

  function FromTokens(tokens: seq<Token>, env: Environment): Outcome {
    Outcome(Substituted(tokens, env), Unbound(tokens, env))
  }

  lemma {:induction false} TokensOneByOne(tokens: seq<Token>, more: seq<Token>, env: Environment)
    ensures FromTokens(tokens + more, env) == Then(FromTokens(tokens, env), FromTokens(more, env))
    decreases |more|
  {
    hide *;
    if more == [] {
      NothingStandsForNothing(env);
      assert tokens + more == tokens;
      FromTokensIs(tokens, env);
      FromTokensIs(more, env);
      assert FromTokens(tokens, env).text + [] == FromTokens(tokens, env).text;
      assert FromTokens(tokens, env).missing + [] == FromTokens(tokens, env).missing;
      ThenIs(FromTokens(tokens, env), FromTokens(more, env));
    } else {
      var front, last := more[..|more| - 1], more[|more| - 1];
      TokensOneByOne(tokens, front, env);
      assert tokens + more == (tokens + front) + [last] && more == front + [last];
      OneMoreToken(tokens + front, last, env);
      OneMoreToken(front, last, env);
      ThenAssociative(FromTokens(tokens, env), FromTokens(front, env), Outcome(Meaning(last, env), Noted(last, env)));
    }
  }

  lemma FromTokensIs(tokens: seq<Token>, env: Environment)
    ensures FromTokens(tokens, env) == Outcome(Substituted(tokens, env), Unbound(tokens, env))
  {
    hide Substituted, Unbound;
  }

  lemma ThenIs(a: Outcome, b: Outcome)
    ensures Then(a, b) == Outcome(a.text + b.text, a.missing + b.missing)
  {
  }

  lemma ThenAssociative(a: Outcome, b: Outcome, c: Outcome)
    ensures Then(Then(a, b), c) == Then(a, Then(b, c))
  {
  }

  lemma OneMoreToken(tokens: seq<Token>, last: Token, env: Environment)
    ensures FromTokens(tokens + [last], env)
         == Then(FromTokens(tokens, env), Outcome(Meaning(last, env), Noted(last, env)))
  {
    OneMore(tokens, last, env);
    hide Substituted, Unbound, Meaning, Noted;
  }

  lemma {:induction false} TokensAfterWritten(before: seq<Token>, rest: string)
    requires forall token :: token in before ==> CanBeWritten(token)
    ensures Tokens(WrittenAll(before) + rest) == before + Tokens(rest)
  {
    if before == [] {
      assert WrittenAll(before) + rest == rest && before + Tokens(rest) == Tokens(rest);
    } else {
      var first, more := before[0], WrittenAll(before[1..]) + rest;
      assert forall token :: token in before[1..] ==> token in before;
      TokensAfterWritten(before[1..], rest);
      FirstTokenOfWritten(first, more);
      TokensAfter(Written(first), more);
      hide *;
      WrittenFront(before, rest);
      assert before == [first] + before[1..];
      ConcatAssociative([first], before[1..], Tokens(rest));
    }
  }

  lemma WrittenFront(before: seq<Token>, rest: string)
    requires before != []
    ensures WrittenAll(before) + rest == Written(before[0]) + (WrittenAll(before[1..]) + rest)
  {
    hide Written;
  }

  /** What is written before, one more token, and what comes after. */
  lemma TokenStands(before: seq<Token>, form: string, token: Token, after: string, env: Environment)
    requires (forall t :: t in before ==> CanBeWritten(t)) && Tokens(form + after) == [token] + Tokens(after)
    ensures Interpolated(WrittenAll(before) + (form + after), env)
         == Then(Interpolated(WrittenAll(before), env),
                 Then(Outcome(Meaning(token, env), Noted(token, env)), Interpolated(after, env)))
  {
    var rest := Tokens(after);
    TokensAfterWritten(before, form + after);
    TokensAfterWritten(before, []);
    assert WrittenAll(before) + [] == WrittenAll(before);
    assert Tokens(WrittenAll(before)) == before by {
      assert before + Tokens([]) == before;
    }
    hide *;
    InterpolatedIs(WrittenAll(before) + (form + after), env);
    InterpolatedIs(WrittenAll(before), env);
    InterpolatedIs(after, env);
    TokensOneByOne(before, [token] + rest, env);
    TokensOneByOne([token], rest, env);
    OneToken(token, env);
  }

  lemma InterpolatedIs(input: string, env: Environment)
    ensures Interpolated(input, env) == FromTokens(Tokens(input), env)
  {
    hide Tokens, Substituted, Unbound;
  }

  lemma OneToken(token: Token, env: Environment)
    ensures FromTokens([token], env) == Outcome(Meaning(token, env), Noted(token, env))
  {
    OneMoreToken([], token, env);
    assert [] + [token] == [token];
    hide Meaning, Noted;
  }

  /** Letters, digits and underscores of ASCII, not beginning with a digit. */
  ghost predicate IsName(name: string) {
    && name != [] && !('0' <= name[0] <= '9')
    && forall c :: c in name ==> 'a' <= c <= 'z' || 'A' <= c <= 'Z' || '0' <= c <= '9' || c == '_'
  }

  /** What cannot go on a bare name. */
  ghost predicate EndsName(after: string) {
    after == [] ||
    var c := after[0];
    !('a' <= c <= 'z' || 'A' <= c <= 'Z' || '0' <= c <= '9' || c == '_')
  }

  lemma NameIsIdentifier(name: string, after: string)
    requires IsName(name)
    ensures IsIdentifier(name) && (EndsName(after) ==> after == [] || !IsVarContinue(after[0]))
  {
    assert name[0] in name;
    forall i | 0 <= i < |name| ensures IsVarContinue(name[i]) {
      assert name[i] in name;
    }
  }

  /**
   A reference stands for the value that its name is bound to, and is missed exactly if the name, which
   must not be empty, is not bound; what comes before and after is what it would be on its own.
   */
  lemma ReferenceStands(before: seq<Token>, name: string, after: string, env: Environment)
    requires (forall t :: t in before ==> CanBeWritten(t)) && '}' !in name
    ensures var reference := Outcome(if name in env then env[name] else [],
                                     if name in env || name == [] then [] else [name]);
      var text := WrittenAll(before);
      && Interpolated(text + ("${" + name + "}" + after), env)
           == Then(Interpolated(text, env), Then(reference, Interpolated(after, env)))
      && (IsName(name) && EndsName(after) ==>
            Interpolated(text + ("$" + name + after), env)
              == Then(Interpolated(text, env), Then(reference, Interpolated(after, env))))
      && Interpolated(text + ("${" + name), env) == Then(Interpolated(text, env), reference)
  {
    var token, text := Reference(name), WrittenAll(before);
    MeaningOfReference(name, env);
    FirstTokenOfWritten(token, after);
    TokensAfter(Written(token), after);
    assert Written(token) == "${" + name + "}";
    BareForms(name, after);
    hide *;
    assert ("${" + name + "}") + after == "${" + name + "}" + after;
    TokenStands(before, Written(token), token, after, env);
    if IsName(name) && EndsName(after) {
      NameIsIdentifier(name, after);
      TokenStands(before, "$" + name, token, after, env);
    }
    NothingAfter(before, "${" + name, token, env);
  }

  lemma MeaningOfReference(name: string, env: Environment)
    ensures Meaning(Reference(name), env) == if name in env then env[name] else []
    ensures Noted(Reference(name), env) == if name in env || name == [] then [] else [name]
    ensures CanBeWritten(Reference(name)) <==> '}' !in name
  {
  }

  lemma NothingAfter(before: seq<Token>, form: string, token: Token, env: Environment)
    requires (forall t :: t in before ==> CanBeWritten(t)) && Tokens(form) == [token]
    ensures Interpolated(WrittenAll(before) + form, env)
         == Then(Interpolated(WrittenAll(before), env), Outcome(Meaning(token, env), Noted(token, env)))
  {
    assert Tokens([]) == [] && Interpolated([], env) == Outcome([], []);
    assert form + [] == form && [token] + [] == [token];
    hide Tokens, Interpolated, Meaning, Noted;
    TokenStands(before, form, token, [], env);
    var o := Outcome(Meaning(token, env), Noted(token, env));
    assert Then(o, Outcome([], [])) == o;
  }

  /** Everything else stands for itself: any other character, a doubled dollar sign for one, and a lone one. */
  lemma LiteralStands(before: seq<Token>, c: char, after: string, env: Environment)
    requires forall t :: t in before ==> CanBeWritten(t)
    ensures var text := WrittenAll(before);
      && (c != '$' ==>
            Interpolated(text + ([c] + after), env)
              == Then(Interpolated(text, env), Then(Outcome([c], []), Interpolated(after, env))))
      && Interpolated(text + ("$$" + after), env)
           == Then(Interpolated(text, env), Then(Outcome("$", []), Interpolated(after, env)))
      && (after == [] || (after[0] != '$' && after[0] != '{' && !IsName([after[0]])) ==>
            Interpolated(text + ("$" + after), env)
              == Then(Interpolated(text, env), Then(Outcome("$", []), Interpolated(after, env))))
    ensures Interpolated([], env) == Outcome([], [])
  {
    var token := if c == '$' then Literal('a') else Literal(c);
    MeaningOfLiteral(token.symbol, env);
    MeaningOfLiteral('$', env);
    FirstTokenOfWritten(token, after);
    TokensAfter(Written(token), after);
    FirstTokenOfWritten(Literal('$'), after);
    TokensAfter(Written(Literal('$')), after);
    BareForms([], after);
    assert Written(token) == [token.symbol] && Written(Literal('$')) == "$$";
    assert Interpolated([], env) == Outcome([], []);
    assert after != [] ==> (IsVarStart(after[0]) ==> IsName([after[0]]));
    hide *;
    TokenStands(before, [token.symbol], token, after, env);
    TokenStands(before, "$$", Literal('$'), after, env);
    if after == [] || (after[0] != '$' && after[0] != '{' && !IsName([after[0]])) {
      TokenStands(before, "$", Literal('$'), after, env);
    }
  }

  lemma MeaningOfLiteral(c: char, env: Environment)
    ensures Meaning(Literal(c), env) == [c] && Noted(Literal(c), env) == [] && CanBeWritten(Literal(c))
  {
  }
}
