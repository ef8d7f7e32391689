/**
 The glob compiler: four rewriting passes turn a resource or action pattern into
 an anchored regular expression. Its language is that of the pattern read left
 to right: `**` any text, `*` text without dots, anything else itself.
 */
module Globs {
  import opened Options

  /** Stands for `**` between two passes (U+2051). */
  const PLACEHOLDER: char := '\U{2051}'

  /** The characters the first pass escapes; the star is left to the later passes. */
  const ESCAPED: set<char> := {'$', '(', ')', '+', '-', '.', '/', '?', '[', '\\', ']', '^', '{', '|', '}'}

  // ── The four passes ────────────

  function EscapeChar(c: char): string {
    if c in ESCAPED then ['\\', c] else [c]
  }

  function EscapePass(s: string): string {
    if s == "" then "" else EscapeChar(s[0]) + EscapePass(s[1..])
  }

  /** `s` starts with `**`. */
  predicate DoubleStar(s: string) {
    |s| >= 2 && s[0] == '*' && s[1] == '*'
  }

  function DoubleStarPass(s: string): string {
    if s == "" then ""
    else if DoubleStar(s) then [PLACEHOLDER] + DoubleStarPass(s[2..])
    else [s[0]] + DoubleStarPass(s[1..])
  }

  function StarPass(s: string): string {
    if s == "" then "" else (if s[0] == '*' then "[^.]*" else [s[0]]) + StarPass(s[1..])
  }

  function PlaceholderPass(s: string): string {
    if s == "" then "" else (if s[0] == PLACEHOLDER then ".*" else [s[0]]) + PlaceholderPass(s[1..])
  }

  function Body(pattern: string): string {
    PlaceholderPass(StarPass(DoubleStarPass(EscapePass(pattern))))
  }

  function ArbacPatternToRegex(input: string): string {
    "^" + Body(input) + "$"
  }

  // ── The meaning of the emitted expressions ────────────

  /** A literal, `[^.]*` or `.*`. */
  datatype Token = Lit(c: char) | Segment | Anything

  function Prepend(t: Token, rest: Option<seq<Token>>): Option<seq<Token>> {
    if rest.None? then None else Some([t] + rest.value)
  }

  /** The tokens of an expression up to its final `$`; `None` outside the fragment. */
  function ParseToEnd(s: string): Option<seq<Token>> {
    if s == "$" then Some([])
    else if |s| >= 2 && s[0] == '\\' then Prepend(Lit(s[1]), ParseToEnd(s[2..]))
    else if ".*" <= s then Prepend(Anything, ParseToEnd(s[2..]))
    else if "[^.]*" <= s then Prepend(Segment, ParseToEnd(s[5..]))
    else if s != "" && s[0] !in ESCAPED && s[0] != '*' then Prepend(Lit(s[0]), ParseToEnd(s[1..]))
    else None
  }

  function ParseRegex(re: string): Option<seq<Token>> {
    if re != "" && re[0] == '^' then ParseToEnd(re[1..]) else None
  }

  /** What `.` does not match. */
  const LINE_TERMINATORS: set<char> := {'\n', '\r', '\U{2028}', '\U{2029}'}

  predicate Fits(t: Token, text: string)
    requires !t.Lit?
  {
    if t.Segment? then '.' !in text else forall c :: c in text ==> c !in LINE_TERMINATORS
  }

  predicate Matches(ts: seq<Token>, text: string)
    decreases |ts|
  {
    if ts == [] then text == ""
    else if ts[0].Lit? then text != "" && text[0] == ts[0].c && Matches(ts[1..], text[1..])
    else exists k :: 0 <= k <= |text| && Fits(ts[0], text[..k]) && Matches(ts[1..], text[k..])
  }

  /** `regex.test(text)` for a compiled pattern. */
  predicate Test(re: string, text: string) {
    ParseRegex(re).Some? && Matches(ParseRegex(re).value, text)
  }

  // ── The pattern read left to right ────────────

  /** The first token of a non-empty pattern, and how many characters it takes. */
  function FirstToken(p: string): Token
    requires p != ""
  {
    if DoubleStar(p) then Anything else if p[0] == '*' then Segment else Lit(p[0])
  }

  function FirstLength(p: string): (n: nat)
    requires p != ""
    ensures 1 <= n <= |p|
  {
    if DoubleStar(p) then 2 else 1
  }

  function Tokens(p: string): seq<Token> {
    if p == "" then [] else [FirstToken(p)] + Tokens(p[FirstLength(p)..])
  }

  /** The same token with a literal placeholder read as `**`, which is what the last pass makes of it. */
  function FirstCompiled(p: string): Token
    requires p != ""
  {
    if p[0] == PLACEHOLDER then Anything else FirstToken(p)
  }

  function CompiledTokens(p: string): seq<Token> {
    if p == "" then [] else [FirstCompiled(p)] + CompiledTokens(p[FirstLength(p)..])
  }

  lemma {:induction false} StarPassAppends(s: string, t: string)
    ensures StarPass(s + t) == StarPass(s) + StarPass(t)
  {
    if s == "" {
      assert s + t == t;
    } else {
      assert (s + t)[1..] == s[1..] + t;
      StarPassAppends(s[1..], t);
    }
  }

  lemma {:induction false} PlaceholderPassAppends(s: string, t: string)
    ensures PlaceholderPass(s + t) == PlaceholderPass(s) + PlaceholderPass(t)
  {
    if s == "" {
      assert s + t == t;
    } else {
      assert (s + t)[1..] == s[1..] + t;
      PlaceholderPassAppends(s[1..], t);
    }
  }

  /** The last two passes together, character by character. */
  function Emit(c: char): string {
    if c == '*' then "[^.]*" else if c == PLACEHOLDER then ".*" else [c]
  }

  function LastPasses(s: string): string {
    PlaceholderPass(StarPass(s))
  }

  lemma LastPassesCons(c: char, s: string)
    ensures LastPasses([c] + s) == Emit(c) + LastPasses(s)
  {
    assert ([c] + s)[1..] == s;
    var head := if c == '*' then "[^.]*" else [c];
    assert StarPass([c] + s) == head + StarPass(s);
    PlaceholderPassAppends(head, StarPass(s));
    if c == '*' {
      NoPlaceholder("[^.]*");
    } else {
      assert [c][1..] == "";
      assert PlaceholderPass([c]) == Emit(c) + PlaceholderPass("");
    }
  }

  lemma {:induction false} NoPlaceholder(s: string)
    requires PLACEHOLDER !in s
    ensures PlaceholderPass(s) == s
  {
    if s != "" {
      NoPlaceholder(s[1..]);
    }
  }

  lemma EscapedHead(p: string)
    ensures p == "" <==> EscapePass(p) == ""
    ensures p != "" ==> (EscapePass(p)[0] == '*' <==> p[0] == '*')
  {
  }

  /** What the passes make of it. */
  function FirstEmitted(p: string): string
    requires p != ""
  {
    if DoubleStar(p) then ".*"
    else if p[0] in ESCAPED then ['\\', p[0]]
    else Emit(p[0])
  }

  lemma BodyOfStars(p: string)
    requires DoubleStar(p)
    ensures Body(p) == ".*" + Body(p[2..])
  {
    var e := EscapePass(p);
    assert p[1..][0] == '*' && p[1..][1..] == p[2..];
    assert EscapePass(p[1..]) == "*" + EscapePass(p[2..]);
    assert e == "*" + EscapePass(p[1..]);
    assert DoubleStar(e) && e[2..] == EscapePass(p[2..]);
    LastPassesCons(PLACEHOLDER, DoubleStarPass(e[2..]));
  }

  lemma BodyOfPlain(p: string)
    requires p != "" && !DoubleStar(p) && p[0] !in ESCAPED
    ensures Body(p) == Emit(p[0]) + Body(p[1..])
  {
    var e := EscapePass(p);
    EscapedHead(p[1..]);
    assert e == [p[0]] + EscapePass(p[1..]);
    assert !DoubleStar(e) by {
      if |e| >= 2 { assert e[1] == EscapePass(p[1..])[0]; }
    }
    assert e[1..] == EscapePass(p[1..]);
    LastPassesCons(p[0], DoubleStarPass(e[1..]));
  }

  lemma BodyOfEscaped(p: string)
    requires p != "" && p[0] in ESCAPED
    ensures Body(p) == ['\\', p[0]] + Body(p[1..])
  {
    var e := EscapePass(p);
    assert e == ['\\', p[0]] + EscapePass(p[1..]);
    assert e[1..] == [p[0]] + EscapePass(p[1..]);
    assert e[1..][1..] == EscapePass(p[1..]);
    LastPassesCons('\\', DoubleStarPass(e[1..]));
    LastPassesCons(p[0], DoubleStarPass(EscapePass(p[1..])));
  }

  /** How the body of a non-empty pattern starts. */
  lemma BodyStep(p: string)
    requires p != ""
    ensures Body(p) == FirstEmitted(p) + Body(p[FirstLength(p)..])
  {
    if DoubleStar(p) {
      BodyOfStars(p);
    } else if p[0] in ESCAPED {
      BodyOfEscaped(p);
    } else {
      BodyOfPlain(p);
    }
  }

  lemma ParsesWide(rest: string)
    ensures ParseToEnd(".*" + rest) == Prepend(Anything, ParseToEnd(rest))
    ensures ParseToEnd("[^.]*" + rest) == Prepend(Segment, ParseToEnd(rest))
  {
    assert (".*" + rest)[2..] == rest && ("[^.]*" + rest)[5..] == rest;
    assert (".*" + rest)[0] == '.' && ("[^.]*" + rest)[0] == '[';
  }

  lemma ParsesLiteral(c: char, rest: string)
    ensures ParseToEnd(['\\', c] + rest) == Prepend(Lit(c), ParseToEnd(rest))
    ensures c !in ESCAPED && c != '*' ==> ParseToEnd([c] + rest) == Prepend(Lit(c), ParseToEnd(rest))
  {
    assert (['\\', c] + rest)[2..] == rest && ([c] + rest)[1..] == rest;
    assert ([c] + rest)[0] == c;
  }

  /** What is emitted for a token parses back to it. */
  lemma EmittedParses(p: string, rest: string)
    requires p != ""
    ensures ParseToEnd(FirstEmitted(p) + rest) == Prepend(FirstCompiled(p), ParseToEnd(rest))
  {
    ParsesWide(rest);
    ParsesLiteral(p[0], rest);
  }

  lemma ParseStep(p: string, body: string, tail: string)
    requires p != "" && body == FirstEmitted(p) + tail
    ensures ParseToEnd(body + "$") == Prepend(FirstCompiled(p), ParseToEnd(tail + "$"))
  {
    assert body + "$" == FirstEmitted(p) + (tail + "$");
    EmittedParses(p, tail + "$");
  }

  lemma {:induction false} BodyParses(p: string)
    ensures ParseToEnd(Body(p) + "$") == Some(CompiledTokens(p))
    decreases |p|
  {
    if p != "" {
      var rest := p[FirstLength(p)..];
      BodyStep(p);
      ParseStep(p, Body(p), Body(rest));
      BodyParses(rest);
    }
  }

  lemma {:induction false} TokensWithoutPlaceholder(p: string)
    ensures CompiledTokens(p) == Tokens(p) <==> PLACEHOLDER !in p
    decreases |p|
  {
    if p != "" {
      var k := FirstLength(p);
      TokensWithoutPlaceholder(p[k..]);
      assert p == p[..k] + p[k..];
      assert PLACEHOLDER in p[..k] <==> p[0] == PLACEHOLDER;
      assert CompiledTokens(p)[1..] == CompiledTokens(p[k..]) && Tokens(p)[1..] == Tokens(p[k..]);
      assert p[0] == PLACEHOLDER ==> CompiledTokens(p)[0] != Tokens(p)[0];
    }
  }

  /**
   The compiled expression always parses, and reads exactly as the pattern
   left to right if and only if the pattern does not contain the placeholder.
   */
  lemma CompiledIffNoPlaceholder(p: string)
    ensures ParseRegex(ArbacPatternToRegex(p)).Some?
    ensures ParseRegex(ArbacPatternToRegex(p)) == Some(Tokens(p)) <==> PLACEHOLDER !in p
  {
    assert ArbacPatternToRegex(p)[1..] == Body(p) + "$";
    BodyParses(p);
    TokensWithoutPlaceholder(p);
  }

  lemma CompiledLanguage(p: string, text: string)
    requires PLACEHOLDER !in p
    ensures Test(ArbacPatternToRegex(p), text) <==> Matches(Tokens(p), text)
  {
    CompiledIffNoPlaceholder(p);
  }

  lemma LitFirst(c: char, rest: seq<Token>, text: string)
    ensures Matches([Lit(c)] + rest, text) <==> text != "" && text[0] == c && Matches(rest, text[1..])
  {
    assert ([Lit(c)] + rest)[1..] == rest;
  }

  lemma {:induction false} StarFreeTokens(p: string, text: string)
    requires '*' !in p
    ensures Matches(Tokens(p), text) <==> text == p
    decreases |p|
  {
    if p != "" {
      assert p[0] in p;
      assert FirstToken(p) == Lit(p[0]) && FirstLength(p) == 1;
      LitFirst(p[0], Tokens(p[1..]), text);
      if text != "" {
        StarFreeTokens(p[1..], text[1..]);
        assert text == [text[0]] + text[1..] && p == [p[0]] + p[1..];
      }
    }
  }

  /** A pattern without stars matches only itself, dots and special characters included. */
  lemma StarFreeMatchesItself(p: string, text: string)
    requires '*' !in p && PLACEHOLDER !in p
    ensures Test(ArbacPatternToRegex(p), text) <==> text == p
  {
    CompiledLanguage(p, text);
    StarFreeTokens(p, text);
  }

  /** `us` is `ts` with some segment stars widened to any text. */
  predicate Widens(ts: seq<Token>, us: seq<Token>) {
    |ts| == |us| && forall i :: 0 <= i < |ts| ==> us[i] == ts[i] || (ts[i].Segment? && us[i].Anything?)
  }

  predicate SingleLine(text: string) {
    forall c :: c in text ==> c !in LINE_TERMINATORS
  }

  lemma {:induction false} WideningAddsMatches(ts: seq<Token>, us: seq<Token>, text: string)
    requires Widens(ts, us) && SingleLine(text) && Matches(ts, text)
    ensures Matches(us, text)
    decreases |ts|
  {
    if ts != [] {
      if ts[0].Lit? {
        WideningAddsMatches(ts[1..], us[1..], text[1..]);
      } else {
        var k :| 0 <= k <= |text| && Fits(ts[0], text[..k]) && Matches(ts[1..], text[k..]);
        WideningAddsMatches(ts[1..], us[1..], text[k..]);
        assert Fits(us[0], text[..k]);
      }
    }
  }

  /** Two texts no star run of which meets at the seam. */
  predicate Separable(a: string, b: string) {
    a == "" || b == "" || a[|a| - 1] != '*' || b[0] != '*'
  }

  lemma SeamStep(a: string, b: string, k: nat)
    requires a != "" && Separable(a, b) && 1 <= k <= |a|
    ensures (a + b)[0] == a[0] && (DoubleStar(a + b) <==> DoubleStar(a))
    ensures (a + b)[k..] == a[k..] + b && Separable(a[k..], b)
  {
    if |a| == 1 && b != "" {
      assert (a + b)[1] == b[0];
    } else if |a| >= 2 {
      assert (a + b)[1] == a[1];
    }
  }

  lemma {:induction false} TokensAppend(a: string, b: string)
    requires Separable(a, b)
    ensures Tokens(a + b) == Tokens(a) + Tokens(b)
    decreases |a|
  {
    if a == "" {
      assert a + b == b;
    } else {
      var k := FirstLength(a);
      SeamStep(a, b, k);
      TokensAppend(a[k..], b);
      TokensAppendStep(a, b, k);
    }
  }

  lemma TokensAppendStep(a: string, b: string, k: nat)
    requires a != "" && k == FirstLength(a) && (a + b)[k..] == a[k..] + b
    requires (a + b)[0] == a[0] && (DoubleStar(a + b) <==> DoubleStar(a))
    requires Tokens(a[k..] + b) == Tokens(a[k..]) + Tokens(b)
    ensures Tokens(a + b) == Tokens(a) + Tokens(b)
  {
  }

  /** What may stand before and after a star that is to be widened: no star next to it, no placeholder. */
  predicate Around(a: string, b: string) {
    && (a == "" || a[|a| - 1] != '*') && (b == "" || b[0] != '*')
    && PLACEHOLDER !in a && PLACEHOLDER !in b
  }

  /** The token of one star or two. */
  function StarToken(double: bool): Token {
    if double then Anything else Segment
  }

  function Stars(double: bool): string {
    if double then "**" else "*"
  }

  lemma StarsFirst(double: bool, b: string)
    requires b == "" || b[0] != '*'
    ensures Tokens(Stars(double) + b) == [StarToken(double)] + Tokens(b)
  {
    var p := Stars(double) + b;
    assert p[0] == '*' && p[|Stars(double)|..] == b;
    assert |p| >= 2 && !double ==> p[1] == b[0];
    assert FirstLength(p) == |Stars(double)| && FirstToken(p) == StarToken(double);
  }

  lemma StarTokens(a: string, b: string, double: bool)
    requires a == "" || a[|a| - 1] != '*'
    requires b == "" || b[0] != '*'
    ensures Tokens(a + Stars(double) + b) == Tokens(a) + [StarToken(double)] + Tokens(b)
  {
    assert a + Stars(double) + b == a + (Stars(double) + b);
    TokensAppend(a, Stars(double) + b);
    StarsFirst(double, b);
  }

  lemma StarLanguage(a: string, b: string, double: bool, text: string)
    requires Around(a, b)
    ensures Test(ArbacPatternToRegex(a + Stars(double) + b), text)
      <==> Matches(Tokens(a) + [StarToken(double)] + Tokens(b), text)
  {
    CompiledLanguage(a + Stars(double) + b, text);
    StarTokens(a, b, double);
  }

  /** Widening one `*` of a pattern to `**` only adds matches, on text without line terminators. */
  lemma WideningAStar(a: string, b: string, text: string)
    requires Around(a, b) && SingleLine(text)
    requires Test(ArbacPatternToRegex(a + "*" + b), text)
    ensures Test(ArbacPatternToRegex(a + "**" + b), text)
  {
    StarLanguage(a, b, false, text);
    StarLanguage(a, b, true, text);
    WideningAddsMatches(Tokens(a) + [Segment] + Tokens(b), Tokens(a) + [Anything] + Tokens(b), text);
  }

  // ── With a line terminator, some widening loses the text ────────────

  function Dots(s: string): nat {
    if s == "" then 0 else (if s[0] == '.' then 1 else 0) + Dots(s[1..])
  }

  lemma {:induction false} DotsSplit(s: string, k: nat)
    requires k <= |s|
    ensures Dots(s) == Dots(s[..k]) + Dots(s[k..])
  {
    if k > 0 {
      DotsSplit(s[1..], k - 1);
      assert s[1..][..k - 1] == s[..k][1..] && s[1..][k - 1..] == s[k..];
    } else {
      assert s[..0] == "" && s[0..] == s;
    }
  }

  lemma {:induction false} NoDots(s: string)
    ensures Dots(s) == 0 <==> '.' !in s
  {
    if s != "" {
      NoDots(s[1..]);
      assert s == [s[0]] + s[1..];
    }
  }

  lemma DotCounts(s: string, k: nat)
    requires k < |s| && s[k] == '.'
    ensures Dots(s) == Dots(s[..k]) + 1 + Dots(s[k + 1..])
  {
    DotsSplit(s, k);
    assert s[k..][0] == '.' && s[k..][1..] == s[k + 1..];
  }

  /** Where the first segment of a text ends: at its first dot, or at its end. */
  lemma {:induction false} SegmentEnd(s: string) returns (k: nat)
    ensures k <= |s| && '.' !in s[..k] && (k < |s| ==> s[k] == '.') && (k == |s| <==> Dots(s) == 0)
  {
    if s == "" || s[0] == '.' {
      k := 0;
    } else {
      var rest := SegmentEnd(s[1..]);
      k := rest + 1;
      assert s[..k] == [s[0]] + s[1..][..rest];
    }
  }

  /** `*.` or `.*`, a number of times. */
  function HeadPattern(n: nat): (p: string)
    ensures (p == "" || p[|p| - 1] != '*') && PLACEHOLDER !in p
  {
    if n == 0 then "" else "*." + HeadPattern(n - 1)
  }

  function TailPattern(m: nat): (p: string)
    ensures (p == "" || p[0] == '.') && PLACEHOLDER !in p
  {
    if m == 0 then "" else ".*" + TailPattern(m - 1)
  }

  function Heads(n: nat): seq<Token> {
    if n == 0 then [] else [Segment, Lit('.')] + Heads(n - 1)
  }

  function Tails(m: nat): seq<Token> {
    if m == 0 then [] else [Lit('.'), Segment] + Tails(m - 1)
  }

  lemma {:induction false} HeadTokens(n: nat)
    ensures Tokens(HeadPattern(n)) == Heads(n)
  {
    if n > 0 {
      HeadTokens(n - 1);
      var p := HeadPattern(n);
      assert p[0] == '*' && p[1] == '.' && p[1..][1..] == HeadPattern(n - 1);
      assert Tokens(p[1..]) == [Lit('.')] + Heads(n - 1);
      assert Tokens(p) == [Segment] + Tokens(p[1..]);
    }
  }

  lemma {:induction false} TailTokens(m: nat)
    ensures Tokens(TailPattern(m)) == Tails(m)
  {
    if m > 0 {
      TailTokens(m - 1);
      var p, rest := TailPattern(m), TailPattern(m - 1);
      assert p[0] == '.' && p[1] == '*' && p[1..][1..] == rest;
      assert rest != "" ==> p[1..][1] == rest[0];
      assert Tokens(p[1..]) == [Segment] + Tails(m - 1);
      assert Tokens(p) == [Lit('.')] + Tokens(p[1..]);
    }
  }

  lemma StarFirst(t: Token, rest: seq<Token>, text: string, k: nat)
    requires !t.Lit? && k <= |text| && Fits(t, text[..k]) && Matches(rest, text[k..])
    ensures Matches([t] + rest, text)
  {
    assert ([t] + rest)[1..] == rest;
  }

  lemma StarTaken(t: Token, rest: seq<Token>, text: string) returns (k: nat)
    requires !t.Lit? && Matches([t] + rest, text)
    ensures k <= |text| && Fits(t, text[..k]) && Matches(rest, text[k..])
  {
    assert ([t] + rest)[1..] == rest;
    k :| 0 <= k <= |text| && Fits(t, text[..k]) && Matches(rest, text[k..]);
  }

  /** A text whose first segment is taken off, matched segment by segment. */
  lemma {:induction false} TailsMatch(m: nat, text: string)
    ensures Matches(Tails(m), text) <==> Dots(text) == m && (text != "" ==> text[0] == '.')
    decreases m, 0
  {
    if m > 0 {
      var rest := [Segment] + Tails(m - 1);
      assert Tails(m) == [Lit('.')] + rest;
      LitFirst('.', rest, text);
      if text != "" && text[0] == '.' {
        SegmentThenTails(m - 1, text[1..]);
      }
    } else if text != "" {
      NoDots(text);
      assert text[0] in text;
    }
  }

  lemma {:induction false} SegmentThenTails(m: nat, text: string)
    ensures Matches([Segment] + Tails(m), text) <==> Dots(text) == m
    decreases m, 1
  {
    if Matches([Segment] + Tails(m), text) {
      var k := StarTaken(Segment, Tails(m), text);
      TailsMatch(m, text[k..]);
      NoDots(text[..k]);
      DotsSplit(text, k);
    }
    if Dots(text) == m {
      var k := SegmentEnd(text);
      TailsMatch(m, text[k..]);
      NoDots(text[..k]);
      DotsSplit(text, k);
      StarFirst(Segment, Tails(m), text, k);
    }
  }

  /** `n` segment stars, a star of either kind, and `m` more segment stars, with dots between them. */
  function StarAmong(n: nat, t: Token, m: nat): seq<Token> {
    if n == 0 then [t] + Tails(m) else [Segment] + ([Lit('.')] + StarAmong(n - 1, t, m))
  }

  lemma {:induction false} StarAmongTokens(n: nat, t: Token, m: nat)
    ensures Heads(n) + [t] + Tails(m) == StarAmong(n, t, m)
  {
    if n > 0 {
      StarAmongTokens(n - 1, t, m);
      assert Heads(n) + [t] + Tails(m) == [Segment, Lit('.')] + (Heads(n - 1) + [t] + Tails(m));
    }
  }

  lemma FirstOfSegments(rest: seq<Token>, text: string, k: nat)
    requires k < |text| && '.' !in text[..k] && text[k] == '.' && Matches(rest, text[k + 1..])
    ensures Matches([Segment] + ([Lit('.')] + rest), text)
  {
    LitFirst('.', rest, text[k..]);
    assert text[k..][1..] == text[k + 1..];
    StarFirst(Segment, [Lit('.')] + rest, text, k);
  }

  lemma SegmentTaken(rest: seq<Token>, text: string) returns (k: nat)
    requires Matches([Segment] + ([Lit('.')] + rest), text)
    ensures k < |text| && (forall j :: 0 <= j < k ==> text[j] != '.') && text[k] == '.' && Matches(rest, text[k + 1..])
    ensures Dots(text) == 1 + Dots(text[k + 1..])
  {
    k := StarTaken(Segment, [Lit('.')] + rest, text);
    LitFirst('.', rest, text[k..]);
    assert text[k..][1..] == text[k + 1..];
    assert forall j :: 0 <= j < k ==> text[j] in text[..k];
    NoDots(text[..k]);
    DotCounts(text, k);
  }

  /** Stars for the segments around one star match a text with as many dots. */
  lemma {:induction false} SegmentsMatch(n: nat, m: nat, text: string)
    requires Dots(text) == n + m
    ensures Matches(StarAmong(n, Segment, m), text)
    decreases n
  {
    if n == 0 {
      SegmentThenTails(m, text);
    } else {
      var k := SegmentEnd(text);
      NoDots(text[..k]);
      DotCounts(text, k);
      SegmentsMatch(n - 1, m, text[k + 1..]);
      FirstOfSegments(StarAmong(n - 1, Segment, m), text, k);
    }
  }

  /** A dot-free stretch with a terminator cannot be split at a dot, or at the end, after a stretch without one. */
  lemma TerminatorUncovered(text: string, i: nat, k: nat)
    requires i < |text| && text[i] in LINE_TERMINATORS && Dots(text[..i]) == 0 && k <= |text|
    ensures Fits(Anything, text[..k]) ==> !(text[k..] != "" ==> text[k] == '.')
  {
    NoDots(text[..i]);
    assert i < k ==> text[..k][i] in text[..k];
    assert k < i ==> text[..i][k] in text[..i];
  }

  lemma WideStarUncovers(m: nat, text: string, i: nat)
    requires Dots(text) == m && i < |text| && text[i] in LINE_TERMINATORS && Dots(text[..i]) == 0
    ensures !Matches([Anything] + Tails(m), text)
  {
    if Matches([Anything] + Tails(m), text) {
      var k := StarTaken(Anything, Tails(m), text);
      TailsMatch(m, text[k..]);
      TerminatorUncovered(text, i, k);
    }
  }

  lemma AfterSegment(text: string, i: nat, k: nat)
    requires k < |text| && i < |text| && text[k] == '.' && (forall j :: 0 <= j < k ==> text[j] != '.')
    requires text[i] != '.' && Dots(text[..i]) > 0
    ensures k < i && text[k + 1..][i - k - 1] == text[i] && Dots(text[k + 1..][..i - k - 1]) == Dots(text[..i]) - 1
  {
    NoDots(text[..i]);
    var j :| 0 <= j < |text[..i]| && text[..i][j] == '.';
    assert text[j] == '.';
    assert text[..i][k] == '.' && text[..i][..k] == text[..k];
    DotCounts(text[..i], k);
    NoDots(text[..k]);
    assert text[k + 1..][..i - k - 1] == text[..i][k + 1..];
  }

  /** With its first segment and dot taken off, the text matches the rest, the terminator one segment nearer. */
  lemma SegmentSkipped(ts: seq<Token>, text: string, i: nat) returns (rest: string, j: nat)
    requires Matches([Segment] + ([Lit('.')] + ts), text)
    requires i < |text| && text[i] != '.' && Dots(text[..i]) > 0
    ensures Matches(ts, rest) && Dots(text) == 1 + Dots(rest)
    ensures j < |rest| && rest[j] == text[i] && Dots(rest[..j]) == Dots(text[..i]) - 1
  {
    var k := SegmentTaken(ts, text);
    AfterSegment(text, i, k);
    rest, j := text[k + 1..], i - k - 1;
  }

  /** No dot is left over for the widened star, so it would have to cover the segment with the terminator. */
  lemma {:induction false} WideStarRefuses(n: nat, m: nat, text: string, i: nat)
    requires Dots(text) == n + m && i < |text| && text[i] in LINE_TERMINATORS && Dots(text[..i]) == n
    ensures !Matches(StarAmong(n, Anything, m), text)
    decreases n
  {
    if Matches(StarAmong(n, Anything, m), text) {
      if n == 0 {
        WideStarUncovers(m, text, i);
      } else {
        var rest, j := SegmentSkipped(StarAmong(n - 1, Anything, m), text, i);
        WideStarRefuses(n - 1, m, rest, j);
      }
    }
  }

  /** Widening the star of `a * b` keeps the text. */
  predicate WideningKeeps(a: string, b: string, text: string) {
    Around(a, b) && Test(ArbacPatternToRegex(a + "*" + b), text) ==> Test(ArbacPatternToRegex(a + "**" + b), text)
  }

  /** Widening a `*` to `**` never loses a text, whatever the pattern, if and only if the text is a single line. */
  lemma WideningKeepsIffSingleLine(text: string)
    ensures (forall a, b :: WideningKeeps(a, b, text)) <==> SingleLine(text)
  {
    if SingleLine(text) {
      forall a, b | Around(a, b) && Test(ArbacPatternToRegex(a + "*" + b), text) ensures WideningKeeps(a, b, text) {
        WideningAStar(a, b, text);
      }
    } else {
      var i :| 0 <= i < |text| && text[i] in LINE_TERMINATORS;
      var n, m := Dots(text[..i]), Dots(text[i..]);
      DotsSplit(text, i);
      var a, b := HeadPattern(n), TailPattern(m);
      HeadTokens(n);
      TailTokens(m);
      StarLanguage(a, b, false, text);
      StarLanguage(a, b, true, text);
      StarAmongTokens(n, Segment, m);
      StarAmongTokens(n, Anything, m);
      SegmentsMatch(n, m, text);
      WideStarRefuses(n, m, text, i);
      assert !WideningKeeps(a, b, text);
    }
  }

  /** With a line break the narrower pattern may match where the wider one does not. */
  lemma WideningLosesLineBreaks()
    ensures Test(ArbacPatternToRegex("*"), "\n") && !Test(ArbacPatternToRegex("**"), "\n")
  {
    CompiledLanguage("*", "\n");
    CompiledLanguage("**", "\n");
    assert "*"[1..] == "" && "**"[2..] == "";
    var text := "\n";
    assert text[..1] == text && text[1..] == "";
    assert Fits(Segment, text[..1]) && Matches([], text[1..]);
    assert [Segment][1..] == [] && [Anything][1..] == [];
    forall k | 0 <= k <= |text| && Matches([], text[k..]) ensures !Fits(Anything, text[..k]) {
      assert k == 1 && text[..k] == text;
      assert '\n' in text;
    }
  }
}
