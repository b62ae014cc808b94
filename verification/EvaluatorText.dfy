/** Lexical tokens and their overlap score. Case folding is ASCII. */
module EvaluatorText {
  import opened Sequences
  import opened Strings

  predicate TokenChar(c: char) {
    'a' <= c <= 'z' || '0' <= c <= '9'
  }

  predicate Word(s: string) {
    forall k | 0 <= k < |s| :: TokenChar(s[k])
  }

  predicate Token(s: string) {
    s != "" && Word(s)
  }

  /** The length of the longest prefix of token characters. */
  function Span(s: string): (n: nat)
    ensures n <= |s| && Word(s[..n]) && (n < |s| ==> !TokenChar(s[n]))
  {
    if s == "" || !TokenChar(s[0]) then 0 else 1 + Span(s[1..])
  }

  /** `TOKEN_PATTERN.findall`: the maximal runs of token characters. */
  function FindAll(s: string): (tokens: seq<string>)
    ensures forall t | t in tokens :: Token(t)
    decreases |s|
  {
    var n := Span(s);
    if s == "" then []
    else if n == 0 then FindAll(s[1..])
    else [s[..n]] + FindAll(s[n..])
  }

  function Tokenize(value: string): (tokens: seq<string>)
    ensures forall t | t in tokens :: Token(t)
  {
    FindAll(Lower(value))
  }

  /** `" ".join`. */
  function Join(tokens: seq<string>): string {
    if tokens == [] then ""
    else if |tokens| == 1 then tokens[0]
    else tokens[0] + " " + Join(tokens[1..])
  }

  function NormalizeText(value: string): string {
    Join(Tokenize(value))
  }

  lemma {:induction false} SpanOfWord(word: string, rest: string)
    requires Word(word) && (rest == "" || !TokenChar(rest[0]))
    ensures Span(word + rest) == |word|
  {
    if word == "" {
      assert word + rest == rest;
    } else {
      assert (word + rest)[1..] == word[1..] + rest;
      SpanOfWord(word[1..], rest);
    }
  }

  lemma {:induction false} FindAllJoined(tokens: seq<string>)
    requires forall t | t in tokens :: Token(t)
    ensures FindAll(Join(tokens)) == tokens
  {
    if tokens == [] {
    } else {
      var head, tail := tokens[0], tokens[1..];
      assert Token(head);
      assert tokens == [head] + tail;
      FindAllJoined(tail);
      if tail == [] {
        SpanOfWord(head, "");
        assert head + "" == head && head[|head|..] == "";
      } else {
        var rest := " " + Join(tail);
        assert Join(tokens) == head + rest;
        SpanOfWord(head, rest);
        assert (head + rest)[..|head|] == head && (head + rest)[|head|..] == rest;
        assert rest[1..] == Join(tail);
        assert Span(rest) == 0;
      }
    }
  }

  function OnlyTokenChars(s: string): string {
    if s == "" then "" else (if TokenChar(s[0]) then [s[0]] else "") + OnlyTokenChars(s[1..])
  }

  function Concatenated(tokens: seq<string>): string {
    if tokens == [] then "" else tokens[0] + Concatenated(tokens[1..])
  }

  /** How many runs of token characters begin in `s`, when `inRun` says whether one is under way. */
  function RunStarts(s: string, inRun: bool): nat {
    if s == "" then 0
    else (if TokenChar(s[0]) && !inRun then 1 else 0) + RunStarts(s[1..], TokenChar(s[0]))
  }

  lemma {:induction false} WordCharsKept(word: string, rest: string)
    requires Word(word)
    ensures OnlyTokenChars(word + rest) == word + OnlyTokenChars(rest)
  {
    if word == "" {
      assert word + rest == rest;
    } else {
      assert (word + rest)[1..] == word[1..] + rest;
      WordCharsKept(word[1..], rest);
    }
  }

  lemma {:induction false} WordIsOneRun(word: string, rest: string, inRun: bool)
    requires Token(word)
    ensures RunStarts(word + rest, inRun) == (if inRun then 0 else 1) + RunStarts(rest, true)
  {
    assert (word + rest)[1..] == word[1..] + rest;
    if |word| == 1 {
      assert word[1..] + rest == rest;
    } else {
      WordIsOneRun(word[1..], rest, true);
    }
  }

  lemma NoTokenHere(s: string)
    requires s != "" && Span(s) == 0
    ensures FindAll(s) == FindAll(s[1..]) && OnlyTokenChars(s) == OnlyTokenChars(s[1..])
    ensures RunStarts(s, false) == RunStarts(s[1..], false)
  {
  }

  lemma TokenHere(s: string)
    requires s != "" && Span(s) > 0
    ensures FindAll(s) == [s[..Span(s)]] + FindAll(s[Span(s)..]) && Token(s[..Span(s)])
    ensures s == s[..Span(s)] + s[Span(s)..] && |s[Span(s)..]| < |s|
    ensures RunStarts(s[Span(s)..], true) == RunStarts(s[Span(s)..], false)
  {
    hide RunStarts;
    RunEnds(s[Span(s)..]);
  }

  /** Scanning loses, adds and reorders no token character, and makes one token of each maximal run. */
  lemma {:induction false} TokensAreTheRuns(s: string)
    ensures Concatenated(FindAll(s)) == OnlyTokenChars(s)
    ensures |FindAll(s)| == RunStarts(s, false)
    decreases |s|
  {
    if s == "" {
    } else {
      hide FindAll, OnlyTokenChars, RunStarts, Concatenated, TokenChar, Word;
      if Span(s) == 0 {
        NoTokenHere(s);
        TokensAreTheRuns(s[1..]);
      } else {
        var word, rest := s[..Span(s)], s[Span(s)..];
        TokenHere(s);
        TokensAreTheRuns(rest);
        WordCharsKept(word, rest);
        WordIsOneRun(word, rest, false);
        ConcatenatedCons(word, FindAll(rest));
      }
    }
  }

  lemma ConcatenatedCons(word: string, tokens: seq<string>)
    ensures Concatenated([word] + tokens) == word + Concatenated(tokens)
  {
    assert ([word] + tokens)[1..] == tokens;
  }

  lemma RunEnds(rest: string)
    requires rest == "" || !TokenChar(rest[0])
    ensures RunStarts(rest, true) == RunStarts(rest, false)
  {
  }

  predicate Folded(s: string) {
    forall k | 0 <= k < |s| :: !IsUpper(s[k])
  }

  lemma {:induction false} JoinFolded(tokens: seq<string>)
    requires forall t | t in tokens :: Token(t)
    ensures Folded(Join(tokens))
  {
    if tokens == [] {
    } else {
      assert Token(tokens[0]);
      JoinFolded(tokens[1..]);
    }
  }

  /** Normalising keeps the tokens. */
  lemma NormalizeKeepsTokens(value: string)
    ensures Tokenize(NormalizeText(value)) == Tokenize(value)
  {
    var tokens := Tokenize(value);
    JoinFolded(tokens);
    assert Lower(Join(tokens)) == Join(tokens);
    FindAllJoined(tokens);
  }

  lemma NormalizeIdempotent(value: string)
    ensures NormalizeText(NormalizeText(value)) == NormalizeText(value)
  {
    NormalizeKeepsTokens(value);
  }

  /** Two texts have the same normal form exactly when they have the same tokens. */
  lemma NormalFormsDecide(a: string, b: string)
    ensures NormalizeText(a) == NormalizeText(b) <==> Tokenize(a) == Tokenize(b)
  {
    NormalizeKeepsTokens(a);
    NormalizeKeepsTokens(b);
  }

  // ---- Token F1 ----

  function TokenSet(value: string): set<string> {
    set t | t in Tokenize(value)
  }

  /** `token_f1`. */
  function TokenF1(left: string, right: string): real {
    var a, b := TokenSet(left), TokenSet(right);
    if Tokenize(left) == [] || Tokenize(right) == [] then 0.0
    else
      var overlap := |a * b|;
      if overlap == 0 then 0.0
      else
        Sizes(left, right);
        var precision, recall := overlap as real / |a| as real, overlap as real / |b| as real;
        2.0 * precision * recall / (precision + recall)
  }

  lemma Sizes(left: string, right: string)
    requires TokenSet(left) * TokenSet(right) != {}
    ensures 0 < |TokenSet(left) * TokenSet(right)| <= |TokenSet(left)|
    ensures |TokenSet(left) * TokenSet(right)| <= |TokenSet(right)|
  {
    SubsetCard(TokenSet(left) * TokenSet(right), TokenSet(left));
    SubsetCard(TokenSet(left) * TokenSet(right), TokenSet(right));
  }

  lemma Harmonic(o: real, a: real, b: real)
    requires o > 0.0 && a > 0.0 && b > 0.0
    ensures o / a > 0.0 && o / b > 0.0
    ensures 2.0 * (o / a) * (o / b) / (o / a + o / b) == 2.0 * o / (a + b)
  {
    var p, r := o / a, o / b;
    assert p * a == o && r * b == o;
    HarmonicCross(p, r, a, b, o);
    var f := 2.0 * o / (a + b);
    assert f * (a + b) == 2.0 * o;
    SameQuotient(2.0 * p * r, p + r, 2.0 * o, a + b);
  }

  lemma HarmonicCross(p: real, r: real, a: real, b: real, o: real)
    requires p * a == o && r * b == o
    ensures 2.0 * p * r * (a + b) == 2.0 * o * (p + r)
  {
    assert p * r * a == o * r;
    assert p * r * b == o * p;
  }

  lemma SameQuotient(n: real, d: real, m: real, e: real)
    requires d > 0.0 && e > 0.0 && n * e == m * d
    ensures n / d == m / e
  {
    assert n / d * d * e == m * d;
  }

  /** F1 is twice the shared tokens over all tokens: 2|A ∩ B| / (|A| + |B|). */
  lemma F1IsDice(left: string, right: string)
    requires TokenSet(left) != {} || TokenSet(right) != {}
    ensures var a, b := TokenSet(left), TokenSet(right);
      && |a| + |b| > 0
      && TokenF1(left, right) == 2.0 * |a * b| as real / (|a| + |b|) as real
  {
    var a, b := TokenSet(left), TokenSet(right);
    NoTokens(left);
    NoTokens(right);
    hide TokenSet, Tokenize;
    assert |a| + |b| > 0;
    if a * b != {} {
      Sizes(left, right);
      Harmonic(|a * b| as real, |a| as real, |b| as real);
    } else {
      assert |a * b| == 0;
    }
  }

  lemma F1Symmetric(left: string, right: string)
    ensures TokenF1(left, right) == TokenF1(right, left)
  {
    var a, b := TokenSet(left), TokenSet(right);
    assert a * b == b * a;
    if a != {} || b != {} {
      F1IsDice(left, right);
      F1IsDice(right, left);
    } else {
      NoTokens(left);
    }
  }

  lemma NoTokens(value: string)
    ensures TokenSet(value) == {} <==> Tokenize(value) == []
  {
    if Tokenize(value) != [] { assert Tokenize(value)[0] in TokenSet(value); }
  }

  lemma DiceBounds(o: nat, a: nat, b: nat)
    requires o <= a && o <= b && a + b > 0
    ensures 0.0 <= 2.0 * o as real / (a + b) as real <= 1.0
    ensures 2.0 * o as real / (a + b) as real == 1.0 <==> o == a == b
  {
    var d, n := (a + b) as real, 2.0 * o as real;
    assert 0.0 <= n <= d && (n == d <==> o == a == b);
    QuotientOne(n, d);
  }

  lemma QuotientOne(n: real, d: real)
    requires 0.0 <= n <= d && d > 0.0
    ensures 0.0 <= n / d <= 1.0
    ensures n / d == 1.0 <==> n == d
  {
    assert n / d * d == n;
  }

  /** F1 lies between 0 and 1 and is 1 exactly when both sides have the same, at least one, tokens. */
  lemma F1Range(left: string, right: string)
    ensures 0.0 <= TokenF1(left, right) <= 1.0
    ensures TokenF1(left, right) == 1.0 <==> TokenSet(left) == TokenSet(right) != {}
  {
    var a, b := TokenSet(left), TokenSet(right);
    if a != {} || b != {} {
      F1IsDice(left, right);
      SubsetCard(a * b, a);
      SubsetCard(a * b, b);
      DiceBounds(|a * b|, |a|, |b|);
      if a == b { assert a * b == a; }
    } else {
      NoTokens(left);
    }
  }

  /** Texts with equal normal forms and some token score 1. */
  lemma EqualNormalFormsScoreOne(left: string, right: string)
    requires NormalizeText(left) == NormalizeText(right) && Tokenize(left) != []
    ensures TokenF1(left, right) == 1.0
  {
    NormalFormsDecide(left, right);
    NoTokens(left);
    F1Range(left, right);
  }
}
