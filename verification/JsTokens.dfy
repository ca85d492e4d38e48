/** What the token list of `_lex_js` is, without reference to how it is scanned: a tiling of the source whose
    every tile has the shape of its kind. There is exactly one such list. */
module JsTokens {
  import opened Text
  import opened Substrings
  import opened JsLexer

  // ----- Escapes -----

  /** Position `p` of a literal whose content starts at `from` is not escaped by a backslash before it. */
  ghost predicate Active(source: string, from: nat, p: nat)
    requires from <= p <= |source|
  {
    p > from ==> !(source[p - 1] == BACKSLASH && Active(source, from, p - 1))
  }

  /** Where an unclosed literal ends: after the source, by one more if the last character is a live backslash. */
  ghost function OpenEnd(source: string, from: nat): nat
    requires from <= |source|
  {
    if Active(source, from, |source|) then |source| else |source| + 1
  }

  ghost predicate Quote(source: string, from: nat, quote: char, p: nat)
    requires from <= p < |source|
  {
    Active(source, from, p) && source[p] == quote
  }

  /** The literal ends at its first unescaped quote. */
  ghost predicate QuotedTo(source: string, from: nat, quote: char, end: nat)
    requires from <= |source|
  {
    || (from < end <= |source| && Quote(source, from, quote, end - 1) && forall p :: from <= p < end - 1 ==>
      !Quote(source, from, quote, p))
    || (end == OpenEnd(source, from) && forall p :: from <= p < |source| ==> !Quote(source, from, quote, p))
  }

  lemma {:induction false} QuotedEndIsFirst(source: string, from: nat, p: nat, quote: char)
    requires from <= p <= |source| + 1 && quote != BACKSLASH
    requires if p <= |source| then Active(source, from, p) else from <= |source| && !Active(source, from, |source|)
    requires forall k :: from <= k < p && k < |source| ==> !Quote(source, from, quote, k)
    ensures QuotedTo(source, from, quote, QuotedEnd(source, p, quote))
    decreases |source| + 1 - p
  {
    if p < |source| {
      if source[p] == BACKSLASH {
        assert !Active(source, from, p + 1);
        QuotedEndIsFirst(source, from, p + 2, quote);
      } else if source[p] != quote {
        QuotedEndIsFirst(source, from, p + 1, quote);
      } else {
        assert Quote(source, from, quote, p);
      }
    }
  }

  /** Inside a character class at `p`: the last live bracket opened one. */
  ghost predicate InClass(source: string, from: nat, p: nat)
    requires from <= p <= |source|
  {
    p > from &&
      if Active(source, from, p - 1) && source[p - 1] == '[' then true
      else if Active(source, from, p - 1) && source[p - 1] == ']' then false
      else InClass(source, from, p - 1)
  }

  ghost predicate Slash(source: string, from: nat, p: nat)
    requires from <= p < |source|
  {
    Active(source, from, p) && source[p] == '/' && !InClass(source, from, p)
  }

  ghost predicate Run(source: string, from: nat, end: nat, f: char -> bool) {
    from <= end <= |source| && (forall i :: from <= i < end ==> f(source[i])) && (end < |source| ==> !f(source[end]))
  }

  /** The expression ends after the flags that follow its first live slash outside a class. */
  ghost predicate RegexTo(source: string, from: nat, alpha: char -> bool, end: nat)
    requires from <= |source|
  {
    || (exists s :: from <= s < |source| && Slash(source, from, s) && Run(source, s + 1, end, alpha) &&
          forall p :: from <= p < s ==> !Slash(source, from, p))
    || (end == OpenEnd(source, from) && forall p :: from <= p < |source| ==> !Slash(source, from, p))
  }

  lemma {:induction false} RegexEndIsFirst(source: string, from: nat, p: nat, inClass: bool, alpha: char -> bool)
    requires from <= p <= |source| + 1
    requires if p <= |source| then Active(source, from, p) && InClass(source, from, p) == inClass
             else from <= |source| && !Active(source, from, |source|)
    requires forall k :: from <= k < p && k < |source| ==> !Slash(source, from, k)
    ensures RegexTo(source, from, alpha, RegexEnd(source, p, inClass, alpha))
    decreases |source| + 1 - p
  {
    if p < |source| {
      if source[p] == BACKSLASH {
        assert !Active(source, from, p + 1);
        RegexEndIsFirst(source, from, p + 2, inClass, alpha);
      } else if source[p] == '/' && !inClass {
        assert Slash(source, from, p);
      } else {
        assert Active(source, from, p + 1);
        RegexEndIsFirst(source, from, p + 1, InClass(source, from, p + 1), alpha);
      }
    }
  }

  // ----- The shape of one token -----

  ghost predicate CommentTo(source: string, i: nat, terminator: string, end: nat) {
    || (i + 2 + |terminator| <= end && At(source, end - |terminator|, terminator) &&
        forall k :: i + 2 <= k < end - |terminator| ==> !At(source, k, terminator))
    || (end == |source| && forall k :: i + 2 <= k ==> !At(source, k, terminator))
  }

  /** Letters are not the characters that begin another kind of token. */
  ghost predicate Sensible(a: Alphabet) {
    !a.alpha('\'') && !a.alpha('"') && !a.alpha('`') && !a.alpha('/') && !a.alpha('=')
  }

  predicate WordStart(a: Alphabet, c: char) {
    a.alpha(c) || c == '_' || c == '$'
  }

  predicate CommentAt(source: string, i: nat) {
    At(source, i, "//") || At(source, i, "/*")
  }

  /** `t` is a token of its kind, where `regexOk` says whether a regular expression may start. */
  ghost predicate Shape(a: Alphabet, source: string, regexOk: bool, t: Token) {
    && t.start < |source| && !IsSpace(source[t.start])
    && (var c := source[t.start];
        match t.kind
        case Comment =>
          && t.value == ""
          && ((At(source, t.start, "//") && CommentTo(source, t.start, "\n", t.end)) ||
              (At(source, t.start, "/*") && CommentTo(source, t.start, "*/", t.end)))
        case StringLiteral =>
          (c == '\'' || c == '"') && QuotedTo(source, t.start + 1, c, t.end) &&
            t.value == a.literal(Slice(source, t.start, t.end))
        case Template => c == '`' && QuotedTo(source, t.start + 1, c, t.end) && t.value == ""
        case Regex =>
          c == '/' && !CommentAt(source, t.start) && regexOk && RegexTo(source, t.start + 1, a.alpha, t.end) &&
            t.value == ""
        case Identifier => WordStart(a, c) && Run(source, t.start + 1, t.end, WordChar(a)) &&
          t.value == source[t.start..t.end]
        case Punctuation =>
          && !WordStart(a, c) && c != '\'' && c != '"' && c != '`'
          && (c == '/' ==> !CommentAt(source, t.start) && !regexOk)
          && t.end == t.start + (if At(source, t.start, "=>") then 2 else 1) &&
            t.value == Slice(source, t.start, t.end))
  }

  lemma FindShape(source: string, i: nat, terminator: string)
    requires |terminator| > 0
    ensures CommentTo(source, i, terminator, CommentEnd(source, i, terminator))
  {
    var found := Find(source, terminator, i + 2);
    if found.Some? {
      assert found.value + |terminator| - |terminator| == found.value;
    }
  }

  lemma AtSlash(source: string, i: nat)
    ensures CommentAt(source, i) ==> source[i] == '/'
    ensures At(source, i, "=>") ==> source[i] == '=' && source[i..i + 2] == "=>"
  {
    if At(source, i, "//") {
      assert source[i] == source[i..i + 2][0];
    }
    if At(source, i, "/*") {
      assert source[i] == source[i..i + 2][0];
    }
    if At(source, i, "=>") {
      assert source[i] == source[i..i + 2][0];
    }
  }

  lemma NextShaped(a: Alphabet, source: string, i: nat, regexOk: bool)
    requires i < |source| && !IsSpace(source[i]) && Sensible(a)
    ensures Shape(a, source, regexOk, Next(a, source, i, regexOk))
  {
    AtSlash(source, i);
    var c := source[i];
    if CommentAt(source, i) {
      FindShape(source, i, "\n");
      FindShape(source, i, "*/");
    } else if c == '\'' || c == '"' || c == '`' {
      QuotedEndIsFirst(source, i + 1, i + 1, c);
    } else if c == '/' && regexOk {
      RegexEndIsFirst(source, i + 1, i + 1, false, a.alpha);
    }
  }

  // ----- A shape leaves no choice -----

  lemma QuotedToUnique(source: string, from: nat, quote: char, e1: nat, e2: nat)
    requires from <= |source| && QuotedTo(source, from, quote, e1) && QuotedTo(source, from, quote, e2)
    ensures e1 == e2
  {
  }

  lemma RunUnique(source: string, from: nat, f: char -> bool, e1: nat, e2: nat)
    requires Run(source, from, e1, f) && Run(source, from, e2, f)
    ensures e1 == e2
  {
  }

  lemma RegexToUnique(source: string, from: nat, alpha: char -> bool, e1: nat, e2: nat)
    requires from <= |source| && RegexTo(source, from, alpha, e1) && RegexTo(source, from, alpha, e2)
    ensures e1 == e2
  {
    if exists s :: from <= s < |source| && Slash(source, from, s) {
      var s1 :| from <= s1 < |source| && Slash(source, from, s1) && Run(source, s1 + 1, e1, alpha) &&
        forall p :: from <= p < s1 ==> !Slash(source, from, p);
      var s2 :| from <= s2 < |source| && Slash(source, from, s2) && Run(source, s2 + 1, e2, alpha) &&
        forall p :: from <= p < s2 ==> !Slash(source, from, p);
      assert s1 == s2;
      RunUnique(source, s1 + 1, alpha, e1, e2);
    }
  }

  lemma CommentToUnique(source: string, i: nat, terminator: string, e1: nat, e2: nat)
    requires |terminator| > 0 && CommentTo(source, i, terminator, e1) && CommentTo(source, i, terminator, e2)
    ensures e1 == e2
  {
  }

  lemma ShapeUnique(a: Alphabet, source: string, regexOk: bool, t1: Token, t2: Token)
    requires Sensible(a) && t1.start == t2.start && Shape(a, source, regexOk, t1) && Shape(a, source, regexOk, t2)
    ensures t1 == t2
  {
    var i := t1.start;
    AtSlash(source, i);
    assert t1.kind == t2.kind;
    match t1.kind
    case Comment =>
      NotBoth(source, i);
      if At(source, i, "//") {
        CommentToUnique(source, i, "\n", t1.end, t2.end);
      } else {
        CommentToUnique(source, i, "*/", t1.end, t2.end);
      }
    case StringLiteral => QuotedToUnique(source, i + 1, source[i], t1.end, t2.end);
    case Template => QuotedToUnique(source, i + 1, source[i], t1.end, t2.end);
    case Regex => RegexToUnique(source, i + 1, a.alpha, t1.end, t2.end);
    case Identifier => RunUnique(source, i + 1, WordChar(a), t1.end, t2.end);
    case Punctuation =>
  }

  lemma NotBoth(source: string, i: nat)
    ensures !(At(source, i, "//") && At(source, i, "/*"))
  {
    if At(source, i, "//") {
      assert source[i..i + 2][1] == '/';
    }
  }

  // ----- The list of tokens -----

  ghost predicate Spaces(source: string, i: nat, j: nat) {
    i <= j && forall k :: i <= k < j && k < |source| ==> IsSpace(source[k])
  }

  /** From position `i` on, the tokens follow one another with only white space between, before and after. */
  ghost predicate Tiles(a: Alphabet, source: string, i: nat, prev: Option<string>, tokens: seq<Token>)
    decreases |tokens|
  {
    if |tokens| == 0 then forall k :: i <= k < |source| ==> IsSpace(source[k])
    else
      && Spaces(source, i, tokens[0].start) && Shape(a, source, RegexMayStart(prev), tokens[0])
      && Tiles(a, source, tokens[0].end, Some(tokens[0].value), tokens[1..])
  }

  lemma {:induction false} LexTiles(a: Alphabet, source: string, i: nat, prev: Option<string>)
    requires Sensible(a)
    ensures Tiles(a, source, i, prev, LexFrom(a, source, i, prev))
    decreases |source| - i
  {
    if i < |source| {
      if IsSpace(source[i]) {
        LexTiles(a, source, i + 1, prev);
      } else {
        var t := Next(a, source, i, RegexMayStart(prev));
        NextAdvances(a, source, i, RegexMayStart(prev));
        NextShaped(a, source, i, RegexMayStart(prev));
        LexTiles(a, source, t.end, Some(t.value));
        assert LexFrom(a, source, i, prev)[1..] == LexFrom(a, source, t.end, Some(t.value));
      }
    }
  }

  lemma {:induction false} TilesUnique(a: Alphabet, source: string, i: nat, prev: Option<string>, t1: seq<Token>,
                                       t2: seq<Token>)
    requires Sensible(a) && Tiles(a, source, i, prev, t1) && Tiles(a, source, i, prev, t2)
    ensures t1 == t2
    decreases |t1|
  {
    if |t1| > 0 && |t2| > 0 {
      assert t1[0].start == t2[0].start;
      ShapeUnique(a, source, RegexMayStart(prev), t1[0], t2[0]);
      TilesUnique(a, source, t1[0].end, Some(t1[0].value), t1[1..], t2[1..]);
      assert t1 == [t1[0]] + t1[1..] && t2 == [t2[0]] + t2[1..];
    }
  }

  /** The lexer's tokens are the one tiling of the source into shaped tokens. */
  lemma LexExact(a: Alphabet, source: string, tokens: seq<Token>)
    requires Sensible(a)
    ensures tokens == LexFrom(a, source, 0, None) <==> Tiles(a, source, 0, None, tokens)
  {
    LexTiles(a, source, 0, None);
    if Tiles(a, source, 0, None, tokens) {
      TilesUnique(a, source, 0, None, tokens, LexFrom(a, source, 0, None));
    }
  }

  // ----- Order of the tokens -----

  /** Non-empty, in order, disjoint. */
  ghost predicate Ordered(tokens: seq<Token>) {
    && (forall i :: 0 <= i < |tokens| ==> tokens[i].start < tokens[i].end)
    && forall i, j :: 0 <= i < j < |tokens| ==> tokens[i].end <= tokens[j].start
  }

  /** Tokens are in order; only the last can end past the source, and only by one; what lies between two
      neighbours is white space. */
  ghost predicate Laid(source: string, i: nat, tokens: seq<Token>) {
    && Ordered(tokens)
    && (forall k :: 0 <= k < |tokens| ==> i <= tokens[k].start < |source| && tokens[k].end <= |source| + 1)
    && (forall j, k :: 0 <= j < k < |tokens| && k == j + 1 ==> Neighbours(source, tokens[j], tokens[k]))
    && (|tokens| > 0 ==> Spaces(source, i, tokens[0].start))
  }

  ghost predicate Neighbours(source: string, t: Token, u: Token) {
    t.end <= |source| && Spaces(source, t.end, u.start)
  }

  lemma LaidEarlier(source: string, i: nat, tokens: seq<Token>)
    requires i < |source| && IsSpace(source[i]) && Laid(source, i + 1, tokens)
    ensures Laid(source, i, tokens)
  {
  }

  lemma LaidBefore(source: string, i: nat, t: Token, rest: seq<Token>)
    requires Laid(source, t.end, rest) && i == t.start < t.end <= |source| + 1 && i < |source|
    ensures Laid(source, i, [t] + rest)
  {
    var tokens := [t] + rest;
    assert forall k :: 1 <= k < |tokens| ==> tokens[k] == rest[k - 1];
    forall j, k | 0 <= j < k < |tokens| ensures tokens[j].end <= tokens[k].start {
      if j > 0 {
        assert rest[j - 1].end <= rest[k - 1].start;
      }
    }
    forall j, k | 0 <= j < k < |tokens| && k == j + 1 ensures Neighbours(source, tokens[j], tokens[k]) {
      if j > 0 {
        assert Neighbours(source, rest[j - 1], rest[k - 1]);
      }
    }
  }

  lemma {:induction false} LexLaid(a: Alphabet, source: string, i: nat, prev: Option<string>)
    ensures Laid(source, i, LexFrom(a, source, i, prev))
    decreases |source| - i
  {
    if i < |source| {
      if IsSpace(source[i]) {
        LexLaid(a, source, i + 1, prev);
        LaidEarlier(source, i, LexFrom(a, source, i + 1, prev));
      } else {
        var t := Next(a, source, i, RegexMayStart(prev));
        NextAdvances(a, source, i, RegexMayStart(prev));
        LexLaid(a, source, t.end, Some(t.value));
        LaidBefore(source, i, t, LexFrom(a, source, t.end, Some(t.value)));
      }
    }
  }
}
