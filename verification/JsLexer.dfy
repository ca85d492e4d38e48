/** `_lex_js` of `platform_route_test_ui.py`: the tokens of a TypeScript test file. */
module JsLexer {
  import opened Text
  import opened Substrings

  datatype Kind = Comment | StringLiteral | Template | Regex | Identifier | Punctuation

  /** String literals carry their decoded content as `value`; comments, templates and regular expressions none. */
  datatype Token = Token(kind: Kind, value: string, start: nat, end: nat)

  /** The Unicode character classes, and the decoding of a string literal, empty when it has no string value. */
  datatype Alphabet = Alphabet(alpha: char -> bool, alnum: char -> bool, literal: string -> string)

  const BACKSLASH: char := '\\'

  // ----- What the source looks like at a position -----

  /** Where a comment that `terminator` closes ends; an open one ends with the source. */
  function CommentEnd(source: string, i: nat, terminator: string): nat {
    var found := Find(source, terminator, i + 2);
    if found.None? then |source| else found.value + |terminator|
  }

  /** The scan for a closing quote, two characters at a time over a backslash. */
  function QuotedEnd(source: string, p: nat, quote: char): nat
    decreases |source| - p
  {
    if p >= |source| then p
    else if source[p] == BACKSLASH then QuotedEnd(source, p + 2, quote)
    else if source[p] == quote then p + 1
    else QuotedEnd(source, p + 1, quote)
  }

  function RunEnd(source: string, p: nat, f: char -> bool): (r: nat)
    requires p <= |source|
    ensures p <= r <= |source| && (forall i :: p <= i < r ==> f(source[i])) && (r < |source| ==> !f(source[r]))
    decreases |source| - p
  {
    if p < |source| && f(source[p]) then RunEnd(source, p + 1, f) else p
  }

  /** The scan of a regular expression: a slash does not close it inside a class. */
  function RegexEnd(source: string, p: nat, inClass: bool, alpha: char -> bool): nat
    decreases |source| - p
  {
    if p >= |source| then p
    else if source[p] == BACKSLASH then RegexEnd(source, p + 2, inClass, alpha)
    else if source[p] == '[' then RegexEnd(source, p + 1, true, alpha)
    else if source[p] == ']' then RegexEnd(source, p + 1, false, alpha)
    else if source[p] == '/' && !inClass then RunEnd(source, p + 1, alpha)
    else RegexEnd(source, p + 1, inClass, alpha)
  }

  /** `_regex_start`: a slash begins a regular expression after these tokens, and at the beginning. */
  predicate RegexMayStart(prev: Option<string>) {
    prev.None? || prev.value in {"(", "[", "{", ",", "=", ":", "=>", "return"}
  }

  function WordChar(a: Alphabet): char -> bool {
    c => a.alnum(c) || c == '_' || c == '$'
  }

  /** `source[i:j]`, where `j` may lie past the end. */
  function Slice(source: string, i: nat, j: nat): string {
    if i > |source| || j < i then "" else if j > |source| then source[i..] else source[i..j]
  }

  function Next(a: Alphabet, source: string, i: nat, regexOk: bool): Token
    requires i < |source| && !IsSpace(source[i])
  {
    var c := source[i];
    if At(source, i, "//") then Token(Comment, "", i, CommentEnd(source, i, "\n"))
    else if At(source, i, "/*") then Token(Comment, "", i, CommentEnd(source, i, "*/"))
    else if c == '\'' || c == '"' then
      var end := QuotedEnd(source, i + 1, c);
      Token(StringLiteral, a.literal(Slice(source, i, end)), i, end)
    else if c == '`' then Token(Template, "", i, QuotedEnd(source, i + 1, c))
    else if c == '/' && regexOk then Token(Regex, "", i, RegexEnd(source, i + 1, false, a.alpha))
    else if a.alpha(c) || c == '_' || c == '$' then
      var end := RunEnd(source, i + 1, WordChar(a));
      Token(Identifier, source[i..end], i, end)
    else if At(source, i, "=>") then Token(Punctuation, "=>", i, i + 2)
    else Token(Punctuation, [c], i, i + 1)
  }

  /** The tokens from position `i` on. */
  function LexFrom(a: Alphabet, source: string, i: nat, prev: Option<string>): seq<Token>
    decreases |source| - i
  {
    if i >= |source| then []
    else if IsSpace(source[i]) then LexFrom(a, source, i + 1, prev)
    else
      var t := Next(a, source, i, RegexMayStart(prev));
      NextAdvances(a, source, i, RegexMayStart(prev));
      [t] + LexFrom(a, source, t.end, Some(t.value))
  }

  // ----- Progress and bounds -----

  lemma {:induction false} QuotedBounds(source: string, p: nat, quote: char)
    requires p <= |source| + 1
    ensures p <= QuotedEnd(source, p, quote) <= |source| + 1
    decreases |source| + 1 - p
  {
    if p < |source| {
      if source[p] == BACKSLASH {
        QuotedBounds(source, p + 2, quote);
      } else if source[p] != quote {
        QuotedBounds(source, p + 1, quote);
      }
    }
  }

  lemma {:induction false} RegexBounds(source: string, p: nat, inClass: bool, alpha: char -> bool)
    requires p <= |source| + 1
    ensures p <= RegexEnd(source, p, inClass, alpha) <= |source| + 1
    decreases |source| + 1 - p
  {
    if p < |source| {
      if source[p] == BACKSLASH {
        RegexBounds(source, p + 2, inClass, alpha);
      } else if source[p] == '[' {
        RegexBounds(source, p + 1, true, alpha);
      } else if source[p] == ']' {
        RegexBounds(source, p + 1, false, alpha);
      } else if source[p] != '/' || inClass {
        RegexBounds(source, p + 1, inClass, alpha);
      }
    }
  }

  /** A token is not empty, and only a dangling backslash lets it end past the source, by one. */
  lemma NextAdvances(a: Alphabet, source: string, i: nat, regexOk: bool)
    requires i < |source| && !IsSpace(source[i])
    ensures var t := Next(a, source, i, regexOk); t.start == i && i < t.end <= |source| + 1
  {
    QuotedBounds(source, i + 1, source[i]);
    RegexBounds(source, i + 1, false, a.alpha);
  }

  // ----- The loops -----

  method ScanQuoted(source: string, start: nat, quote: char) returns (index: nat)
    requires start <= |source|
    ensures index == QuotedEnd(source, start, quote)
  {
    index := start;
    while index < |source|
      invariant QuotedEnd(source, index, quote) == QuotedEnd(source, start, quote)
    {
      if source[index] == BACKSLASH {
        index := index + 2;
        continue;
      }
      if source[index] == quote {
        index := index + 1;
        return;
      }
      index := index + 1;
    }
  }

  method ScanRun(source: string, start: nat, f: char -> bool) returns (index: nat)
    requires start <= |source|
    ensures index == RunEnd(source, start, f)
  {
    index := start;
    while index < |source| && f(source[index])
      invariant index <= |source| && RunEnd(source, index, f) == RunEnd(source, start, f)
    {
      index := index + 1;
    }
  }

  method ScanRegex(source: string, start: nat, alpha: char -> bool) returns (index: nat)
    requires start <= |source|
    ensures index == RegexEnd(source, start, false, alpha)
  {
    index := start;
    var inClass := false;
    while index < |source|
      invariant RegexEnd(source, index, inClass, alpha) == RegexEnd(source, start, false, alpha)
    {
      if source[index] == BACKSLASH {
        index := index + 2;
        continue;
      }
      if source[index] == '[' {
        inClass := true;
      } else if source[index] == ']' {
        inClass := false;
      } else if source[index] == '/' && !inClass {
        index := ScanRun(source, index + 1, alpha);
        return;
      }
      index := index + 1;
    }
  }

  /** One round of the outer loop, at a character that is not white space. */
  method ScanToken(a: Alphabet, source: string, index: nat, regexOk: bool) returns (t: Token)
    requires index < |source| && !IsSpace(source[index])
    ensures t == Next(a, source, index, regexOk)
  {
    var c := source[index];
    if At(source, index, "//") {
      return Token(Comment, "", index, CommentEnd(source, index, "\n"));
    }
    if At(source, index, "/*") {
      return Token(Comment, "", index, CommentEnd(source, index, "*/"));
    }
    if c == '\'' || c == '"' {
      var end := ScanQuoted(source, index + 1, c);
      return Token(StringLiteral, a.literal(Slice(source, index, end)), index, end);
    }
    if c == '`' {
      var end := ScanQuoted(source, index + 1, c);
      return Token(Template, "", index, end);
    }
    if c == '/' && regexOk {
      var end := ScanRegex(source, index + 1, a.alpha);
      return Token(Regex, "", index, end);
    }
    if a.alpha(c) || c == '_' || c == '$' {
      var end := ScanRun(source, index + 1, WordChar(a));
      return Token(Identifier, source[index..end], index, end);
    }
    if At(source, index, "=>") {
      return Token(Punctuation, "=>", index, index + 2);
    }
    return Token(Punctuation, [c], index, index + 1);
  }

  /** `_lex_js` */
  method Lex(a: Alphabet, source: string) returns (tokens: seq<Token>)
    ensures tokens == LexFrom(a, source, 0, None)
  {
    tokens := [];
    var index := 0;
    while index < |source|
      invariant tokens + LexFrom(a, source, index, LastValue(tokens)) == LexFrom(a, source, 0, None)
      decreases |source| - index
    {
      if IsSpace(source[index]) {
        index := index + 1;
      } else {
        var t := ScanToken(a, source, index, RegexMayStart(LastValue(tokens)));
        NextAdvances(a, source, index, RegexMayStart(LastValue(tokens)));
        Regroup(tokens, t, LexFrom(a, source, t.end, Some(t.value)));
        tokens := tokens + [t];
        index := t.end;
      }
    }
  }

  function LastValue(tokens: seq<Token>): Option<string> {
    if |tokens| == 0 then None else Some(tokens[|tokens| - 1].value)
  }

  lemma Regroup(tokens: seq<Token>, t: Token, rest: seq<Token>)
    ensures tokens + ([t] + rest) == (tokens + [t]) + rest
  {
  }
}
