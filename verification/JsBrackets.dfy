/** Bracket matching and scoping by depth in `platform_route_test_ui.py`. Both look at the values of tokens,
    so a string literal whose content is a bracket counts as one. */
module JsBrackets {
  import opened Text
  import opened JsLexer

  // ----- Matching -----

  function Weight(t: Token, opening: string, closing: string): int {
    if t.value == opening then 1 else if t.value == closing then -1 else 0
  }

  /** Openings minus closings among the tokens from `i` up to, not including, `j`. */
  function Balance(tokens: seq<Token>, i: nat, j: nat, opening: string, closing: string): int
    requires i <= j <= |tokens|
  {
    if j == i then 0 else Balance(tokens, i, j - 1, opening, closing) + Weight(tokens[j - 1], opening, closing)
  }

  /** Token `k` closes and brings the balance since `i` back to zero. */
  predicate Closes(tokens: seq<Token>, i: nat, k: nat, opening: string, closing: string) {
    i <= k < |tokens| && Weight(tokens[k], opening, closing) == -1 && Balance(tokens, i, k + 1, opening, closing) == 0
  }

  function MatchFrom(tokens: seq<Token>, i: nat, k: nat, depth: int, opening: string, closing: string): (r: Option<nat>)
    requires i <= k <= |tokens| && depth == Balance(tokens, i, k, opening, closing)
    ensures r.Some? ==> k <= r.value && Closes(tokens, i, r.value, opening, closing)
    ensures r.Some? ==> forall m :: k <= m < r.value ==> !Closes(tokens, i, m, opening, closing)
    ensures r.None? ==> forall m :: k <= m ==> !Closes(tokens, i, m, opening, closing)
    decreases |tokens| - k
  {
    if k == |tokens| then None
    else
      var next := depth + Weight(tokens[k], opening, closing);
      if Weight(tokens[k], opening, closing) == -1 && next == 0 then Some(k)
      else MatchFrom(tokens, i, k + 1, next, opening, closing)
  }

  /** The first token at which the balance since `i` is closed to zero. */
  function Match(tokens: seq<Token>, i: nat, opening: string, closing: string): (r: Option<nat>)
    requires i <= |tokens|
    ensures r.Some? ==> Closes(tokens, i, r.value, opening, closing)
    ensures r.Some? ==> forall m :: i <= m < r.value ==> !Closes(tokens, i, m, opening, closing)
    ensures r.None? ==> forall m :: i <= m ==> !Closes(tokens, i, m, opening, closing)
  {
    MatchFrom(tokens, i, i, 0, opening, closing)
  }

  /** `_matching` */
  method Matching(tokens: seq<Token>, index: nat, opening: string, closing: string) returns (r: Option<nat>)
    requires index <= |tokens|
    ensures r == Match(tokens, index, opening, closing)
  {
    var depth := 0;
    for cursor := index to |tokens|
      invariant depth == Balance(tokens, index, cursor, opening, closing)
      invariant MatchFrom(tokens, index, cursor, depth, opening, closing) == Match(tokens, index, opening, closing)
    {
      if tokens[cursor].value == opening {
        depth := depth + 1;
      } else if tokens[cursor].value == closing {
        depth := depth - 1;
        if depth == 0 {
          return Some(cursor);
        }
      }
    }
    return None;
  }

  lemma {:induction false} BalanceSplit(tokens: seq<Token>, i: nat, j: nat, k: nat, opening: string, closing: string)
    requires i <= j <= k <= |tokens|
    ensures Balance(tokens, i, k, opening, closing) == Balance(tokens, i, j, opening, closing) +
      Balance(tokens, j, k, opening, closing)
  {
    if j < k {
      BalanceSplit(tokens, i, j, k - 1, opening, closing);
    }
  }

  /** Between an opening token and its match the balance stays positive: the match is the first return to zero. */
  lemma {:induction false} PositiveInside(tokens: seq<Token>, i: nat, m: nat, opening: string, closing: string)
    requires i < |tokens| && tokens[i].value == opening
    requires i < m <= |tokens| &&
      (Match(tokens, i, opening, closing).Some? ==> m <= Match(tokens, i, opening, closing).value)
    ensures Balance(tokens, i, m, opening, closing) >= 1
  {
    if m > i + 1 {
      PositiveInside(tokens, i, m - 1, opening, closing);
      assert !Closes(tokens, i, m - 1, opening, closing);
    }
  }

  /** Two matched pairs are nested or disjoint. */
  lemma PairsNest(tokens: seq<Token>, i: nat, j: nat, opening: string, closing: string)
    requires i < j < |tokens| && tokens[i].value == opening && tokens[j].value == opening
    requires Match(tokens, i, opening, closing).Some? && Match(tokens, j, opening, closing).Some?
    ensures var ci, cj := Match(tokens, i, opening, closing).value, Match(tokens, j, opening, closing).value;
      ci < j || cj < ci
  {
    var ci, cj := Match(tokens, i, opening, closing).value, Match(tokens, j, opening, closing).value;
    if j <= ci <= cj {
      PositiveInside(tokens, i, j, opening, closing);
      BalanceSplit(tokens, i, j, ci + 1, opening, closing);
      assert ci < cj ==> Balance(tokens, j, ci + 1, opening, closing) >= 1 by {
        if ci < cj {
          PositiveInside(tokens, j, ci + 1, opening, closing);
        }
      }
    }
  }

  /** What opens inside a matched pair closes inside it. */
  lemma MatchInside(tokens: seq<Token>, i: nat, j: nat, opening: string, closing: string)
    requires i < j < |tokens| && tokens[i].value == opening && tokens[j].value == opening
    requires Match(tokens, i, opening, closing).Some? && j < Match(tokens, i, opening, closing).value
    ensures Match(tokens, j, opening, closing).Some? &&
      Match(tokens, j, opening, closing).value < Match(tokens, i, opening, closing).value
  {
    var ci := Match(tokens, i, opening, closing).value;
    if Match(tokens, j, opening, closing).None? {
      PositiveInside(tokens, i, j, opening, closing);
      PositiveInside(tokens, j, ci + 1, opening, closing);
      BalanceSplit(tokens, i, j, ci + 1, opening, closing);
      assert false;
    }
    PairsNest(tokens, i, j, opening, closing);
  }

  // ----- Brace depth -----

  function NextDepth(depth: nat, t: Token): nat {
    if t.value == "{" then depth + 1
    else if t.value == "}" && depth > 0 then depth - 1
    else depth
  }

  function DepthAt(tokens: seq<Token>, k: nat): nat
    requires k <= |tokens|
  {
    if k == 0 then 0 else NextDepth(DepthAt(tokens, k - 1), tokens[k - 1])
  }

  /** `_js_brace_depths` */
  method BraceDepths(tokens: seq<Token>) returns (depths: seq<nat>)
    ensures |depths| == |tokens| && forall k :: 0 <= k < |tokens| ==> depths[k] == DepthAt(tokens, k)
  {
    depths := [];
    var depth: nat := 0;
    for k := 0 to |tokens|
      invariant |depths| == k && depth == DepthAt(tokens, k)
      invariant forall i :: 0 <= i < k ==> depths[i] == DepthAt(tokens, i)
    {
      depths := depths + [depth];
      depth := NextDepth(depth, tokens[k]);
    }
  }

  predicate Pair(tokens: seq<Token>, o: nat, c: nat) {
    o < c < |tokens| && tokens[o].value == "{" && Match(tokens, o, "{", "}") == Some(c)
  }

  /** Within a pair of braces the depth is the balance since its opening, so clamping at zero plays no part. */
  lemma {:induction false} DepthInside(tokens: seq<Token>, o: nat, c: nat, k: nat)
    requires Pair(tokens, o, c) && o < k <= c
    ensures DepthAt(tokens, k) == DepthAt(tokens, o) + Balance(tokens, o, k, "{", "}")
  {
    if k > o + 1 {
      DepthInside(tokens, o, c, k - 1);
      PositiveInside(tokens, o, k - 1, "{", "}");
    }
  }

  /** Some pair strictly inside the body from `o` to `c` holds position `k`. */
  ghost predicate Enclosed(tokens: seq<Token>, o: nat, c: nat, k: nat) {
    exists p, q :: o < p < k <= q < c && Pair(tokens, p, q)
  }

  lemma EnclosedIsDeeper(tokens: seq<Token>, o: nat, c: nat, k: nat)
    requires Pair(tokens, o, c) && o < k < c && Enclosed(tokens, o, c, k)
    ensures DepthAt(tokens, k) > DepthAt(tokens, o) + 1
  {
    var p, q :| o < p < k <= q < c && Pair(tokens, p, q);
    DepthInside(tokens, o, c, p);
    PositiveInside(tokens, o, p, "{", "}");
    DepthInside(tokens, p, q, k);
    PositiveInside(tokens, p, k, "{", "}");
  }

  /** The last position up to `k` where the balance since `o` was 1. */
  lemma {:induction false} LastAtOne(tokens: seq<Token>, o: nat, k: nat) returns (p: nat)
    requires o < k <= |tokens| && tokens[o].value == "{" && Balance(tokens, o, k, "{", "}") >= 1
    ensures o < p <= k && Balance(tokens, o, p, "{", "}") == 1
    ensures forall m :: p < m <= k ==> Balance(tokens, o, m, "{", "}") != 1
  {
    p := k;
    while Balance(tokens, o, p, "{", "}") != 1
      invariant o < p <= k
      invariant forall m :: p < m <= k ==> Balance(tokens, o, m, "{", "}") != 1
      decreases p
    {
      assert Balance(tokens, o, o + 1, "{", "}") == 1;
      p := p - 1;
    }
  }

  lemma DeeperIsEnclosed(tokens: seq<Token>, o: nat, c: nat, k: nat)
    requires Pair(tokens, o, c) && o < k < c && DepthAt(tokens, k) > DepthAt(tokens, o) + 1
    ensures Enclosed(tokens, o, c, k)
  {
    DepthInside(tokens, o, c, k);
    var p := LastAtOne(tokens, o, k);
    PositiveInside(tokens, o, p + 1, "{", "}");
    assert tokens[p].value == "{";
    MatchInside(tokens, o, p, "{", "}");
    var q := Match(tokens, p, "{", "}").value;
    BalanceSplit(tokens, o, p, q + 1, "{", "}");
    assert Closes(tokens, p, q, "{", "}");
    assert q != p;
    assert Pair(tokens, p, q);
  }

  /** A token of a body is at the body's own depth exactly when no pair of braces inside the body encloses it. */
  lemma DepthIsScope(tokens: seq<Token>, o: nat, c: nat, k: nat)
    requires Pair(tokens, o, c) && o < k < c
    ensures DepthAt(tokens, k) == DepthAt(tokens, o) + 1 <==> !Enclosed(tokens, o, c, k)
  {
    DepthInside(tokens, o, c, k);
    PositiveInside(tokens, o, k, "{", "}");
    if Enclosed(tokens, o, c, k) {
      EnclosedIsDeeper(tokens, o, c, k);
    } else if DepthAt(tokens, k) != DepthAt(tokens, o) + 1 {
      DeeperIsEnclosed(tokens, o, c, k);
    }
  }

  // ----- Describe blocks and test cases -----

  predicate ValueAt(tokens: seq<Token>, i: nat, value: string) {
    i < |tokens| && tokens[i].value == value
  }

  /** `() => {` */
  predicate ArrowAt(tokens: seq<Token>, i: nat) {
    ValueAt(tokens, i, "(") && ValueAt(tokens, i + 1, ")") && ValueAt(tokens, i + 2, "=>") &&
      ValueAt(tokens, i + 3, "{")
  }

  /** The braces of the callback of a call whose name is token `i`: a title, a comma, an arrow function without
      parameters (where `allowAsync`, possibly `async`), and nothing after it. */
  function CallbackBody(tokens: seq<Token>, i: nat, allowAsync: bool): (r: Option<(nat, nat)>)
    ensures r.Some? ==> Pair(tokens, r.value.0, r.value.1) && i < r.value.0
  {
    if !ValueAt(tokens, i + 1, "(") then None
    else
      var close := Match(tokens, i + 1, "(", ")");
      if close.None? || i + 2 >= close.value || tokens[i + 2].kind != StringLiteral then None
      else if i + 3 >= close.value || !ValueAt(tokens, i + 3, ",") then None
      else
        var cursor := if allowAsync && i + 4 < close.value && ValueAt(tokens, i + 4, "async") then i + 5 else i + 4;
        if cursor + 4 >= close.value || !ArrowAt(tokens, cursor) then None
        else
          var body := Match(tokens, cursor + 3, "{", "}");
          if body.None? || body.value + 1 != close.value then None
          else
            assert Closes(tokens, cursor + 3, body.value, "{", "}");
            Some((cursor + 3, body.value))
  }

  predicate After(tokens: seq<Token>, i: nat, values: set<string>)
    requires i < |tokens|
  {
    i == 0 || tokens[i - 1].value in values
  }

  /** Body of the top-level `describe` call at token `i`, if there is one: first and last token, and depth. */
  function DescribeAt(tokens: seq<Token>, i: nat): Option<(nat, nat, nat)>
    requires i < |tokens|
  {
    if tokens[i].kind != Identifier || tokens[i].value != "describe" || DepthAt(tokens, i) != 0 ||
      !After(tokens, i, {";", "}"}) then None
    else
      var body := CallbackBody(tokens, i, false);
      if body.None? then None else Some((body.value.0 + 1, body.value.1, DepthAt(tokens, body.value.0) + 1))
  }

  function RangesUpTo(tokens: seq<Token>, n: nat): seq<(nat, nat, nat)>
    requires n <= |tokens|
  {
    if n == 0 then []
    else
      var range := DescribeAt(tokens, n - 1);
      RangesUpTo(tokens, n - 1) + if range.Some? then [range.value] else []
  }

  /** `_ordinary_describe_ranges` */
  method DescribeRanges(tokens: seq<Token>) returns (ranges: seq<(nat, nat, nat)>)
    ensures ranges == RangesUpTo(tokens, |tokens|)
  {
    ranges := [];
    for i := 0 to |tokens|
      invariant ranges == RangesUpTo(tokens, i)
    {
      var range := DescribeAt(tokens, i);
      if range.Some? {
        ranges := ranges + [range.value];
      }
    }
  }

  predicate InRange(range: (nat, nat, nat), i: nat, depth: nat) {
    range.0 <= i < range.1 && depth == range.2
  }

  /** A token at which a test case may begin. */
  predicate Admitted(tokens: seq<Token>, ranges: seq<(nat, nat, nat)>, i: nat)
    requires i < |tokens|
  {
    && tokens[i].kind == Identifier && tokens[i].value in {"it", "test"} && After(tokens, i, {";", "{", "}"})
    && (DepthAt(tokens, i) == 0 || exists r :: 0 <= r < |ranges| && InRange(ranges[r], i, DepthAt(tokens, i)))
  }

  datatype Case = Case(name: string, bodyStart: nat, bodyEnd: nat, tokens: seq<Token>)

  function CaseAt(tokens: seq<Token>, ranges: seq<(nat, nat, nat)>, i: nat): Option<Case>
    requires i < |tokens|
  {
    if !Admitted(tokens, ranges, i) then None
    else
      var body := CallbackBody(tokens, i, true);
      if body.None? then None
      else
        var (o, c) := body.value;
        Some(Case(tokens[i + 2].value, tokens[o].end, tokens[c].start, tokens[o + 1..c]))
  }

  function CasesUpTo(tokens: seq<Token>, ranges: seq<(nat, nat, nat)>, n: nat): seq<Case>
    requires n <= |tokens|
  {
    if n == 0 then []
    else
      var case' := CaseAt(tokens, ranges, n - 1);
      CasesUpTo(tokens, ranges, n - 1) + if case'.Some? then [case'.value] else []
  }

  /** `_case_tokens` */
  method CaseTokens(tokens: seq<Token>) returns (cases: seq<Case>)
    ensures cases == CasesUpTo(tokens, RangesUpTo(tokens, |tokens|), |tokens|)
  {
    cases := [];
    var ranges := DescribeRanges(tokens);
    for i := 0 to |tokens|
      invariant cases == CasesUpTo(tokens, ranges, i)
    {
      var found := CaseAt(tokens, ranges, i);
      if found.Some? {
        cases := cases + [found.value];
      }
    }
  }

  lemma {:induction false} RangeIsBody(tokens: seq<Token>, n: nat, r: nat) returns (i: nat, o: nat, c: nat)
    requires n <= |tokens| && r < |RangesUpTo(tokens, n)|
    ensures i < n && tokens[i].value == "describe" && DepthAt(tokens, i) == 0
    ensures CallbackBody(tokens, i, false) == Some((o, c)) && Pair(tokens, o, c)
    ensures RangesUpTo(tokens, n)[r] == (o + 1, c, DepthAt(tokens, o) + 1)
  {
    if r < |RangesUpTo(tokens, n - 1)| {
      i, o, c := RangeIsBody(tokens, n - 1, r);
    } else {
      i := n - 1;
      o, c := CallbackBody(tokens, i, false).value.0, CallbackBody(tokens, i, false).value.1;
    }
  }

  /** Directly in the body of a `describe` block that is itself at the top level. */
  ghost predicate DirectlyIn(tokens: seq<Token>, d: nat, i: nat) {
    && d < |tokens| && tokens[d].value == "describe" && DepthAt(tokens, d) == 0
    && CallbackBody(tokens, d, false).Some?
    && (var (o, c) := CallbackBody(tokens, d, false).value;
        o < i < c && !Enclosed(tokens, o, c, i))
  }

  /** At depth zero, no pair of braces encloses a token. */
  lemma TopLevel(tokens: seq<Token>, o: nat, c: nat, k: nat)
    requires Pair(tokens, o, c) && k <= |tokens| && DepthAt(tokens, k) == 0
    ensures !(o < k <= c)
  {
    if o < k <= c {
      DepthInside(tokens, o, c, k);
      PositiveInside(tokens, o, k, "{", "}");
    }
  }

  /** A test case is accepted only at the top level or directly in a top-level `describe` block: no braces
      between the block's own and the case. */
  lemma CaseScope(tokens: seq<Token>, i: nat)
    requires i < |tokens| && CaseAt(tokens, RangesUpTo(tokens, |tokens|), i).Some?
    ensures (forall o: nat, c: nat :: Pair(tokens, o, c) ==> !(o < i <= c)) || exists d :: DirectlyIn(tokens, d, i)
  {
    var ranges := RangesUpTo(tokens, |tokens|);
    if DepthAt(tokens, i) != 0 {
      var r :| 0 <= r < |ranges| && InRange(ranges[r], i, DepthAt(tokens, i));
      var d, o, c := RangeIsBody(tokens, |tokens|, r);
      DepthIsScope(tokens, o, c, i);
      assert DirectlyIn(tokens, d, i);
    } else {
      forall o: nat, c: nat | Pair(tokens, o, c) ensures !(o < i <= c) {
        TopLevel(tokens, o, c, i);
      }
    }
  }
}
