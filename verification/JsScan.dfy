/** `_scan_case` of `platform_route_test_ui.py`: the page-source reads and the assertions in the body of a test. */
module JsScan {
  import opened Text
  import opened JsLexer
  import opened JsTokens
  import opened JsBrackets

  /** A statement that was recognised, with its text and where it lies; `relative` is the module of a read. */
  datatype Item = Item(binding: string, relative: string, anchor: string, start: nat, end: nat)

  const PROVENANCE: set<string> := {"URL", "describe", "expect", "it", "test", "readFileSync"}

  // ----- Recognising statements -----

  /** `const <binding> = readFileSync(new URL("...", import.meta.url), "utf8");`, None standing for a string. */
  const READ: seq<Option<string>> := [
    Some("readFileSync"), Some("("), Some("new"), Some("URL"), Some("("), None, Some(","), Some("import"), Some("."),
      Some("meta"),
    Some("."), Some("url"), Some(")"), Some(","), None, Some(")")]

  predicate Fits(t: Token, expected: Option<string>) {
    if expected.None? then t.kind == StringLiteral else t.value == expected.value
  }

  predicate FitsFrom(tokens: seq<Token>, i: nat, pattern: seq<Option<string>>) {
    i + |pattern| <= |tokens| && forall k :: 0 <= k < |pattern| ==> Fits(tokens[i + k], pattern[k])
  }

  /** `_source_read_at`: the last token of a read that starts at `i`. */
  function ReadEnd(tokens: seq<Token>, i: nat): (r: Option<nat>)
    ensures r.Some? ==> i + 8 < r.value < |tokens|
  {
    if i + 19 >= |tokens| || tokens[i].value != "const" then None
    else if tokens[i + 1].kind != Identifier || tokens[i + 2].value != "=" then None
    else if !FitsFrom(tokens, i + 3, READ) || tokens[i + 17].value != "utf8" || tokens[i + 19].value != ";" then None
    else Some(i + 19)
  }

  function ReadAt(tokens: seq<Token>, i: nat, last: nat, source: string): Item
    requires i + 8 < last < |tokens|
  {
    var start, end := tokens[i].start, tokens[last].end;
    Item(tokens[i + 1].value, tokens[i + 8].value, Slice(source, start, end), start, end)
  }

  /** `_assertion_at`: the last token of `expect(<binding>).[not.]toContain|toMatch(<literal>);` at `i`. */
  function AssertionEnd(tokens: seq<Token>, i: nat): (r: Option<nat>)
    ensures r.Some? ==> i + 2 < r.value < |tokens|
  {
    if i + 4 >= |tokens| || tokens[i].value != "expect" || tokens[i + 1].value != "(" then None
    else if tokens[i + 2].kind != Identifier || tokens[i + 3].value != ")" || tokens[i + 4].value != "." then None
    else
      var negated := ValueAt(tokens, i + 5, "not");
      if negated && !ValueAt(tokens, i + 6, ".") then None
      else
        var verb := if negated then i + 7 else i + 5;
        if !ValueAt(tokens, verb, "toContain") && !ValueAt(tokens, verb, "toMatch") then None
        else if !ValueAt(tokens, verb + 1, "(") then None
        else if verb + 2 >= |tokens| || (tokens[verb + 2].kind != StringLiteral && tokens[verb + 2].kind != Regex)
          then None
        else if Match(tokens, verb + 1, "(", ")") != Some(verb + 3) || !ValueAt(tokens, verb + 4, ";") then None
        else Some(verb + 4)
  }

  function AssertionAt(tokens: seq<Token>, i: nat, last: nat, source: string): Item
    requires i + 2 < last < |tokens|
  {
    var start, end := tokens[i].start, tokens[last].end;
    Item(tokens[i + 2].value, "", Slice(source, start, end), start, end)
  }

  // ----- What makes a body invalid -----

  /** The loop of `_declaration_shadows`. */
  predicate ShadowsFrom(tokens: seq<Token>, k: nat, depth: nat)
    decreases |tokens| - k
  {
    if k >= |tokens| then false
    else
      var t := tokens[k];
      var inner := if t.value in {"(", "[", "{"} then depth + 1
                   else if t.value in {")", "]", "}"} && depth > 0 then depth - 1
                   else depth;
      if inner == 0 && t.value in {"=", ";"} then false
      else if t.kind == Identifier && t.value in PROVENANCE &&
        (inner > 0 || (k + 1 < |tokens| && tokens[k + 1].value in {",", "}", "="}))
      then true
      else ShadowsFrom(tokens, k + 1, inner)
  }

  /** `_shadows_provenance` */
  predicate Shadows(tokens: seq<Token>, i: nat)
    requires i < |tokens|
  {
    || (tokens[i].value in {"const", "let", "var"} && ShadowsFrom(tokens, i + 1, 0))
    || (tokens[i].value in {"function", "class"} && i + 1 < |tokens| && tokens[i + 1].kind == Identifier &&
      tokens[i + 1].value in PROVENANCE)
  }

  /** Control flow, an exit, a shadowed name or a mocking call at the top of the body. */
  predicate Forbidden(tokens: seq<Token>, i: nat)
    requires i < |tokens|
  {
    || tokens[i].value in {"if", "for", "while", "switch", "try", "catch", "finally", "?", "return", "throw"}
    || Shadows(tokens, i)
    || (tokens[i].kind == Identifier && tokens[i].value in {"vi", "jest"})
  }

  /** A call of something else after a read, or an assignment to a name that must not change. */
  predicate Disturbs(tokens: seq<Token>, i: nat, haveReads: bool)
    requires i < |tokens|
  {
    tokens[i].kind == Identifier &&
    ((haveReads && ValueAt(tokens, i + 1, "(") && tokens[i].value !in {"expect", "readFileSync"}) ||
     (tokens[i].value in PROVENANCE && ValueAt(tokens, i + 1, "=")))
  }

  /** A binding that is written again at `i`. */
  function Rebinds(tokens: seq<Token>, i: nat, declared: set<string>): Option<string>
    requires i < |tokens|
  {
    if tokens[i].kind == Identifier && tokens[i].value in declared then
      (if ValueAt(tokens, i + 1, "=") then Some(tokens[i].value) else None)
    else if tokens[i].value in {"const", "let", "var"} && i + 1 < |tokens| && tokens[i + 1].kind == Identifier &&
      tokens[i + 1].value in declared
    then Some(tokens[i + 1].value)
    else None
  }

  // ----- The scan -----

  /** What one round finds at `i`. */
  datatype Finding = Stop | Read(last: nat) | Assertion(last: nat) | Rebinding(name: string) | Nothing

  predicate Possible(tokens: seq<Token>, i: nat, f: Finding) {
    && i < |tokens| && (f.Read? ==> i + 8 < f.last < |tokens|) && (f.Assertion? ==> i + 2 < f.last < |tokens|)
  }

  function DepthAfter(tokens: seq<Token>, i: nat, depth: nat): nat
    requires i < |tokens|
  {
    NextDepth(depth, tokens[i])
  }

  function FindingAt(tokens: seq<Token>, i: nat, depth: nat, declared: set<string>, haveReads: bool): (f: Finding)
    requires i < |tokens|
    ensures Possible(tokens, i, f)
  {
    if depth == 0 && Forbidden(tokens, i) then Stop
    else if DepthAfter(tokens, i, depth) != 0 then Nothing
    else
      var read, assertion := ReadEnd(tokens, i), AssertionEnd(tokens, i);
      if read.Some? then Read(read.value)
      else if assertion.Some? then Assertion(assertion.value)
      else if Disturbs(tokens, i, haveReads) then Stop
      else
        var name := Rebinds(tokens, i, declared);
        if name.Some? then Rebinding(name.value) else Nothing
  }

  datatype Scan = Scan(sources: seq<Item>, assertions: seq<Item>, rebindings: seq<(string, nat)>, invalid: bool)

  /** The result with the finding at `i` put in. */
  function Noted(tokens: seq<Token>, source: string, i: nat, f: Finding, acc: Scan): Scan
    requires Possible(tokens, i, f)
  {
    match f
    case Stop => acc.(invalid := true)
    case Read(last) => acc.(sources := acc.sources + [ReadAt(tokens, i, last, source)])
    case Assertion(last) => acc.(assertions := acc.assertions + [AssertionAt(tokens, i, last, source)])
    case Rebinding(name) => acc.(rebindings := acc.rebindings + [(name, tokens[i].start)])
    case Nothing => acc
  }

  function NextIndex(i: nat, f: Finding): nat {
    if f.Read? || f.Assertion? then f.last + 1 else i + 1
  }

  function Declared(tokens: seq<Token>, i: nat, f: Finding, declared: set<string>): set<string>
    requires Possible(tokens, i, f)
  {
    if f.Read? then declared + {tokens[i + 1].value} else declared
  }

  /** The rest of the scan, from token `i` on. */
  function ScanFrom(tokens: seq<Token>, source: string, i: nat, depth: nat, declared: set<string>, acc: Scan): Scan
    decreases |tokens| - i
  {
    if i >= |tokens| then acc
    else
      var f := FindingAt(tokens, i, depth, declared, |acc.sources| > 0);
      var noted := Noted(tokens, source, i, f, acc);
      if f.Stop? then noted
      else ScanFrom(tokens, source, NextIndex(i, f), DepthAfter(tokens, i, depth), Declared(tokens, i, f, declared),
        noted)
  }

  const NOTHING_YET := Scan([], [], [], false)

  /** `_scan_case` */
  method ScanCase(tokens: seq<Token>, source: string) returns (result: Scan)
    ensures result == ScanFrom(tokens, source, 0, 0, {}, NOTHING_YET)
  {
    result := NOTHING_YET;
    var declared: set<string> := {};
    var depth: nat := 0;
    var index: nat := 0;
    while index < |tokens|
      invariant ScanFrom(tokens, source, index, depth, declared, result) ==
        ScanFrom(tokens, source, 0, 0, {}, NOTHING_YET)
      decreases |tokens| - index
    {
      var finding := FindingAt(tokens, index, depth, declared, |result.sources| > 0);
      depth := DepthAfter(tokens, index, depth);
      match finding {
        case Stop =>
          return result.(invalid := true);
        case Read(last) =>
          var item := ReadAt(tokens, index, last, source);
          result := result.(sources := result.sources + [item]);
          declared := declared + {item.binding};
          index := last + 1;
        case Assertion(last) =>
          result := result.(assertions := result.assertions + [AssertionAt(tokens, index, last, source)]);
          index := last + 1;
        case Rebinding(name) =>
          result := result.(rebindings := result.rebindings + [(name, tokens[index].start)]);
          index := index + 1;
        case Nothing =>
          index := index + 1;
      }
    }
  }

  // ----- What is found, position by position -----

  /** Token `i` is not inside a statement that starts before it and is recognised. */
  ghost predicate Loose(tokens: seq<Token>, i: nat)
    requires i <= |tokens|
    decreases i, 1
  {
    forall s: nat :: s < i ==> !Covers(tokens, s, i)
  }

  /** How deep token `i` is in braces, those inside recognised statements not counted. */
  ghost function DepthBefore(tokens: seq<Token>, i: nat): nat
    requires i <= |tokens|
    decreases i, 0
  {
    if i == 0 then 0
    else if Loose(tokens, i - 1) then DepthAfter(tokens, i - 1, DepthBefore(tokens, i - 1))
    else DepthBefore(tokens, i - 1)
  }

  /** At the top of the body after token `i`, and the token is not forbidden there. */
  ghost predicate AtTop(tokens: seq<Token>, i: nat)
    requires i < |tokens|
    decreases i, 2
  {
    && Loose(tokens, i) && DepthAfter(tokens, i, DepthBefore(tokens, i)) == 0
    && !(DepthBefore(tokens, i) == 0 && Forbidden(tokens, i))
  }

  ghost predicate ReadsAt(tokens: seq<Token>, i: nat)
    requires i < |tokens|
    decreases i, 3
  {
    AtTop(tokens, i) && ReadEnd(tokens, i).Some?
  }

  ghost predicate AssertsAt(tokens: seq<Token>, i: nat)
    requires i < |tokens|
    decreases i, 3
  {
    AtTop(tokens, i) && ReadEnd(tokens, i).None? && AssertionEnd(tokens, i).Some?
  }

  /** A recognised statement that starts at `s` reaches token `i`. */
  ghost predicate Covers(tokens: seq<Token>, s: nat, i: nat)
    requires s < |tokens|
    decreases s, 4
  {
    || (ReadsAt(tokens, s) && i <= ReadEnd(tokens, s).value)
    || (AssertsAt(tokens, s) && i <= AssertionEnd(tokens, s).value)
  }

  ghost predicate ReadBefore(tokens: seq<Token>, i: nat)
    requires i <= |tokens|
  {
    exists s: nat :: s < i && ReadsAt(tokens, s)
  }

  /** Token `i` makes the body invalid: it is forbidden at the top, or disturbs the reads from there. */
  ghost predicate Spoils(tokens: seq<Token>, i: nat)
    requires i < |tokens|
  {
    || (Loose(tokens, i) && DepthBefore(tokens, i) == 0 && Forbidden(tokens, i))
    || (AtTop(tokens, i) && !ReadsAt(tokens, i) && !AssertsAt(tokens, i) &&
        Disturbs(tokens, i, ReadBefore(tokens, i)))
  }

  ghost predicate Unspoilt(tokens: seq<Token>, i: nat)
    requires i <= |tokens|
  {
    forall j: nat :: j < i ==> !Spoils(tokens, j)
  }

  /** Where the scan stands: what it carries along is what the tokens before it say. */
  ghost predicate Standing(tokens: seq<Token>, i: nat, depth: nat, haveReads: bool) {
    && i <= |tokens| && Loose(tokens, i) && depth == DepthBefore(tokens, i) && haveReads == ReadBefore(tokens, i)
    && Unspoilt(tokens, i)
  }

  lemma FindingMeans(tokens: seq<Token>, i: nat, depth: nat, declared: set<string>, haveReads: bool)
    requires i < |tokens| && Standing(tokens, i, depth, haveReads)
    ensures var f := FindingAt(tokens, i, depth, declared, haveReads);
      && (f.Stop? <==> Spoils(tokens, i))
      && (f.Read? <==> ReadsAt(tokens, i)) && (f.Read? ==> f.last == ReadEnd(tokens, i).value)
      && (f.Assertion? <==> AssertsAt(tokens, i)) && (f.Assertion? ==> f.last == AssertionEnd(tokens, i).value)
  {
  }

  /** Tokens inside a recognised statement are not loose, and change nothing. */
  lemma {:induction false} InsideItem(tokens: seq<Token>, s: nat, i: nat)
    requires s < i <= |tokens| && forall j: nat :: s < j < i ==> Covers(tokens, s, j)
    requires Loose(tokens, s) && Unspoilt(tokens, s) && !Spoils(tokens, s)
    ensures DepthBefore(tokens, i) == DepthAfter(tokens, s, DepthBefore(tokens, s))
    ensures ReadBefore(tokens, i) <==> ReadBefore(tokens, s) || ReadsAt(tokens, s)
    ensures Unspoilt(tokens, i)
    decreases i
  {
    if i > s + 1 {
      InsideItem(tokens, s, i - 1);
      NotLoose(tokens, s, i - 1);
      Idle(tokens, i - 1);
    }
  }

  lemma Idle(tokens: seq<Token>, i: nat)
    requires i < |tokens| && !Loose(tokens, i)
    ensures DepthBefore(tokens, i + 1) == DepthBefore(tokens, i) && !Spoils(tokens, i) && !ReadsAt(tokens, i)
  {
  }

  /** The statement at `s` ends before `i`, and nothing else reaches it. */
  lemma LooseAgain(tokens: seq<Token>, s: nat, i: nat)
    requires s < i <= |tokens| && Loose(tokens, s) && !Covers(tokens, s, i)
    requires forall j: nat :: s < j < i ==> Covers(tokens, s, j)
    ensures Loose(tokens, i)
  {
    forall k: nat | k < i ensures !Covers(tokens, k, i) {
      if k < s {
        CoversLess(tokens, k, s, i);
      } else if k > s {
        NotLoose(tokens, s, k);
      }
    }
  }

  lemma CoversLess(tokens: seq<Token>, k: nat, s: nat, i: nat)
    requires k < |tokens| && s <= i
    ensures Covers(tokens, k, i) ==> Covers(tokens, k, s)
  {
  }

  lemma NotLoose(tokens: seq<Token>, s: nat, k: nat)
    requires s < k < |tokens| && Covers(tokens, s, k)
    ensures !Loose(tokens, k) && forall i: nat :: !Covers(tokens, k, i)
  {
    assert !Loose(tokens, k);
    assert !AtTop(tokens, k);
    assert !ReadsAt(tokens, k) && !AssertsAt(tokens, k);
    forall i: nat ensures !Covers(tokens, k, i) {
    }
  }

  lemma StepStands(tokens: seq<Token>, i: nat, depth: nat, declared: set<string>, haveReads: bool)
    requires i < |tokens| && Standing(tokens, i, depth, haveReads) && !Spoils(tokens, i)
    ensures var f := FindingAt(tokens, i, depth, declared, haveReads);
      Standing(tokens, NextIndex(i, f), DepthAfter(tokens, i, depth), haveReads || f.Read?)
  {
    var f := FindingAt(tokens, i, depth, declared, haveReads);
    var next := NextIndex(i, f);
    FindingMeans(tokens, i, depth, declared, haveReads);
    assert forall j: nat :: i < j < next ==> Covers(tokens, i, j);
    InsideItem(tokens, i, next);
    LooseAgain(tokens, i, next);
  }

  /** The scan rejects a body exactly when some token spoils it. */
  lemma {:induction false} ScanInvalid(tokens: seq<Token>, source: string, i: nat, depth: nat, declared: set<string>,
                                       acc: Scan)
    requires Standing(tokens, i, depth, |acc.sources| > 0) && !acc.invalid
    ensures ScanFrom(tokens, source, i, depth, declared, acc).invalid <==> !Unspoilt(tokens, |tokens|)
    decreases |tokens| - i
  {
    if i < |tokens| {
      var f := FindingAt(tokens, i, depth, declared, |acc.sources| > 0);
      FindingMeans(tokens, i, depth, declared, |acc.sources| > 0);
      if !f.Stop? {
        StepStands(tokens, i, depth, declared, |acc.sources| > 0);
        ScanInvalid(tokens, source, NextIndex(i, f), DepthAfter(tokens, i, depth), Declared(tokens, i, f, declared),
                    Noted(tokens, source, i, f, acc));
      }
    }
  }

  /** A body is rejected exactly when it has, outside recognised statements, a token that is forbidden at the top, or
      that at the top rebinds a name of the test's machinery or, after a read, calls something else. */
  lemma InvalidExactly(tokens: seq<Token>, source: string)
    ensures ScanFrom(tokens, source, 0, 0, {}, NOTHING_YET).invalid <==>
            exists i: nat :: i < |tokens| && Spoils(tokens, i)
  {
    ScanInvalid(tokens, source, 0, 0, {}, NOTHING_YET);
  }

  // ----- Anchors are exact, in order and disjoint -----

  /** Each item is the source between its bounds, and they follow one another. */
  ghost predicate Exact(source: string, items: seq<Item>) {
    && (forall i :: 0 <= i < |items| ==>
      items[i].start < items[i].end && items[i].anchor == Slice(source, items[i].start, items[i].end))
    && forall i, j :: 0 <= i < j < |items| ==> items[i].end <= items[j].start
  }

  ghost predicate Apart(a: seq<Item>, b: seq<Item>) {
    forall i, j :: 0 <= i < |a| && 0 <= j < |b| ==> a[i].end <= b[j].start || b[j].end <= a[i].start
  }

  ghost predicate Before(items: seq<Item>, bound: nat) {
    forall i :: 0 <= i < |items| ==> items[i].end <= bound
  }

  ghost predicate Anchored(source: string, sources: seq<Item>, assertions: seq<Item>) {
    Exact(source, sources) && Exact(source, assertions) && Apart(sources, assertions)
  }

  lemma ExactMore(source: string, items: seq<Item>, item: Item)
    requires Exact(source, items) && Before(items, item.start)
    requires item.start < item.end && item.anchor == Slice(source, item.start, item.end)
    ensures Exact(source, items + [item]) && Before(items + [item], item.end)
  {
  }

  /** Everything before `i` ends before token `i` starts. */
  ghost predicate Past(tokens: seq<Token>, i: nat, items: seq<Item>) {
    i < |tokens| ==> Before(items, tokens[i].start)
  }

  lemma PastLater(tokens: seq<Token>, i: nat, j: nat, items: seq<Item>)
    requires Ordered(tokens) && i <= j && i < |tokens| && Past(tokens, i, items)
    ensures Past(tokens, j, items)
  {
    assert j < |tokens| ==> tokens[i].start <= tokens[j].start;
  }

  lemma NotedAnchored(tokens: seq<Token>, source: string, i: nat, f: Finding, acc: Scan)
    requires Ordered(tokens) && Possible(tokens, i, f) && Anchored(source, acc.sources, acc.assertions)
    requires Past(tokens, i, acc.sources) && Past(tokens, i, acc.assertions)
    ensures var r := Noted(tokens, source, i, f, acc);
      && Anchored(source, r.sources, r.assertions)
      && Past(tokens, NextIndex(i, f), r.sources) && Past(tokens, NextIndex(i, f), r.assertions)
  {
    if f.Read? {
      ItemStep(tokens, source, i, f.last, acc.sources, acc.assertions, ReadAt(tokens, i, f.last, source));
    } else if f.Assertion? {
      ItemStep(tokens, source, i, f.last, acc.assertions, acc.sources, AssertionAt(tokens, i, f.last, source));
    } else {
      PastLater(tokens, i, i + 1, acc.sources);
      PastLater(tokens, i, i + 1, acc.assertions);
    }
  }

  lemma {:induction false} ScanAnchored(tokens: seq<Token>, source: string, i: nat, depth: nat, declared: set<string>,
                                        acc: Scan)
    requires Ordered(tokens) && Anchored(source, acc.sources, acc.assertions)
    requires Past(tokens, i, acc.sources) && Past(tokens, i, acc.assertions)
    ensures var r := ScanFrom(tokens, source, i, depth, declared, acc); Anchored(source, r.sources, r.assertions)
    decreases |tokens| - i
  {
    if i < |tokens| {
      var f := FindingAt(tokens, i, depth, declared, |acc.sources| > 0);
      NotedAnchored(tokens, source, i, f, acc);
      if !f.Stop? {
        ScanAnchored(tokens, source, NextIndex(i, f), DepthAfter(tokens, i, depth), Declared(tokens, i, f, declared),
                     Noted(tokens, source, i, f, acc));
      }
    }
  }

  /** One more item, from token `i` to token `last`, beside items of the other sort. */
  lemma ItemStep(tokens: seq<Token>, source: string, i: nat, last: nat, items: seq<Item>, others: seq<Item>, item: Item)
    requires Ordered(tokens) && i < last < |tokens| && Exact(source, items) && Apart(items, others)
    requires Past(tokens, i, items) && Past(tokens, i, others)
    requires item.start == tokens[i].start && item.end == tokens[last].end &&
      item.anchor == Slice(source, item.start, item.end)
    ensures Exact(source, items + [item]) && Apart(items + [item], others) && Apart(others, items + [item])
    ensures Past(tokens, last + 1, items + [item]) && Past(tokens, last + 1, others)
  {
    assert tokens[i].start < tokens[i].end <= tokens[last].start < tokens[last].end;
    ExactMore(source, items, item);
    PastLater(tokens, i, last + 1, others);
  }

  /** Whatever the body of a case holds, its reads and assertions are exact slices of the source, each list in
      strictly increasing order, and no read overlaps an assertion. */
  lemma CaseAnchored(a: Alphabet, source: string, from: nat, to: nat)
    requires from <= to <= |LexFrom(a, source, 0, None)|
    ensures var r := ScanFrom(LexFrom(a, source, 0, None)[from..to], source, 0, 0, {}, NOTHING_YET);
      Anchored(source, r.sources, r.assertions)
  {
    LexLaid(a, source, 0, None);
    ScanAnchored(LexFrom(a, source, 0, None)[from..to], source, 0, 0, {}, NOTHING_YET);
  }
}
