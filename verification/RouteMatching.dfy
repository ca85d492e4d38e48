/** `_route_matches` of `platform_route_test_ownership.py`, and when matching the descriptor of a folded path
    says something about the paths that the folded path stands for. */
module RouteMatching {
  import opened Text
  import opened Folding
  import SourcePaths

  // ----- Matching -----

  predicate Letter(c: char) {
    'A' <= c <= 'Z' || 'a' <= c <= 'z'
  }

  predicate NameChar(c: char) {
    Letter(c) || '0' <= c <= '9' || c == '_'
  }

  /** `{name}` */
  predicate IsParam(s: string) {
    |s| >= 3 && s[0] == '{' && s[|s| - 1] == '}' && Letter(s[1]) && forall i :: 1 <= i < |s| - 1 ==> NameChar(s[i])
  }

  /** A route segment as a pattern: literal characters and places for any text. */
  datatype Part = Char(c: char) | Any

  /** The end of a parameter that begins at `i`, if one does. */
  function ParamEnd(s: string, i: nat, k: nat): (r: Option<nat>)
    requires i < k <= |s|
    ensures r.Some? ==> k < r.value <= |s| && s[r.value - 1] == '}' && forall j :: k <= j < r.value - 1 ==>
      NameChar(s[j])
    ensures r.None? ==> forall e :: k <= e < |s| && s[e] == '}' ==> exists j :: k <= j < e && !NameChar(s[j])
    decreases |s| - k
  {
    if k == |s| then None
    else if s[k] == '}' then Some(k + 1)
    else if NameChar(s[k]) then ParamEnd(s, i, k + 1)
    else None
  }

  function Parts(s: string): seq<Part>
    decreases |s|
  {
    if |s| == 0 then []
    else if s[0] == '{' && |s| > 1 && Letter(s[1]) && ParamEnd(s, 0, 1).Some?
      then [Any] + Parts(s[ParamEnd(s, 0, 1).value..])
    else [Char(s[0])] + Parts(s[1..])
  }

  /** `re.fullmatch`, where `Any` stands for `[^/]+`. */
  predicate PartsMatch(parts: seq<Part>, text: string)
    decreases |parts|
  {
    if |parts| == 0 then |text| == 0
    else if parts[0].Char? then |text| > 0 && text[0] == parts[0].c && PartsMatch(parts[1..], text[1..])
    else exists k :: 0 < k <= |text| && '/' !in text[..k] && PartsMatch(parts[1..], text[k..])
  }

  const MARKDOWN := ".md"

  predicate SegmentMatches(route: string, request: string) {
    if IsParam(route) then !SourcePaths.EndsWith(request, MARKDOWN) && |request| > 0
    else if '{' in route then PartsMatch(Parts(route), request)
    else route == request
  }

  predicate SegmentsMatch(route: seq<string>, request: seq<string>) {
    |route| == |request| && forall i :: 0 <= i < |route| ==> SegmentMatches(route[i], request[i])
  }

  function Upto(s: string, c: char): string {
    s[..Find(s, c)]
  }

  /** `_route_matches` */
  predicate RouteMatches(route: string, request: string) {
    var path := Upto(Upto(request, '?'), '#');
    |path| > 0 && path[0] == '/' && '%' !in path &&
      SegmentsMatch(SourcePaths.Components(route), SourcePaths.Components(path))
  }

  // ----- Filling the slots -----

  /** The text with its `k`-th slot replaced by `fill(k)`. */
  function Fill(text: string, fill: nat -> string): string {
    if |text| == 0 then ""
    else
      var init, last := text[..|text| - 1], text[|text| - 1];
      Fill(init, fill) + if last == SLOT then fill(Count(init, SLOT)) else [last]
  }

  const PARAM := "{param}"

  /** `_path_descriptor` of a path value. */
  function Descriptor(text: string): string {
    Fill(text, (k: nat) => PARAM)
  }

  /** What a path parameter may be filled with. */
  predicate GoodFill(s: string) {
    |s| > 0 && (forall c :: c in s ==> c != '/' && c != '?' && c != '#' && c != '%') &&
      !SourcePaths.EndsWith(s, MARKDOWN)
  }

  /** A filling is one of the texts that the path value covers. */
  lemma {:induction false} FillCovered(text: string, fill: nat -> string)
    ensures CoversText(text, Fill(text, fill))
  {
    if |text| > 0 {
      var init, last := text[..|text| - 1], text[|text| - 1];
      FillCovered(init, fill);
      assert text == init + [last];
      if last == SLOT {
        SlotCovers(fill(Count(init, SLOT)));
        CoversConcat(init, [last], Fill(init, fill), fill(Count(init, SLOT)));
      } else {
        CoversSelf([last]);
        CoversConcat(init, [last], Fill(init, fill), [last]);
      }
    }
  }

  // ----- Segment by segment -----

  ghost predicate GoodFills(fill: nat -> string, n: nat) {
    forall k :: 0 <= k < n ==> GoodFill(fill(k))
  }

  /** A segment with a slot: the slot, then nothing or something that begins with a dot. */
  predicate Hole(segment: string) {
    |segment| > 0 && segment[0] == SLOT && SLOT !in segment[1..] && (|segment| > 1 ==> segment[1] == '.')
  }

  ghost predicate Filled(segment: string, filled: string, fill: nat -> string, n: nat) {
    if SLOT !in segment then filled == segment
    else Hole(segment) && exists k: nat :: k < n && filled == fill(k) + segment[1..]
  }

  lemma ComponentsSnoc(s: string, ch: char)
    requires ch != '/'
    ensures SourcePaths.Components(s + [ch]) == Longer(SourcePaths.Components(s), [ch])
  {
    assert (s + [ch])[..|s|] == s;
  }

  /** The parts with more text on the last one. */
  function Longer(parts: seq<string>, t: string): seq<string>
    requires |parts| > 0
  {
    parts[..|parts| - 1] + [parts[|parts| - 1] + t]
  }

  lemma LongerNone(parts: seq<string>, t: string)
    requires |parts| > 0 && |t| == 0
    ensures Longer(parts, t) == parts
  {
    assert parts[|parts| - 1] + t == parts[|parts| - 1];
  }

  lemma LongerTwice(parts: seq<string>, t: string, u: string)
    requires |parts| > 0
    ensures Longer(Longer(parts, t), u) == Longer(parts, t + u)
  {
    assert parts[|parts| - 1] + t + u == parts[|parts| - 1] + (t + u);
  }

  lemma {:induction false} ComponentsAppend(s: string, t: string)
    requires '/' !in t
    ensures SourcePaths.Components(s + t) == Longer(SourcePaths.Components(s), t)
  {
    var c := SourcePaths.Components(s);
    if |t| == 0 {
      LongerNone(c, t);
      assert s + t == s;
    } else {
      var init, last := t[..|t| - 1], t[|t| - 1];
      assert t == init + [last] && s + t == (s + init) + [last];
      ComponentsAppend(s, init);
      AppendStep(s + init, c, init, last);
    }
  }

  lemma AppendStep(before: string, c: seq<string>, init: string, last: char)
    requires last != '/' && |c| > 0 && SourcePaths.Components(before) == Longer(c, init)
    ensures SourcePaths.Components(before + [last]) == Longer(c, init + [last])
  {
    ComponentsSnoc(before, last);
    LongerTwice(c, init, [last]);
  }

  /** The last component ends as the text does, and is empty after a slash. */
  lemma LastComponent(s: string)
    requires |s| > 0
    ensures var c := SourcePaths.Components(s); var last := c[|c| - 1];
      if s[|s| - 1] == '/' then last == "" else |last| > 0 && last[|last| - 1] == s[|s| - 1]
  {
  }

  lemma PlacedPrefix(p: string)
    requires |p| > 0 && SlotsPlaced(p)
    ensures SlotsPlaced(p[..|p| - 1])
  {
    var init := p[..|p| - 1];
    forall i | 0 <= i < |init| && init[i] == SLOT
      ensures i > 0 && init[i - 1] == '/' && (i + 1 == |init| || init[i + 1] == '/' || init[i + 1] == '.')
    {
      assert p[i] == SLOT;
    }
  }

  /** Filling works inside the segments and leaves their number as it is. */
  lemma {:induction false} FillSegments(p: string, fill: nat -> string)
    requires SlotsPlaced(p) && GoodFills(fill, Count(p, SLOT))
    ensures var c, f := SourcePaths.Components(p), SourcePaths.Components(Fill(p, fill));
      AllFilled(c, f, fill, Count(p, SLOT))
  {
    if |p| > 0 {
      PlacedPrefix(p);
      FillSegments(p[..|p| - 1], fill);
      if p[|p| - 1] == '/' {
        FillSlash(p, fill);
      } else {
        FillChar(p, fill);
      }
    }
  }

  lemma FillSlash(p: string, fill: nat -> string)
    requires |p| > 0 && p[|p| - 1] == '/'
    requires var init := p[..|p| - 1]; AllFilled(SourcePaths.Components(init),
      SourcePaths.Components(Fill(init, fill)), fill, Count(init, SLOT))
    ensures AllFilled(SourcePaths.Components(p), SourcePaths.Components(Fill(p, fill)), fill, Count(p, SLOT))
  {
    var init := p[..|p| - 1];
    var c, f := SourcePaths.Components(init), SourcePaths.Components(Fill(init, fill));
    assert p == init + "/" && Fill(p, fill) == Fill(init, fill) + "/";
    SlashAppend(init);
    SlashAppend(Fill(init, fill));
    AllFilledMore(c, f, "", "", fill, Count(p, SLOT));
  }

  lemma FillChar(p: string, fill: nat -> string)
    requires |p| > 0 && p[|p| - 1] != '/' && SlotsPlaced(p) && GoodFills(fill, Count(p, SLOT))
    requires var init := p[..|p| - 1]; AllFilled(SourcePaths.Components(init),
      SourcePaths.Components(Fill(init, fill)), fill, Count(init, SLOT))
    ensures AllFilled(SourcePaths.Components(p), SourcePaths.Components(Fill(p, fill)), fill, Count(p, SLOT))
  {
    var init := p[..|p| - 1];
    var c, f := SourcePaths.Components(init), SourcePaths.Components(Fill(init, fill));
    MoreFills(c, f, fill, Count(init, SLOT), Count(p, SLOT));
    CharAppend(p, fill);
    assert Filled(c[|c| - 1], f[|f| - 1], fill, Count(p, SLOT));
    LastFilled(p, fill, c[|c| - 1], f[|f| - 1]);
    LongerFilled(c, f, [p[|p| - 1]], AddedText(p, fill), fill, Count(p, SLOT));
  }

  lemma LongerFilled(c: seq<string>, f: seq<string>, x: string, y: string, fill: nat -> string, n: nat)
    requires |c| > 0 && AllFilled(c, f, fill, n) && Filled(c[|c| - 1] + x, f[|f| - 1] + y, fill, n)
    ensures AllFilled(Longer(c, x), Longer(f, y), fill, n)
  {
    AllFilledMore(c[..|c| - 1], f[..|f| - 1], c[|c| - 1] + x, f[|f| - 1] + y, fill, n);
  }

  /** What the last character adds to the filled text. */
  function AddedText(p: string, fill: nat -> string): string
    requires |p| > 0
  {
    if p[|p| - 1] == SLOT then fill(Count(p[..|p| - 1], SLOT)) else [p[|p| - 1]]
  }

  lemma CharAppend(p: string, fill: nat -> string)
    requires |p| > 0 && p[|p| - 1] != '/' && GoodFills(fill, Count(p, SLOT))
    ensures var init := p[..|p| - 1];
      var c, f := SourcePaths.Components(init), SourcePaths.Components(Fill(init, fill));
      && SourcePaths.Components(p) == Longer(c, [p[|p| - 1]])
      && SourcePaths.Components(Fill(p, fill)) == Longer(f, AddedText(p, fill))
  {
    var init, added := p[..|p| - 1], AddedText(p, fill);
    assert p == init + [p[|p| - 1]];
    assert '/' !in added;
    ComponentsAppend(init, [p[|p| - 1]]);
    ComponentsAppend(Fill(init, fill), added);
  }

  lemma SlashAppend(s: string)
    ensures SourcePaths.Components(s + "/") == SourcePaths.Components(s) + [""]
  {
    assert (s + "/")[..|s|] == s;
  }

  ghost predicate AllFilled(c: seq<string>, f: seq<string>, fill: nat -> string, n: nat) {
    |c| == |f| && forall i :: 0 <= i < |c| ==> Filled(c[i], f[i], fill, n)
  }

  lemma AllFilledMore(c: seq<string>, f: seq<string>, x: string, y: string, fill: nat -> string, n: nat)
    requires |c| == |f| && Filled(x, y, fill, n) && forall i :: 0 <= i < |c| ==> Filled(c[i], f[i], fill, n)
    ensures AllFilled(c + [x], f + [y], fill, n)
  {
  }

  lemma MoreFills(c: seq<string>, f: seq<string>, fill: nat -> string, m: nat, n: nat)
    requires m <= n && AllFilled(c, f, fill, m)
    ensures AllFilled(c, f, fill, n)
  {
    forall i | 0 <= i < |c| ensures Filled(c[i], f[i], fill, n) {
      assert Filled(c[i], f[i], fill, m);
    }
  }

  /** One more character on the last segment. */
  lemma LastFilled(p: string, fill: nat -> string, c: string, f: string)
    requires |p| > 0 && SlotsPlaced(p) && p[|p| - 1] != '/'
    requires c == Last(SourcePaths.Components(p[..|p| - 1])) && Filled(c, f, fill, Count(p, SLOT))
    ensures Filled(c + [p[|p| - 1]], f + AddedText(p, fill), fill, Count(p, SLOT))
  {
    if p[|p| - 1] == SLOT {
      SlotFilled(p, fill, c, f);
    } else if SLOT in c {
      HoleGrows(p, c);
      HoleFilled(c, f, p[|p| - 1], fill, Count(p, SLOT));
    } else {
      assert SLOT !in c + [p[|p| - 1]];
    }
  }

  lemma HoleFilled(c: string, f: string, last: char, fill: nat -> string, n: nat)
    requires SLOT in c && Filled(c, f, fill, n) && Hole(c + [last]) && (c + [last])[1..] == c[1..] + [last]
    ensures Filled(c + [last], f + [last], fill, n)
  {
    var k: nat :| k < n && f == fill(k) + c[1..];
    assert f + [last] == fill(k) + (c + [last])[1..];
    assert (c + [last])[0] == SLOT;
  }

  lemma SlotFilled(p: string, fill: nat -> string, c: string, f: string)
    requires |p| > 0 && SlotsPlaced(p) && p[|p| - 1] == SLOT
    requires c == Last(SourcePaths.Components(p[..|p| - 1])) && Filled(c, f, fill, Count(p, SLOT))
    ensures Filled(c + [SLOT], f + fill(Count(p[..|p| - 1], SLOT)), fill, Count(p, SLOT))
  {
    var init := p[..|p| - 1];
    assert p[|p| - 2] == '/' && init[|init| - 1] == '/';
    LastComponent(init);
    assert c == "" && f == "";
    assert c + [SLOT] == [SLOT];
    assert f + fill(Count(init, SLOT)) == fill(Count(init, SLOT)) + [SLOT][1..];
  }

  lemma HoleGrows(p: string, c: string)
    requires |p| > 0 && SlotsPlaced(p) && p[|p| - 1] != '/' && p[|p| - 1] != SLOT
    requires c == Last(SourcePaths.Components(p[..|p| - 1])) && Hole(c)
    ensures Hole(c + [p[|p| - 1]]) && (c + [p[|p| - 1]])[1..] == c[1..] + [p[|p| - 1]]
  {
    var init := p[..|p| - 1];
    if |init| > 0 {
      LastComponent(init);
    }
    if |c| == 1 {
      assert init[|init| - 1] == SLOT && p[|init| - 1] == SLOT;
    }
  }

  function Last(parts: seq<string>): string
    requires |parts| > 0
  {
    parts[|parts| - 1]
  }

  // ----- Segments that match whatever fills them -----

  /** What can follow a slot in its segment. */
  predicate PathTail(rest: string) {
    (|rest| > 0 ==> rest[0] == '.') &&
    forall c :: c in rest ==> c != '/' && c != '?' && c != '#' && c != '%' && c != SLOT
  }

  /** Whenever the segment matches a descriptor, it matches the same with every good filling in its place. */
  ghost predicate Stable(route: string) {
    forall v, rest :: GoodFill(v) && PathTail(rest) && SegmentMatches(route, PARAM + rest) ==>
      SegmentMatches(route, v + rest)
  }

  const PROBE := "x"

  /** The same, tried with one filling. */
  ghost predicate ProbeStable(route: string) {
    forall rest :: PathTail(rest) && SegmentMatches(route, PARAM + rest) ==> SegmentMatches(route, PROBE + rest)
  }

  /** A place for any text that takes one character and more of the rest takes any other text in its stead. */
  lemma AnyTakes(parts: seq<Part>, one: string, v: string, rest: string)
    requires |parts| > 0 && parts[0].Any? && |one| == 1 && |v| > 0 && '/' !in v && PartsMatch(parts, one + rest)
    ensures PartsMatch(parts, v + rest)
  {
    var k :| 0 < k <= |one + rest| && '/' !in (one + rest)[..k] && PartsMatch(parts[1..], (one + rest)[k..]);
    var j := |v| + k - 1;
    assert (v + rest)[j..] == (one + rest)[k..];
    assert (v + rest)[..j] == v + rest[..k - 1] && (one + rest)[..k] == one + rest[..k - 1];
    assert '/' !in (v + rest)[..j];
  }

  /** One filling decides: a segment is stable exactly when it passes the probe. */
  lemma StableExactly(route: string)
    ensures Stable(route) <==> ProbeStable(route)
  {
    ProbeIsGood();
    if ProbeStable(route) {
      forall v, rest | GoodFill(v) && PathTail(rest) && SegmentMatches(route, PARAM + rest)
        ensures SegmentMatches(route, v + rest)
      {
        ProbeDecides(route, v, rest);
      }
    }
  }

  lemma ProbeIsGood()
    ensures GoodFill(PROBE)
  {
  }

  lemma ProbeDecides(route: string, v: string, rest: string)
    requires GoodFill(v) && PathTail(rest) && SegmentMatches(route, PARAM + rest) && SegmentMatches(route, PROBE + rest)
    ensures SegmentMatches(route, v + rest)
  {
    assert (PARAM + rest)[0] == '{' && (PROBE + rest)[0] == 'x';
    if IsParam(route) {
      EndingKept(v, rest);
    } else if '{' in route {
      AnyTakes(Parts(route), PROBE, v, rest);
    }
  }

  /** A literal, a parameter, something that begins with a literal, or a parameter and a literal suffix that
      begins with a character which the descriptor's placeholder does not have, such as a dot or a dash. */
  predicate Simple(route: string) {
    || '{' !in route || IsParam(route) || route[0] != '{'
    || exists n :: 3 <= n < |route| && IsParam(route[..n]) && route[n] !in PARAM && '{' !in route[n..]
  }

  lemma {:induction false} ParamEndAt(s: string, i: nat, k: nat, e: nat)
    requires i < k <= e < |s| && s[e] == '}' && forall j :: k <= j < e ==> NameChar(s[j])
    ensures ParamEnd(s, i, k) == Some(e + 1)
    decreases e - k
  {
    if k < e {
      ParamEndAt(s, i, k + 1, e);
    }
  }

  lemma {:induction false} LiteralParts(s: string, text: string)
    requires '{' !in s
    ensures PartsMatch(Parts(s), text) <==> text == s
    decreases |s|
  {
    if |s| > 0 {
      assert Parts(s) == [Char(s[0])] + Parts(s[1..]);
      assert Parts(s)[1..] == Parts(s[1..]);
      if |text| > 0 {
        LiteralParts(s[1..], text[1..]);
        assert s == [s[0]] + s[1..] && text == [text[0]] + text[1..];
      }
    }
  }

  /** A parameter with a suffix matches what has something without a slash before that suffix. */
  lemma SuffixMatches(route: string, n: nat, text: string)
    requires 3 <= n < |route| && IsParam(route[..n]) && '{' !in route[n..]
    ensures PartsMatch(Parts(route), text) <==>
      exists k :: 0 < k <= |text| && '/' !in text[..k] && text[k..] == route[n..]
  {
    var p := route[..n];
    assert forall j :: 0 <= j < n ==> p[j] == route[j];
    ParamEndAt(route, 0, 1, n - 1);
    assert Parts(route) == [Any] + Parts(route[n..]);
    assert Parts(route)[1..] == Parts(route[n..]);
    forall k | 0 < k <= |text| ensures PartsMatch(Parts(route)[1..], text[k..]) <==> text[k..] == route[n..] {
      LiteralParts(route[n..], text[k..]);
    }
  }

  lemma EndingKept(v: string, rest: string)
    requires GoodFill(v) && (|rest| > 0 ==> rest[0] == '.') && !SourcePaths.EndsWith(PARAM + rest, MARKDOWN)
    ensures !SourcePaths.EndsWith(v + rest, MARKDOWN)
  {
    var d, f := PARAM + rest, v + rest;
    if |rest| == 0 {
      assert f == v;
    } else if |rest| >= 3 {
      assert f[|f| - 3..] == rest[|rest| - 3..] && d[|d| - 3..] == rest[|rest| - 3..];
    } else {
      assert f[|f| - |rest|] == '.';
    }
  }

  lemma SuffixKept(suffix: string, v: string, rest: string, k: nat)
    requires |suffix| > 0 && suffix[0] !in PARAM && GoodFill(v)
    requires 0 < k <= |PARAM + rest| && '/' !in (PARAM + rest)[..k] && (PARAM + rest)[k..] == suffix
    ensures exists j :: 0 < j <= |v + rest| && '/' !in (v + rest)[..j] && (v + rest)[j..] == suffix
  {
    var d, f := PARAM + rest, v + rest;
    assert d[k] == suffix[0];
    assert k >= |PARAM| by {
      assert forall i :: 0 <= i < |PARAM| ==> d[i] == PARAM[i] && PARAM[i] in PARAM;
    }
    var m := k - |PARAM|;
    assert d[k..] == rest[m..];
    var j := |v| + m;
    assert f[j..] == rest[m..];
    assert f[..j] == v + rest[..m];
    assert d[..k] == PARAM + rest[..m];
    assert '/' !in rest[..m];
  }

  /** Simple segments are stable. */
  lemma SimpleIsStable(route: string)
    requires Simple(route)
    ensures Stable(route)
  {
    forall v, rest | GoodFill(v) && PathTail(rest) && SegmentMatches(route, PARAM + rest)
      ensures SegmentMatches(route, v + rest)
    {
      SimpleMatches(route, v, rest);
    }
  }

  lemma SimpleMatches(route: string, v: string, rest: string)
    requires Simple(route) && GoodFill(v) && (|rest| > 0 ==> rest[0] == '.')
    requires SegmentMatches(route, PARAM + rest)
    ensures SegmentMatches(route, v + rest)
  {
    if IsParam(route) {
      EndingKept(v, rest);
    } else {
      assert (PARAM + rest)[0] == '{';
      var n :| 3 <= n < |route| && IsParam(route[..n]) && route[n] !in PARAM && '{' !in route[n..];
      SuffixMatches(route, n, PARAM + rest);
      SuffixMatches(route, n, v + rest);
      var k :| 0 < k <= |PARAM + rest| && '/' !in (PARAM + rest)[..k] && (PARAM + rest)[k..] == route[n..];
      SuffixKept(route[n..], v, rest, k);
    }
  }

  lemma SegmentsStable(route: seq<string>, c: seq<string>, d: seq<string>, f: seq<string>, fill: nat -> string, n: nat)
    requires forall i :: 0 <= i < |route| ==> Stable(route[i])
    requires forall i :: 0 <= i < |c| && Hole(c[i]) ==> PathTail(c[i][1..])
    requires GoodFills(fill, n) && AllFilled(c, d, (k: nat) => PARAM, n) && AllFilled(c, f, fill, n)
    requires SegmentsMatch(route, d)
    ensures SegmentsMatch(route, f)
  {
    forall i | 0 <= i < |route| ensures SegmentMatches(route[i], f[i]) {
      assert SegmentMatches(route[i], d[i]) && Filled(c[i], d[i], (k: nat) => PARAM, n) && Filled(c[i], f[i], fill, n);
      if SLOT in c[i] {
        var k: nat :| k < n && f[i] == fill(k) + c[i][1..];
        assert Stable(route[i]) && GoodFill(fill(k)) && PathTail(c[i][1..]);
      }
    }
  }

  // ----- The query and the forbidden characters -----

  /** Filling the beginning of a text gives the beginning of the filled text. */
  lemma {:induction false} FillPrefix(text: string, k: nat, fill: nat -> string) returns (tail: string)
    requires k <= |text|
    ensures Fill(text, fill) == Fill(text[..k], fill) + tail
    ensures if k == |text| then tail == "" else text[k] != SLOT ==> |tail| > 0 && tail[0] == text[k]
  {
    if k == |text| {
      assert text[..k] == text;
      tail := "";
    } else {
      var init, last := text[..|text| - 1], text[|text| - 1];
      var rest := FillPrefix(init, k, fill);
      assert init[..k] == text[..k];
      var added := if last == SLOT then fill(Count(init, SLOT)) else [last];
      tail := rest + added;
      assert Fill(text, fill) == Fill(text[..k], fill) + rest + added;
    }
  }

  lemma FindAt(a: string, tail: string, c: char)
    requires c !in a && (|tail| > 0 ==> tail[0] == c)
    ensures Upto(a + tail, c) == a
  {
    var s := a + tail;
    var k := Find(s, c);
    assert |tail| > 0 ==> s[|a|] == c;
    assert forall i :: 0 <= i < |a| ==> s[i] == a[i];
    assert k == |a|;
  }

  lemma {:induction false} FillAvoids(p: string, fill: nat -> string, c: char)
    requires c !in p && forall k :: 0 <= k < Count(p, SLOT) ==> c !in fill(k)
    ensures c !in Fill(p, fill)
  {
    if |p| > 0 {
      FillAvoids(p[..|p| - 1], fill, c);
    }
  }

  lemma {:induction false} FillKeeps(p: string, fill: nat -> string, c: char)
    requires c in p && c != SLOT
    ensures c in Fill(p, fill)
  {
    var init, last := p[..|p| - 1], p[|p| - 1];
    assert p == init + [last];
    if c in init {
      FillKeeps(init, fill, c);
    }
  }

  /** What `_route_matches` looks at of a filled path is its filled part before the query. */
  lemma FilledPath(text: string, fill: nat -> string)
    requires PathFromText(text).Path? && GoodFills(fill, Count(BeforeQuery(text), SLOT))
    ensures var p := BeforeQuery(text);
      Upto(Upto(Fill(text, fill), '?'), '#') == Fill(p, fill) && |Fill(p, fill)| > 0 && Fill(p, fill)[0] == '/'
  {
    var q, p := Find(text, '?'), BeforeQuery(text);
    FillAvoids(p, fill, '?');
    FillAvoids(p, fill, '#');
    var tail := FillPrefix(text, q, fill);
    FindAt(Fill(p, fill), tail, '?');
    FindAt(Fill(p, fill), "", '#');
    assert Fill(p, fill) + "" == Fill(p, fill);
    var after := FillPrefix(p, 1, fill);
    assert p[..1] == "/";
    assert Fill("/", fill) == "/" by {
      assert "/"[..0] == "";
      assert Fill("", fill) == "";
    }
  }

  lemma TailsAreTails(p: string, i: nat)
    requires '?' !in p && '#' !in p && '%' !in p && i < |SourcePaths.Components(p)| &&
      Hole(SourcePaths.Components(p)[i])
    ensures PathTail(SourcePaths.Components(p)[i][1..])
  {
    var seg := SourcePaths.Components(p)[i];
    SourcePaths.ComponentsJoin(p);
    assert seg in SourcePaths.Components(p);
    forall ch | ch in seg ensures ch in p && ch != '/' {
      PartIn(p, i, ch);
    }
    forall ch | ch in seg[1..] ensures ch in seg {
    }
  }

  lemma {:induction false} PartIn(p: string, i: nat, ch: char)
    requires i < |SourcePaths.Components(p)| && ch in SourcePaths.Components(p)[i]
    ensures ch in p
  {
    if |p| > 0 {
      var init := p[..|p| - 1];
      assert p == init + [p[|p| - 1]];
      if i < |SourcePaths.Components(init)| && ch in SourcePaths.Components(init)[i] {
        PartIn(init, i, ch);
      }
    }
  }

  /** If the descriptor of a folded path matches a route of stable segments, so does every path that fills its
      parameters with non-empty text free of the separators and not ending in `.md`. */
  lemma MatchIsStable(route: string, text: string, fill: nat -> string)
    requires PathFromText(text).Path?
    requires forall i :: 0 <= i < |SourcePaths.Components(route)| ==> Stable(SourcePaths.Components(route)[i])
    requires GoodFills(fill, Count(BeforeQuery(text), SLOT))
    requires RouteMatches(route, Descriptor(text))
    ensures RouteMatches(route, Fill(text, fill))
  {
    var p, params := BeforeQuery(text), (k: nat) => PARAM;
    var n := Count(p, SLOT);
    ParamIsGood();
    assert GoodFills(params, n);
    FilledPath(text, params);
    FilledPath(text, fill);
    FillSegments(p, params);
    FillSegments(p, fill);
    if '%' in p {
      FillKeeps(p, params, '%');
    }
    forall i | 0 <= i < |SourcePaths.Components(p)| && Hole(SourcePaths.Components(p)[i])
      ensures PathTail(SourcePaths.Components(p)[i][1..])
    {
      TailsAreTails(p, i);
    }
    SegmentsStable(SourcePaths.Components(route), SourcePaths.Components(p), SourcePaths.Components(Fill(p, params)),
                   SourcePaths.Components(Fill(p, fill)), fill, n);
    FillAvoids(p, fill, '%');
  }

  lemma ParamIsGood()
    ensures GoodFill(PARAM)
  {
    assert PARAM[|PARAM| - 3..] == "am}";
  }

  // ----- Unstable segments in a route -----

  lemma {:induction false} JoinComponents(parts: seq<string>)
    requires |parts| > 0 && forall i :: 0 <= i < |parts| ==> '/' !in parts[i]
    ensures SourcePaths.Components(Join("/", parts)) == parts
  {
    var init, last := parts[..|parts| - 1], parts[|parts| - 1];
    assert parts == init + [last];
    JoinAppend("/", init, last);
    if |init| == 0 {
      ComponentsAppend("", last);
      assert "" + last == last && [""][..0] + [last] == [last];
    } else {
      JoinComponents(init);
      SlashAppend(Join("/", init));
      ComponentsAppend(Join("/", init) + "/", last);
      LongerEmpty(init, last);
    }
  }

  lemma LongerEmpty(init: seq<string>, last: string)
    ensures Longer(init + [""], last) == init + [last]
  {
    assert "" + last == last;
    assert (init + [""])[..|init|] == init;
  }

  lemma {:induction false} JoinAvoids(parts: seq<string>, c: char)
    requires c != '/' && forall i :: 0 <= i < |parts| ==> c !in parts[i]
    ensures c !in Join("/", parts)
  {
    if |parts| > 0 {
      var init, last := parts[..|parts| - 1], parts[|parts| - 1];
      assert parts == init + [last];
      JoinAppend("/", init, last);
      JoinAvoids(init, c);
    }
  }

  lemma {:induction false} JoinPlaced(parts: seq<string>)
    requires |parts| > 0 && SLOT !in parts[0]
    requires forall i :: 0 <= i < |parts| ==> SLOT !in parts[i] || Hole(parts[i])
    ensures SlotsPlaced(Join("/", parts))
  {
    var init, last := parts[..|parts| - 1], parts[|parts| - 1];
    assert parts == init + [last];
    JoinAppend("/", init, last);
    if |init| > 0 {
      JoinPlaced(init);
      PlacedMore(Join("/", init), last);
    } else {
      assert Join("/", init) + "" + last == last;
    }
  }

  lemma PlacedMore(p: string, last: string)
    requires SlotsPlaced(p) && (SLOT !in last || Hole(last))
    ensures SlotsPlaced(p + "/" + last)
  {
    var s := p + "/" + last;
    forall k | 1 <= k < |last| ensures last[k] != SLOT {
      assert last[k] in last[1..] && last[k] in last;
    }
    forall i | 0 <= i < |s| && s[i] == SLOT
      ensures i > 0 && s[i - 1] == '/' && (i + 1 == |s| || s[i + 1] == '/' || s[i + 1] == '.')
    {
      if i < |p| {
        assert p[i] == SLOT;
      } else {
        assert last[i - |p| - 1] == SLOT;
      }
    }
  }

  lemma {:induction false} JoinHead(parts: seq<string>)
    requires |parts| > 1 && |parts[0]| == 0
    ensures |Join("/", parts)| > 0 && Join("/", parts)[0] == '/'
  {
    var init, last := parts[..|parts| - 1], parts[|parts| - 1];
    assert parts == init + [last];
    JoinAppend("/", init, last);
    if |init| > 1 {
      JoinHead(init);
    } else {
      assert init == [] + [parts[0]];
      JoinAppend("/", [], parts[0]);
    }
  }

  lemma {:induction false} CountPositive(s: string, i: nat, c: char)
    requires i < |s| && s[i] == c
    ensures Count(s, c) > 0
  {
    if i < |s| - 1 {
      CountPositive(s[..|s| - 1], i, c);
    }
  }

  /** A segment of a request without anything special. */
  predicate Word(w: string) {
    forall c :: c in w ==> c != '/' && c != '?' && c != '#' && c != '%' && c != SLOT
  }

  /** Words for all segments but `j`, which is a slot and `rest`. */
  predicate Pattern(words: seq<string>, j: nat, rest: string) {
    && 0 < j < |words| && |words[0]| == 0 && PathTail(rest) && words[j] == [SLOT] + rest
    && forall i :: 0 <= i < |words| && i != j ==> Word(words[i])
  }

  lemma PatternAvoids(words: seq<string>, j: nat, rest: string, c: char)
    requires Pattern(words, j, rest) && c in {'?', '#', '%'}
    ensures c !in Join("/", words)
  {
    forall i | 0 <= i < |words| ensures c !in words[i] {
      if i != j {
        assert Word(words[i]);
      }
    }
    JoinAvoids(words, c);
  }

  lemma PatternSlots(words: seq<string>, j: nat, rest: string)
    requires Pattern(words, j, rest)
    ensures SlotsPlaced(Join("/", words)) && Count(Join("/", words), SLOT) > 0 && SLOT in Join("/", words)
  {
    forall i | 0 <= i < |words| ensures SLOT !in words[i] || Hole(words[i]) {
      if i == j {
        HoleOf(words[j], rest);
      } else {
        assert Word(words[i]);
      }
    }
    JoinPlaced(words);
    var before, after := JoinContains("/", words, j);
    assert Join("/", words)[|before|] == SLOT;
    CountPositive(Join("/", words), |before|, SLOT);
  }

  lemma HoleOf(segment: string, rest: string)
    requires PathTail(rest) && segment == [SLOT] + rest
    ensures Hole(segment) && segment[0] == SLOT && segment[1..] == rest
  {
  }

  lemma PatternComponents(words: seq<string>, j: nat, rest: string)
    requires Pattern(words, j, rest)
    ensures SourcePaths.Components(Join("/", words)) == words
  {
    forall i | 0 <= i < |words| ensures '/' !in words[i] {
      if i != j {
        assert Word(words[i]);
      }
    }
    JoinComponents(words);
  }

  lemma PatternText(words: seq<string>, j: nat, rest: string)
    requires Pattern(words, j, rest)
    ensures var text := Join("/", words);
      PathFromText(text).Path? && BeforeQuery(text) == text && '%' !in text && SourcePaths.Components(text) == words
  {
    var text := Join("/", words);
    PatternComponents(words, j, rest);
    PatternAvoids(words, j, rest, '?');
    PatternAvoids(words, j, rest, '#');
    PatternAvoids(words, j, rest, '%');
    PatternSlots(words, j, rest);
    JoinHead(words);
    assert Find(text, '?') == |text| && text[..|text|] == text;
  }

  /** What the route is matched against when the slot is filled with `x`. */
  lemma PatternFilled(words: seq<string>, j: nat, rest: string, x: string)
    requires Pattern(words, j, rest) && GoodFill(x)
    ensures var path := Fill(Join("/", words), (k: nat) => x);
      && Upto(Upto(path, '?'), '#') == path && |path| > 0 && path[0] == '/' && '%' !in path
      && SourcePaths.Components(path) == words[j := x + rest]
  {
    var text, fill := Join("/", words), (k: nat) => x;
    PatternText(words, j, rest);
    FilledPath(text, fill);
    FillAvoids(text, fill, '%');
    PathFromTextLegal(text);
    FillSegments(text, fill);
    FilledWords(words, j, rest, x, fill, SourcePaths.Components(Fill(text, fill)), Count(text, SLOT));
  }

  lemma FilledWords(words: seq<string>, j: nat, rest: string, x: string, fill: nat -> string, f: seq<string>, n: nat)
    requires Pattern(words, j, rest) && AllFilled(words, f, fill, n) && forall k :: fill(k) == x
    ensures f == words[j := x + rest]
  {
    HoleOf(words[j], rest);
    forall i | 0 <= i < |words| ensures f[i] == words[j := x + rest][i] {
      assert Filled(words[i], f[i], fill, n);
      if i != j {
        assert Word(words[i]);
      }
    }
  }

  lemma PatternMatches(route: string, words: seq<string>, j: nat, rest: string, x: string)
    requires Pattern(words, j, rest) && GoodFill(x) && |SourcePaths.Components(route)| == |words|
    requires forall i :: 0 <= i < |words| && i != j ==> SegmentMatches(SourcePaths.Components(route)[i], words[i])
    ensures RouteMatches(route, Fill(Join("/", words), (k: nat) => x)) <==>
            SegmentMatches(SourcePaths.Components(route)[j], x + rest)
  {
    PatternFilled(words, j, rest, x);
    var more := words[j := x + rest];
    assert more[j] == x + rest;
    assert forall i :: 0 <= i < |words| && i != j ==> more[i] == words[i];
  }

  /** One unstable segment is enough, if words match the others: the descriptor matches and the filling does not. */
  lemma UnstableSegment(route: string, words: seq<string>, j: nat, v: string, rest: string)
    requires Pattern(words, j, rest) && GoodFill(v) && |SourcePaths.Components(route)| == |words|
    requires forall i :: 0 <= i < |words| && i != j ==> SegmentMatches(SourcePaths.Components(route)[i], words[i])
    requires var segment := SourcePaths.Components(route)[j];
      SegmentMatches(segment, PARAM + rest) && !SegmentMatches(segment, v + rest)
    ensures var text := Join("/", words);
      && PathFromText(text).Path? && RouteMatches(route, Descriptor(text))
      && !RouteMatches(route, Fill(text, (k: nat) => v))
  {
    ParamIsGood();
    PatternText(words, j, rest);
    PatternMatches(route, words, j, rest, PARAM);
    PatternMatches(route, words, j, rest, v);
  }

  ghost predicate RouteStable(route: string) {
    forall text, fill: nat -> string :: PathFromText(text).Path? && AlwaysGood(fill) ==> KeepsMatch(route, text, fill)
  }

  ghost predicate AlwaysGood(fill: nat -> string) {
    forall k :: GoodFill(fill(k))
  }

  ghost predicate KeepsMatch(route: string, text: string, fill: nat -> string) {
    RouteMatches(route, Descriptor(text)) ==> RouteMatches(route, Fill(text, fill))
  }

  /** Each segment of the route matches some word, and the route begins with a slash. */
  ghost predicate Met(route: string, words: seq<string>) {
    && |words| == |SourcePaths.Components(route)| && |SourcePaths.Components(route)[0]| == 0 && |words[0]| == 0
    && forall i :: 0 <= i < |words| ==> Word(words[i]) && SegmentMatches(SourcePaths.Components(route)[i], words[i])
  }

  ghost predicate StableSegments(route: string) {
    forall i :: 0 <= i < |SourcePaths.Components(route)| ==> Stable(SourcePaths.Components(route)[i])
  }

  lemma StableRoute(route: string)
    requires StableSegments(route)
    ensures RouteStable(route)
  {
    forall text, fill: nat -> string | PathFromText(text).Path? && AlwaysGood(fill)
      ensures KeepsMatch(route, text, fill)
    {
      if RouteMatches(route, Descriptor(text)) {
        MatchIsStable(route, text, fill);
      }
    }
  }

  lemma UnstableRoute(route: string, words: seq<string>)
    requires Met(route, words) && !StableSegments(route)
    ensures !RouteStable(route)
  {
    var segments := SourcePaths.Components(route);
    var j :| 0 <= j < |segments| && !Stable(segments[j]);
    SimpleIsStable(segments[0]);
    var v, rest :| GoodFill(v) && PathTail(rest) && SegmentMatches(segments[j], PARAM + rest) &&
      !SegmentMatches(segments[j], v + rest);
    WordsPattern(route, words, j, rest);
    UnstableSegment(route, words[j := [SLOT] + rest], j, v, rest);
    NotKept(route, Join("/", words[j := [SLOT] + rest]), v);
  }

  lemma WordsPattern(route: string, words: seq<string>, j: nat, rest: string)
    requires Met(route, words) && 0 < j < |words| && PathTail(rest)
    ensures var pattern := words[j := [SLOT] + rest];
      && Pattern(pattern, j, rest) && |pattern| == |SourcePaths.Components(route)|
      && forall i :: 0 <= i < |pattern| && i != j ==> SegmentMatches(SourcePaths.Components(route)[i], pattern[i])
  {
    var pattern := words[j := [SLOT] + rest];
    assert pattern[j] == [SLOT] + rest && forall i :: 0 <= i < |words| && i != j ==> pattern[i] == words[i];
  }

  lemma NotKept(route: string, text: string, v: string)
    requires PathFromText(text).Path? && GoodFill(v)
    requires RouteMatches(route, Descriptor(text)) && !RouteMatches(route, Fill(text, (k: nat) => v))
    ensures !RouteStable(route)
  {
    var fill := (k: nat) => v;
    assert AlwaysGood(fill) && !KeepsMatch(route, text, fill);
  }

  /** For a route whose segments words can match, matching is stable exactly when every segment is. */
  lemma RouteStableExactly(route: string, words: seq<string>)
    requires Met(route, words)
    ensures RouteStable(route) <==> StableSegments(route)
  {
    if StableSegments(route) {
      StableRoute(route);
    } else {
      UnstableRoute(route, words);
    }
  }

  /** A route and a path of one segment. */
  lemma OneSegment(route: string, request: string)
    requires '/' !in route && forall c :: c in request ==> c != '/' && c != '?' && c != '#' && c != '%'
    ensures RouteMatches("/" + route, "/" + request) <==> SegmentMatches(route, request)
  {
    var path := "/" + request;
    RootComponents(route);
    RootComponents(request);
    FindAt(path, "", '?');
    FindAt(path, "", '#');
    assert path + "" == path;
    assert SegmentMatches("", "");
    var r, q := ["", route], ["", request];
    assert SegmentsMatch(r, q) <==> SegmentMatches(r[1], q[1]);
  }

  lemma RootComponents(s: string)
    requires '/' !in s
    ensures SourcePaths.Components("/" + s) == ["", s]
  {
    SlashAppend("");
    assert "" + "/" == "/" && SourcePaths.Components("") == [""];
    var c := SourcePaths.Components("/");
    assert c == ["", ""];
    ComponentsAppend("/", s);
    assert c[..1] == [""] && "" + s == s;
  }

  /** `/`, a slot, and what follows it */
  function Slotted(rest: string): string {
    "/" + [SLOT] + rest
  }

  lemma FillSnoc(a: string, ch: char, fill: nat -> string)
    ensures Fill(a + [ch], fill) == Fill(a, fill) + if ch == SLOT then fill(Count(a, SLOT)) else [ch]
  {
    assert (a + [ch])[..|a|] == a;
  }

  lemma {:induction false} FillPlain(a: string, rest: string, fill: nat -> string)
    requires SLOT !in rest
    ensures Fill(a + rest, fill) == Fill(a, fill) + rest
  {
    if |rest| == 0 {
      assert a + rest == a;
    } else {
      var init, last := rest[..|rest| - 1], rest[|rest| - 1];
      FillPlain(a, init, fill);
      FillSnoc(a + init, last, fill);
      assert rest == init + [last] && a + rest == (a + init) + [last];
    }
  }

  lemma {:induction false} NothingFilled(s: string, fill: nat -> string)
    requires SLOT !in s
    ensures Fill(s, fill) == s
  {
    if |s| > 0 {
      var init, last := s[..|s| - 1], s[|s| - 1];
      NothingFilled(init, fill);
      assert s == init + [last];
    }
  }

  lemma {:induction false} NoneCounted(s: string)
    requires SLOT !in s
    ensures Count(s, SLOT) == 0
  {
    if |s| > 0 {
      NoneCounted(s[..|s| - 1]);
    }
  }

  lemma SlotAfter(slash: string, fill: nat -> string)
    requires SLOT !in slash
    ensures Fill(slash + [SLOT], fill) == slash + fill(0)
  {
    NoneCounted(slash);
    NothingFilled(slash, fill);
    FillSnoc(slash, SLOT, fill);
  }

  lemma Regrouped(a: string, b: string, c: string)
    ensures (a + b) + c == a + (b + c)
  {
  }

  lemma SlotBetween(slash: string, rest: string, fill: nat -> string)
    requires SLOT !in slash && SLOT !in rest
    ensures Fill(slash + [SLOT] + rest, fill) == slash + (fill(0) + rest)
  {
    SlotAfter(slash, fill);
    FillPlain(slash + [SLOT], rest, fill);
    Regrouped(slash, fill(0), rest);
  }

  lemma OneSlot(rest: string, fill: nat -> string)
    requires PathTail(rest)
    ensures Fill(Slotted(rest), fill) == "/" + (fill(0) + rest)
  {
    SlotBetween("/", rest, fill);
  }

  lemma SlottedPath(rest: string)
    requires PathTail(rest)
    ensures PathFromText(Slotted(rest)).Path?
  {
    var text, slot := Slotted(rest), "/" + [SLOT];
    assert forall i :: 0 <= i < |text| ==> text[i] == if i < 2 then slot[i] else rest[i - 2];
    assert '?' !in text && '#' !in text;
    assert Find(text, '?') == |text| && text[..|text|] == text;
    CountConcat(slot, rest, SLOT);
    assert slot[..1] == "/" && "/"[..0] == "";
    assert Count("/", SLOT) == 0 && Count(slot, SLOT) == 1;
    forall i | 2 <= i < |text| ensures text[i] != SLOT {
      assert rest[i - 2] in rest;
    }
    forall i | 0 <= i < |text| && text[i] == SLOT
      ensures i > 0 && text[i - 1] == '/' && (i + 1 == |text| || text[i + 1] == '/' || text[i + 1] == '.')
    {
      assert i == 1;
      assert |rest| > 0 ==> text[2] == rest[0];
    }
  }

  /** On a route of one segment, matching is stable exactly when the segment is. */
  lemma OneSegmentExactly(segment: string)
    requires '/' !in segment
    ensures Stable(segment) <==>
      forall rest: string, fill: nat -> string :: PathTail(rest) && GoodFill(fill(0)) ==> Keeps(segment, rest, fill)
  {
    if Stable(segment) {
      forall rest: string, fill: nat -> string | PathTail(rest) && GoodFill(fill(0))
        ensures Keeps(segment, rest, fill) {
        StableReaches(segment, rest, fill);
      }
    } else {
      var v, rest :| GoodFill(v) && PathTail(rest) && SegmentMatches(segment, PARAM + rest) &&
        !SegmentMatches(segment, v + rest);
      UnstableReaches(segment, v, rest, (k: nat) => v);
    }
  }

  /** On the path `/` with a slot and `rest`, which the analyser can fold: if the route matches the descriptor, it
      matches the filled path. */
  ghost predicate Keeps(segment: string, rest: string, fill: nat -> string) {
    && PathFromText(Slotted(rest)).Path?
    && (RouteMatches("/" + segment, Descriptor(Slotted(rest))) ==>
        RouteMatches("/" + segment, Fill(Slotted(rest), fill)))
  }

  lemma StableReaches(segment: string, rest: string, fill: nat -> string)
    requires '/' !in segment && Stable(segment) && PathTail(rest) && GoodFill(fill(0))
    ensures Keeps(segment, rest, fill)
  {
    ParamIsGood();
    SlottedPath(rest);
    Reaches(segment, rest, fill);
    Reaches(segment, rest, (k: nat) => PARAM);
  }

  lemma UnstableReaches(segment: string, v: string, rest: string, fill: nat -> string)
    requires '/' !in segment && GoodFill(v) && PathTail(rest) && fill(0) == v
    requires SegmentMatches(segment, PARAM + rest) && !SegmentMatches(segment, v + rest)
    ensures !Keeps(segment, rest, fill)
  {
    ParamIsGood();
    Reaches(segment, rest, fill);
    Reaches(segment, rest, (k: nat) => PARAM);
  }

  lemma Reaches(segment: string, rest: string, fill: nat -> string)
    requires '/' !in segment && PathTail(rest) && GoodFill(fill(0))
    ensures RouteMatches("/" + segment, Fill(Slotted(rest), fill)) <==> SegmentMatches(segment, fill(0) + rest)
  {
    OneSlot(rest, fill);
    OneSegment(segment, fill(0) + rest);
  }

  // ----- Segments that are not stable -----

  const INNER := "{a}m{b}"
  const TWICE := "{a}{b}"

  lemma InnerParts()
    ensures Parts(INNER) == [Any, Char('m'), Any] && !IsParam(INNER)
  {
    ParamEndAt(INNER, 0, 1, 2);
    assert INNER[3..] == "m{b}" && "m{b}"[1..] == "{b}" && "{b}"[3..] == "";
    ParamEndAt("{b}", 0, 1, 2);
    assert Parts("") == [];
    assert Parts("{b}") == [Any] + Parts("");
    assert Parts("m{b}") == [Char('m')] + Parts("{b}");
    assert INNER[2] == '}' && !NameChar(INNER[2]);
  }

  lemma TwiceParts()
    ensures Parts(TWICE) == [Any, Any] && !IsParam(TWICE)
  {
    ParamEndAt(TWICE, 0, 1, 2);
    assert TWICE[3..] == "{b}" && "{b}"[3..] == "";
    ParamEndAt("{b}", 0, 1, 2);
    assert Parts("") == [];
    assert Parts("{b}") == [Any] + Parts("");
    assert TWICE[2] == '}' && !NameChar(TWICE[2]);
  }

  lemma AnyMatches(text: string)
    requires |text| > 0 && '/' !in text
    ensures PartsMatch([Any], text)
  {
    assert [Any][1..] == [] && text[..|text|] == text;
    assert PartsMatch([Any][1..], text[|text|..]);
  }

  /** `{a}m{b}` is not stable: the placeholder's own name contains the literal between the parameters. */
  lemma InnerUnstable(parts: seq<Part>, request: string, one: string)
    requires parts == [Any, Char('m'), Any] && request == PARAM && |one| == 1 && one[0] != '/'
    ensures PartsMatch(parts, request) && !PartsMatch(parts, one)
  {
    assert parts[1..] == [Char('m'), Any] && parts[1..][1..] == [Any];
    var rest := request[5..];
    assert rest == "m}" && rest[1..] == "}";
    AnyMatches(rest[1..]);
    assert PartsMatch(parts[1..], rest);
    assert '/' !in request[..5];
    forall k | 0 < k <= |one| ensures !PartsMatch(parts[1..], one[k..]) {
    }
  }

  /** `{a}{b}` is not stable: it needs two characters, and a filling may have one. */
  lemma TwiceUnstable(parts: seq<Part>, request: string, one: string)
    requires parts == [Any, Any] && |request| > 1 && '/' !in request && |one| == 1
    ensures PartsMatch(parts, request) && !PartsMatch(parts, one)
  {
    assert parts[1..] == [Any];
    AnyMatches(request[1..]);
    assert '/' !in request[..1];
    forall k | 0 < k <= |one| ensures !PartsMatch(parts[1..], one[k..]) {
      assert |one[k..]| == 0;
    }
  }

  /** Two parameters in a segment, next to each other or around a part of the placeholder, are too many. */
  lemma TwoParametersUnstable(segment: string)
    requires segment == INNER || segment == TWICE
    ensures !Stable(segment)
  {
    StableExactly(segment);
    var none := "";
    assert PathTail(none) && PARAM + none == PARAM && PROBE + none == PROBE;
    if segment == INNER {
      InnerParts();
      InnerUnstable(Parts(segment), PARAM, PROBE);
    } else {
      TwiceParts();
      TwiceUnstable(Parts(segment), PARAM, PROBE);
    }
    assert SegmentMatches(segment, PARAM + none) && !SegmentMatches(segment, PROBE + none);
  }
}
