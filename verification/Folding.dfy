/** Constant folding with holes: `_literal` and the path values of the source-witness analyser. */
module Folding {
  import opened PyAst
  import opened PySemantics

  const MAX_STATIC_VALUES := 16

  /** `_PATH_SLOT`: a place in a path where any text may stand. */
  const SLOT: char := '\0'

  /** What the analyser knows of a variable. `Event` is a request, by its index in the request list. */
  datatype Value =
    | Known(lit: Lit)
    | Path(text: string, slots: nat)
    | Json(binding: string)
    | Values(items: seq<Value>)
    | Event(request: nat)
    | Dynamic
    | Unknown

  type Table = map<string, Value>

  function Lookup(values: Table, id: string): Value {
    if id in values then values[id] else Unknown
  }

  function Count(s: string, c: char): nat {
    if |s| == 0 then 0 else Count(s[..|s| - 1], c) + if s[|s| - 1] == c then 1 else 0
  }

  function Find(s: string, c: char): (k: nat)
    ensures k <= |s| && (forall i :: 0 <= i < k ==> s[i] != c) && (k < |s| ==> s[k] == c)
  {
    if |s| == 0 || s[0] == c then 0 else 1 + Find(s[1..], c)
  }

  /** Slots start a segment and are followed by the end, a slash or a dot. */
  predicate SlotsPlaced(path: string) {
    forall i :: 0 <= i < |path| && path[i] == SLOT ==>
      i > 0 && path[i - 1] == '/' && (i + 1 == |path| || path[i + 1] == '/' || path[i + 1] == '.')
  }

  /** The part of a URL before its query. */
  function BeforeQuery(text: string): string {
    text[..Find(text, '?')]
  }

  /** `_path_from_text` */
  function PathFromText(text: string): Value {
    if |text| == 0 || text[0] != '/' || '#' in text || SLOT !in text then Unknown
    else
      var q := Find(text, '?');
      var pathSlots := Count(text[..q], SLOT);
      var querySlots := if q == |text| then 0 else Count(text[q + 1..], SLOT);
      if pathSlots == 0 && querySlots == 0 then Unknown
      else if !SlotsPlaced(text[..q]) then Unknown
      else Path(text, pathSlots + querySlots)
  }

  /** `_join_path_values` */
  function JoinPathValues(left: Value, right: Value): Value {
    match (left, right)
    case (Known(Str(s)), Path(t, _)) => PathFromText(s + t)
    case (Path(s, _), Known(Str(t))) => PathFromText(s + t)
    case (Path(s, _), Path(t, _)) => PathFromText(s + t)
    case _ => Unknown
  }

  /** `_concat_path_parts` */
  function ConcatPathParts(left: Value, right: Value): Value {
    match (left, right)
    case (Known(Str(s)), Known(Str(t))) => Known(Str(s + t))
    case (Known(Str(s)), Path(t, n)) => Path(s + t, n)
    case (Path(s, n), Known(Str(t))) => Path(s + t, n)
    case (Path(s, m), Path(t, n)) => Path(s + t, m + n)
    case _ => Unknown
  }

  predicate IsText(v: Value) {
    v.Path? || (v.Known? && v.lit.Str?)
  }

  /** `_literal` */
  function Literal(e: Expr, values: Table): Value
    decreases e, 2
  {
    match e
    case Const(lit) => Known(lit)
    case Name(id) => Lookup(values, id)
    case Call(func, args, keywords) =>
      if IsJsonCall(e) && func.base.Name? && Lookup(values, func.base.id).Event?
      then Json(func.base.id)
      else Unknown
    case Sub(base, index) =>
      var container, key := Literal(base, values), Literal(index, values);
      if container.Json? && key.Known? && !key.lit.NoneLit? then container else Unknown
    case Add(left, right) =>
      var l, r := Literal(left, values), Literal(right, values);
      if l.Known? && l.lit.Str? && r.Known? && r.lit.Str? then Known(Str(l.lit.s + r.lit.s))
      else if l.Values? && r.Values? then Values(l.items + r.items)
      else JoinPathValues(l, r)
    case FString(pieces) =>
      var folded := FoldPieces(pieces, values);
      if folded.Path? then PathFromText(folded.text) else folded
    case Tuple(elts) =>
      if |elts| > MAX_STATIC_VALUES then Unknown else FoldItems(elts, values)
    case _ => Unknown
  }

  function PieceValue(piece: Piece, values: Table): Value
    decreases piece, 0
  {
    match piece
    case Chars(s) => Known(Str(s))
    case Field(value, plain) =>
      if !plain then Unknown
      else
        var v := Literal(value, values);
        if IsText(v) then v
        else if v.Json? || (v.Unknown? && value.Name? && value.id !in values) then Path([SLOT], 1)
        else Unknown
  }

  function FoldPieces(pieces: seq<Piece>, values: Table): (v: Value)
    ensures IsText(v) || v.Unknown?
    decreases pieces, 1
  {
    if |pieces| == 0 then Known(Str(""))
    else
      var left := FoldPieces(pieces[..|pieces| - 1], values);
      var right := PieceValue(pieces[|pieces| - 1], values);
      if left.Unknown? || right.Unknown? then Unknown else ConcatPathParts(left, right)
  }

  function FoldItems(elts: seq<Expr>, values: Table): (v: Value)
    ensures v.Unknown? || (v.Values? && |v.items| == |elts|)
    decreases elts, 1
  {
    if |elts| == 0 then Values([])
    else
      var init := FoldItems(elts[..|elts| - 1], values);
      var last := Literal(elts[|elts| - 1], values);
      if init.Unknown? || last.Unknown? then Unknown else Values(init.items + [last])
  }

  // ----- What a folded value covers -----

  /** `actual` is `pattern` with each slot replaced by some text. */
  ghost predicate CoversText(pattern: string, actual: string)
    decreases |pattern|
  {
    if |pattern| == 0 then |actual| == 0
    else if pattern[0] == SLOT then exists k :: 0 <= k <= |actual| && CoversText(pattern[1..], actual[k..])
    else |actual| > 0 && actual[0] == pattern[0] && CoversText(pattern[1..], actual[1..])
  }

  /** `returned` gives the objects that the recorded requests returned. */
  ghost predicate Covers(value: Value, v: Val, returned: map<nat, Val>) {
    match value
    case Known(lit) => v == VLit(lit)
    case Path(text, _) => v.VLit? && v.lit.Str? && CoversText(text, v.lit.s)
    case Values(items) => v.VTuple? && |v.items| == |items| && forall i :: 0 <= i < |items| ==>
      Covers(items[i], v.items[i], returned)
    case Event(request) => request in returned && v == returned[request]
    case Json(_) => true
    case Dynamic => true
    case Unknown => true
  }

  /** Each table entry covers its variable; a variable that may be unbound is known to be dynamic. */
  ghost predicate TableCovers(values: Table, env: Env, returned: map<nat, Val>) {
    forall id :: id in values ==> if id in env then Covers(values[id], env[id], returned) else values[id] == Dynamic
  }

  lemma {:induction false} CoversSelf(s: string)
    ensures CoversText(s, s)
  {
    if |s| > 0 {
      CoversSelf(s[1..]);
      if s[0] == SLOT {
        assert CoversText(s[1..], s[1..]);
      }
    }
  }

  lemma {:induction false} CoversConcat(p: string, q: string, a: string, b: string)
    requires CoversText(p, a) && CoversText(q, b)
    ensures CoversText(p + q, a + b)
    decreases |p|
  {
    var pq, ab := p + q, a + b;
    if |p| == 0 {
      assert pq == q && ab == b;
    } else {
      assert pq[0] == p[0] && pq[1..] == p[1..] + q;
      if p[0] == SLOT {
        var k :| 0 <= k <= |a| && CoversText(p[1..], a[k..]);
        CoversConcat(p[1..], q, a[k..], b);
        assert ab[k..] == a[k..] + b;
        assert CoversText(pq[1..], ab[k..]);
      } else {
        CoversConcat(p[1..], q, a[1..], b);
        assert ab[0] == a[0] && ab[1..] == a[1..] + b;
      }
    }
  }

  lemma SlotCovers(s: string)
    ensures CoversText([SLOT], s)
  {
    assert [SLOT][1..] == "" && s[|s|..] == "";
    assert CoversText([SLOT][1..], s[|s|..]);
  }

  /** A text value covers `s`. */
  ghost predicate CoversString(v: Value, s: string) {
    match v
    case Known(Str(t)) => s == t
    case Path(t, _) => CoversText(t, s)
    case _ => true
  }

  lemma ConcatCovers(left: Value, right: Value, s: string, t: string)
    requires IsText(left) && IsText(right) && CoversString(left, s) && CoversString(right, t)
    ensures CoversString(ConcatPathParts(left, right), s + t)
    ensures CoversString(JoinPathValues(left, right), s + t)
  {
    CoversSelf(s);
    CoversSelf(t);
    CoversConcat(if left.Path? then left.text else s, if right.Path? then right.text else t, s, t);
  }

  /** Every path value that folding produces is a legal request path with holes. */
  ghost predicate LegalPath(v: Value) {
    v.Path? ==>
      && |v.text| > 0 && v.text[0] == '/' && '#' !in v.text
      && SlotsPlaced(BeforeQuery(v.text))
      && v.slots == Count(v.text, SLOT) > 0
  }

  lemma {:induction false} CountConcat(s: string, t: string, c: char)
    ensures Count(s + t, c) == Count(s, c) + Count(t, c)
  {
    if |t| == 0 {
      assert s + t == s;
    } else {
      assert (s + t)[..|s + t| - 1] == s + t[..|t| - 1];
      CountConcat(s, t[..|t| - 1], c);
    }
  }

  lemma PathFromTextLegal(text: string)
    ensures LegalPath(PathFromText(text))
  {
    var q := Find(text, '?');
    if PathFromText(text).Path? && q < |text| {
      assert text == text[..q] + [text[q]] + text[q + 1..];
      CountConcat(text[..q] + [text[q]], text[q + 1..], SLOT);
      CountConcat(text[..q], [text[q]], SLOT);
      assert [text[q]][..0] == "";
    } else {
      assert text[..|text|] == text;
    }
  }

  ghost predicate LegalValue(v: Value) {
    LegalPath(v) && (v.Values? ==> forall i :: 0 <= i < |v.items| ==> LegalValue(v.items[i]))
  }

  ghost predicate LegalTable(values: Table) {
    forall id :: id in values ==> LegalValue(values[id])
  }

  lemma {:induction false} LiteralLegal(e: Expr, values: Table)
    requires LegalTable(values)
    ensures LegalValue(Literal(e, values))
    decreases e, 1
  {
    match e
    case Sub(base, index) => LiteralLegal(base, values);
    case Add(left, right) =>
      LiteralLegal(left, values);
      LiteralLegal(right, values);
      var l, r := Literal(left, values), Literal(right, values);
      if IsText(l) && IsText(r) {
        PathFromTextLegal((if l.Path? then l.text else l.lit.s) + (if r.Path? then r.text else r.lit.s));
      }
    case FString(pieces) => PathFromTextLegal(if FoldPieces(pieces, values).Path? then FoldPieces(pieces, values).text
      else "");
    case Tuple(elts) => ItemsLegal(elts, values);
    case _ =>
  }

  lemma {:induction false} ItemsLegal(elts: seq<Expr>, values: Table)
    requires LegalTable(values)
    ensures LegalValue(FoldItems(elts, values))
    decreases elts, 0
  {
    if |elts| > 0 {
      ItemsLegal(elts[..|elts| - 1], values);
      LiteralLegal(elts[|elts| - 1], values);
    }
  }

  /** Folding is sound: a known result covers whatever the expression evaluates to. */
  lemma {:induction false} LiteralSound(e: Expr, values: Table, env: Env, issued: set<nat>, w: Setting,
                                        returned: map<nat, Val>,
                                        v: Val)
    requires TableCovers(values, env, returned) && Evaluates(e, env, issued, w, v)
    ensures Covers(Literal(e, values), v, returned)
    decreases e, 2
  {
    match e
    case Add(_, _) => AddSound(e, values, env, issued, w, returned, v);
    case FString(_) => FStringSound(e, values, env, issued, w, returned, v);
    case Tuple(_) => TupleSound(e, values, env, issued, w, returned, v);
    case _ =>
  }

  lemma {:induction false} AddSound(e: Expr, values: Table, env: Env, issued: set<nat>, w: Setting,
                                    returned: map<nat, Val>, v: Val)
    requires e.Add? && TableCovers(values, env, returned) && Evaluates(e, env, issued, w, v)
    ensures Covers(Literal(e, values), v, returned)
    decreases e, 1
  {
    var vl, vr :| Evaluates(e.left, env, issued, w, vl) && Evaluates(e.right, env, issued, w, vr) &&
      AddsTo(vl, vr, v, issued);
    LiteralSound(e.left, values, env, issued, w, returned, vl);
    LiteralSound(e.right, values, env, issued, w, returned, vr);
    var l, r := Literal(e.left, values), Literal(e.right, values);
    if IsText(l) && IsText(r) {
      ConcatCovers(l, r, vl.lit.s, vr.lit.s);
    }
  }

  lemma {:induction false} FStringSound(e: Expr, values: Table, env: Env, issued: set<nat>, w: Setting,
                                        returned: map<nat, Val>,
                                        v: Val)
    requires e.FString? && TableCovers(values, env, returned) && Evaluates(e, env, issued, w, v)
    ensures Covers(Literal(e, values), v, returned)
    decreases e, 1
  {
    var parts: seq<string> :|
      && |parts| == |e.pieces| && v == VLit(Str(Concat(parts)))
      && forall i :: 0 <= i < |e.pieces| ==> PieceReads(e.pieces[i], env, issued, w, parts[i]);
    forall i | 0 <= i < |e.pieces| ensures CoversString(PieceValue(e.pieces[i], values), parts[i]) {
      PieceSound(e.pieces[i], values, env, issued, w, returned, parts[i]);
    }
    PiecesSound(e.pieces, values, parts);
  }

  lemma {:induction false} TupleSound(e: Expr, values: Table, env: Env, issued: set<nat>, w: Setting,
                                      returned: map<nat, Val>,
                                      v: Val)
    requires e.Tuple? && TableCovers(values, env, returned) && Evaluates(e, env, issued, w, v)
    ensures Covers(Literal(e, values), v, returned)
    decreases e, 1
  {
    if |e.elts| <= MAX_STATIC_VALUES {
      forall i | 0 <= i < |e.elts| ensures Covers(Literal(e.elts[i], values), v.items[i], returned) {
        LiteralSound(e.elts[i], values, env, issued, w, returned, v.items[i]);
      }
      ItemsSound(e.elts, values, v.items, returned);
      assert v == VTuple(v.items);
    }
  }

  lemma {:induction false} PieceSound(piece: Piece, values: Table, env: Env, issued: set<nat>, w: Setting,
                                      returned: map<nat, Val>,
                                      part: string)
    requires TableCovers(values, env, returned) && PieceReads(piece, env, issued, w, part)
    ensures CoversString(PieceValue(piece, values), part)
    decreases piece, 0
  {
    match piece
    case Chars(_) =>
    case Field(value, plain) =>
      var u :| Evaluates(value, env, issued, w, u) && (plain && u.VLit? && u.lit.Str? ==> part == u.lit.s);
      LiteralSound(value, values, env, issued, w, returned, u);
      SlotCovers(part);
  }

  lemma {:induction false} PiecesSound(pieces: seq<Piece>, values: Table, parts: seq<string>)
    requires |parts| == |pieces|
    requires forall i :: 0 <= i < |pieces| ==> CoversString(PieceValue(pieces[i], values), parts[i])
    ensures CoversString(FoldPieces(pieces, values), Concat(parts))
  {
    var n := |pieces|;
    if n > 0 {
      PiecesSound(pieces[..n - 1], values, parts[..n - 1]);
      var left, right := FoldPieces(pieces[..n - 1], values), PieceValue(pieces[n - 1], values);
      if !left.Unknown? && !right.Unknown? {
        ConcatCovers(left, right, Concat(parts[..n - 1]), parts[n - 1]);
      }
    }
  }

  lemma {:induction false} ItemsSound(elts: seq<Expr>, values: Table, vs: seq<Val>, returned: map<nat, Val>)
    requires |vs| == |elts|
    requires forall i :: 0 <= i < |elts| ==> Covers(Literal(elts[i], values), vs[i], returned)
    ensures Covers(FoldItems(elts, values), VTuple(vs), returned)
  {
    var n := |elts|;
    if n > 0 {
      ItemsSound(elts[..n - 1], values, vs[..n - 1], returned);
      var init, last := FoldItems(elts[..n - 1], values), Literal(elts[n - 1], values);
      if !init.Unknown? && !last.Unknown? {
        forall i | 0 <= i < n ensures Covers((init.items + [last])[i], vs[i], returned) {
          if i < n - 1 {
            assert Covers(init.items[i], vs[..n - 1][i], returned);
          }
        }
      }
    }
  }
}
