/** What Python expressions may evaluate to. Everything the language leaves open (attribute loads,
    calls, `str()` of an object) is left open here, except for where an object can come from: the
    objects in `issued` only reach a value through the operands that the rules below name. A function
    reads the variables it mentions when it runs, so its value holds the variables and not what is in them.
    An attribute may hold whatever its object holds, as a bound method does, unless its name is in `inert`:
    of those it is assumed that they give plain data, such as a status code or a text. */
module PySemantics {
  import opened PyAst

  /** A function has the variables that it mentions and the values of its defaults. */
  datatype Val = VLit(lit: Lit) | VTuple(items: seq<Val>) | VObj(id: nat) | VFun(names: set<string>, held: seq<Val>)

  type Env = map<string, Val>

  /** The attributes that give plain data, and the names each function in scope mentions. */
  datatype Setting = Setting(inert: set<string>, functions: map<string, set<string>>)

  /** The objects that a value is or holds. */
  function Objs(v: Val): set<nat> {
    match v
    case VLit(_) => {}
    case VTuple(items) => set i, o | 0 <= i < |items| && o in Objs(items[i]) :: o
    case VObj(id) => {id}
    case VFun(_, held) => set i, o | 0 <= i < |held| && o in Objs(held[i]) :: o
  }

  /** The variables that the functions in a value read. */
  function Captures(v: Val): set<string> {
    match v
    case VLit(_) => {}
    case VTuple(items) => set i, n | 0 <= i < |items| && n in Captures(items[i]) :: n
    case VObj(_) => {}
    case VFun(names, held) => names + set i, n | 0 <= i < |held| && n in Captures(held[i]) :: n
  }

  ghost function AllObjs(vs: seq<Val>): set<nat> {
    set i, o | 0 <= i < |vs| && o in Objs(vs[i]) :: o
  }

  ghost function AllCaptures(vs: seq<Val>): iset<string> {
    iset n | AnyCaptures(vs, n)
  }

  predicate AnyCaptures(vs: seq<Val>, n: string) {
    exists i :: 0 <= i < |vs| && n in Captures(vs[i])
  }

  /** The objects that the variables in `names` are or hold. */
  ghost function ObjsOf(names: iset<string>, env: Env): set<nat> {
    set n, o | n in env && n in names && o in Objs(env[n]) :: o
  }

  // ----- Variables that lead to others -----

  /** The variables that the value of a variable captures. */
  type Links = string -> set<string>

  ghost function LinksOf(env: Env, w: Setting): Links {
    (n: string) => if n in env then Captures(env[n]) else if n in w.functions then w.functions[n] else {}
  }

  ghost predicate Closed(links: Links, all: iset<string>) {
    forall n, m :: n in all && m in links(n) ==> m in all
  }

  ghost predicate InEvery(links: Links, names: iset<string>, n: string) {
    forall all: iset<string> :: names <= all && Closed(links, all) ==> n in all
  }

  /** The variables that can be got at from those in `names`. */
  ghost function Reach(links: Links, names: iset<string>): iset<string> {
    iset n | InEvery(links, names, n)
  }

  lemma ReachCloses(links: Links, names: iset<string>)
    ensures names <= Reach(links, names) && Closed(links, Reach(links, names))
  {
    forall n, m | n in Reach(links, names) && m in links(n) ensures m in Reach(links, names) {
      forall all: iset<string> | names <= all && Closed(links, all) ensures m in all {
        assert n in all;
      }
    }
  }

  lemma ReachLeast(links: Links, names: iset<string>, all: iset<string>)
    requires names <= all && Closed(links, all)
    ensures Reach(links, names) <= all
  {
  }

  ghost predicate FewerLinks(few: Links, many: Links) {
    forall n :: few(n) <= many(n)
  }

  lemma ReachMonotone(few: Links, many: Links, names: iset<string>, more: iset<string>)
    requires FewerLinks(few, many) && names <= more
    ensures Reach(few, names) <= Reach(many, more)
  {
    ReachCloses(many, more);
    var all := Reach(many, more);
    forall n, m | n in all && m in few(n) ensures m in all {
      assert m in many(n);
    }
    ReachLeast(few, names, all);
  }

  ghost predicate FromOne(links: Links, names: iset<string>, x: string) {
    exists y :: y in names && x in Reach(links, iset{y})
  }

  /** What can be got at can be got at from one of the names. */
  lemma ReachOne(links: Links, names: iset<string>, n: string) returns (m: string)
    requires n in Reach(links, names)
    ensures m in names && n in Reach(links, iset{m})
  {
    var all := iset x | FromOne(links, names, x);
    forall x | x in names ensures x in all {
      ReachCloses(links, iset{x});
    }
    forall x, y | x in all && y in links(x) ensures y in all {
      var z :| z in names && x in Reach(links, iset{z});
      ReachCloses(links, iset{z});
    }
    ReachLeast(links, names, all);
    m :| m in names && n in Reach(links, iset{m});
  }

  // ----- Evaluation -----

  function Concat(parts: seq<string>): string {
    if |parts| == 0 then "" else Concat(parts[..|parts| - 1]) + parts[|parts| - 1]
  }

  /** `left + right`; an operand that is an object may answer with anything that the operands hold. */
  ghost predicate AddsTo(left: Val, right: Val, v: Val, issued: set<nat>) {
    match (left, right)
    case (VLit(Str(s)), VLit(Str(t))) => v == VLit(Str(s + t))
    case (VTuple(xs), VTuple(ys)) => v == VTuple(xs + ys)
    case _ => Objs(v) * issued <= Objs(left) + Objs(right) && Captures(v) <= Captures(left) + Captures(right)
  }

  /** A call `x.json()` without arguments parses the body anew. */
  predicate IsJsonCall(e: Expr) {
    e.Call? && e.func.Attr? && e.func.attr == "json" && |e.args| == 0 && |e.keywords| == 0
  }

  /** The operands of a call whose objects the callee can return: receiver or callee, and arguments. */
  function Sources(e: Expr): (sources: seq<Expr>)
    requires e.Call?
    ensures forall i :: 0 <= i < |sources| ==> sources[i] < e
  {
    var values := seq(|e.keywords|, i requires 0 <= i < |e.keywords| => e.keywords[i].value);
    [if e.func.Attr? then e.func.base else e.func] + e.args + values
  }

  /** The variables that an expression reads, or that functions it makes read when they run. */
  function FreeNames(e: Expr): set<string>
    decreases e
  {
    match e
    case Name(id) => {id}
    case Lambda(params, defaults, result) =>
      (FreeNames(result) - params) + set i, n | 0 <= i < |defaults| && n in FreeNames(defaults[i]) :: n
    case _ => set i, n | 0 <= i < |Children(e)| && n in FreeNames(Children(e)[i]) :: n
  }

  /** The variables that the functions in values lead to. */
  ghost function Behind(vs: seq<Val>, env: Env, w: Setting): iset<string> {
    Reach(LinksOf(env, w), AllCaptures(vs))
  }

  /** `v` is something got from the values: what they hold, or what is behind the functions among them. */
  ghost predicate Drawn(v: Val, vs: seq<Val>, env: Env, issued: set<nat>, w: Setting) {
    && Objs(v) * issued <= AllObjs(vs) + ObjsOf(Behind(vs, env, w), env)
    && forall n :: n in Captures(v) ==> n in Behind(vs, env, w)
  }

  /** Plain data, or something new. */
  ghost predicate Foreign(v: Val, issued: set<nat>) {
    Objs(v) * issued == {} && Captures(v) == {}
  }

  /** An attribute, an item, an awaited result or the result of a call. */
  predicate Draws(e: Expr, w: Setting) {
    (e.Attr? && e.attr !in w.inert) || e.Sub? || e.Await? || (e.Call? && !IsJsonCall(e))
  }

  /** The expressions whose values the value of `e` is made of. */
  function Parts(e: Expr, w: Setting): (parts: seq<Expr>)
    ensures forall i :: 0 <= i < |parts| ==> parts[i] < e
  {
    match e
    case Add(left, right) => [left, right]
    case Tuple(elts) => elts
    case BoolOp(operands) => operands
    case IfExp(_, body, orelse) => [body, orelse]
    case Lambda(_, defaults, _) => defaults
    case Attr(base, attr) => if attr in w.inert then [] else [base]
    case Sub(base, _) => [base]
    case Await(awaited) => [awaited]
    case Call(_, _, _) => if IsJsonCall(e) then [] else Sources(e)
    case _ => []
  }

  /** `e` can evaluate to `v` where the variables are bound by `env`. */
  ghost predicate Evaluates(e: Expr, env: Env, issued: set<nat>, w: Setting, v: Val)
    decreases e
  {
    if Draws(e, w) then
      exists vs: seq<Val> :: EvaluateAll(e, Parts(e, w), env, issued, w, vs) && Drawn(v, vs, env, issued, w)
    else
      match e
      case Const(lit) => v == VLit(lit)
      case Name(id) =>
        if id in env then v == env[id] else if id in w.functions then v == VFun(w.functions[id], [])
        else Foreign(v, issued)
      case Add(left, right) =>
        exists vl, vr ::
          Evaluates(left, env, issued, w, vl) && Evaluates(right, env, issued, w, vr) && AddsTo(vl, vr, v, issued)
      case FString(pieces) =>
        exists parts: seq<string> ::
          && |parts| == |pieces|
          && v == VLit(Str(Concat(parts)))
          && forall i :: 0 <= i < |pieces| ==> PieceReads(pieces[i], env, issued, w, parts[i])
      case Tuple(elts) => v.VTuple? && EvaluateAll(e, elts, env, issued, w, v.items)
      case BoolOp(operands) =>
        if |operands| == 0 then Foreign(v, issued)
        else exists i :: 0 <= i < |operands| && Evaluates(operands[i], env, issued, w, v)
      case IfExp(_, body, orelse) => Evaluates(body, env, issued, w, v) || Evaluates(orelse, env, issued, w, v)
      case Lambda(params, defaults, result) =>
        v.VFun? && v.names == FreeNames(result) - params && EvaluateAll(e, defaults, env, issued, w, v.held)
      case _ => Foreign(v, issued)
  }

  ghost predicate EvaluateAll(whole: Expr, es: seq<Expr>, env: Env, issued: set<nat>, w: Setting, vs: seq<Val>)
    requires forall i :: 0 <= i < |es| ==> es[i] < whole
    decreases whole, 0
  {
    |vs| == |es| && forall i :: 0 <= i < |es| ==> Evaluates(es[i], env, issued, w, vs[i])
  }

  /** A piece of an f-string contributes the text `part`. */
  ghost predicate PieceReads(piece: Piece, env: Env, issued: set<nat>, w: Setting, part: string)
    decreases piece
  {
    match piece
    case Chars(s) => part == s
    case Field(value, plain) =>
      exists u :: Evaluates(value, env, issued, w, u) && (plain && u.VLit? && u.lit.Str? ==> part == u.lit.s)
  }

  /** `bool(v)`; an object may be true or false. */
  ghost predicate TruthIs(v: Val, truth: bool) {
    match v
    case VLit(Str(s)) => truth == (|s| > 0)
    case VLit(Int(i)) => truth == (i != 0)
    case VLit(Bool(b)) => truth == b
    case VLit(NoneLit) => !truth
    case VTuple(items) => truth == (|items| > 0)
    case VObj(_) => true
    case VFun(_, _) => truth
  }

  // ----- Where the objects of a value come from -----

  /** The variables that the value of an expression can capture. */
  ghost function Late(e: Expr, links: Links, w: Setting): iset<string>
    decreases e, 2
  {
    var late := AllLate(e, Parts(e, w), links, w);
    match e
    case Name(id) => iset n | n in links(id)
    case Lambda(params, _, result) => late + iset n | n in FreeNames(result) - params
    case _ => if Draws(e, w) then Reach(links, late) else late
  }

  ghost function AllLate(whole: Expr, es: seq<Expr>, links: Links, w: Setting): iset<string>
    requires forall i :: 0 <= i < |es| ==> es[i] < whole
    decreases whole, 1
  {
    iset n | AnyLate(whole, es, links, w, n)
  }

  ghost predicate AnyLate(whole: Expr, es: seq<Expr>, links: Links, w: Setting, n: string)
    requires forall i :: 0 <= i < |es| ==> es[i] < whole
    decreases whole, 0
  {
    exists i :: 0 <= i < |es| && n in Late(es[i], links, w)
  }

  /** The variables whose objects the value of an expression can be or hold. */
  ghost function Vals(e: Expr, links: Links, w: Setting): iset<string>
    decreases e, 1
  {
    (if e.Name? then iset{e.id} else iset{}) + (iset n | AnyVals(e, Parts(e, w), links, w, n)) +
    (if Draws(e, w) then Late(e, links, w) else iset{})
  }

  ghost predicate AnyVals(whole: Expr, es: seq<Expr>, links: Links, w: Setting, n: string)
    requires forall i :: 0 <= i < |es| ==> es[i] < whole
    decreases whole, 0
  {
    exists i :: 0 <= i < |es| && n in Vals(es[i], links, w)
  }

  lemma ObjsGrow(few: iset<string>, many: iset<string>, env: Env)
    requires few <= many
    ensures ObjsOf(few, env) <= ObjsOf(many, env)
  {
  }

  lemma PartVals(e: Expr, i: nat, links: Links, w: Setting)
    requires i < |Parts(e, w)|
    ensures Vals(Parts(e, w)[i], links, w) <= Vals(e, links, w)
  {
  }

  lemma PartsLate(e: Expr, links: Links, w: Setting)
    ensures AllLate(e, Parts(e, w), links, w) <= Late(e, links, w)
    ensures Draws(e, w) ==> Late(e, links, w) == Reach(links, AllLate(e, Parts(e, w), links, w))
    ensures Draws(e, w) ==> Closed(links, Late(e, links, w))
  {
    ReachCloses(links, AllLate(e, Parts(e, w), links, w));
  }

  lemma PartLate(e: Expr, i: nat, links: Links, w: Setting)
    requires i < |Parts(e, w)|
    ensures Late(Parts(e, w)[i], links, w) <= AllLate(e, Parts(e, w), links, w) <= Late(e, links, w)
  {
    PartsLate(e, links, w);
  }

  /** Every object issued before that a value holds is held by a variable that flows into it, and what it captures is
      captured by one. */
  lemma {:induction false} FlowSound(e: Expr, env: Env, issued: set<nat>, w: Setting, v: Val)
    requires Evaluates(e, env, issued, w, v)
    ensures Objs(v) * issued <= ObjsOf(Vals(e, LinksOf(env, w), w), env)
    ensures forall n :: n in Captures(v) ==> n in Late(e, LinksOf(env, w), w)
    decreases e, 3
  {
    var links := LinksOf(env, w);
    if Draws(e, w) {
      DrawnFlowSound(e, env, issued, w, v);
    } else {
      match e
      case Name(id) => OneName(id, env);
      case Add(left, right) =>
        var vl, vr :| Evaluates(left, env, issued, w, vl) && Evaluates(right, env, issued, w, vr) &&
          AddsTo(vl, vr, v, issued);
        PartsFlowSound(e, env, issued, w, [vl, vr]);
        SumMade(vl, vr, v, issued);
      case Tuple(elts) => PartsFlowSound(e, env, issued, w, v.items);
      case Lambda(_, defaults, _) => PartsFlowSound(e, env, issued, w, v.held);
      case BoolOp(operands) =>
        if |operands| > 0 {
          var i :| 0 <= i < |operands| && Evaluates(operands[i], env, issued, w, v);
          OnePartFlowSound(e, i, env, issued, w, v);
        }
      case IfExp(_, body, orelse) =>
        OnePartFlowSound(e, if Evaluates(body, env, issued, w, v) then 0 else 1, env, issued, w, v);
      case _ =>
    }
  }

  lemma OneName(id: string, env: Env)
    ensures ObjsOf(iset{id}, env) == if id in env then Objs(env[id]) else {}
  {
    if id in env {
      forall o | o in Objs(env[id]) ensures o in ObjsOf(iset{id}, env) {
      }
    }
  }

  lemma SumMade(vl: Val, vr: Val, v: Val, issued: set<nat>)
    requires AddsTo(vl, vr, v, issued)
    ensures Objs(v) * issued <= AllObjs([vl, vr]) && forall n :: n in Captures(v) ==> n in AllCaptures([vl, vr])
  {
    var vs := [vl, vr];
    assert vs[0] == vl && vs[1] == vr;
    if vl.VTuple? && vr.VTuple? {
      forall o | o in Objs(v) ensures o in AllObjs(vs) {
        var i :| 0 <= i < |v.items| && o in Objs(v.items[i]);
        assert v.items[i] == if i < |vl.items| then vl.items[i] else vr.items[i - |vl.items|];
        assert o in Objs(vl) || o in Objs(vr);
      }
      forall n | n in Captures(v) ensures n in AllCaptures(vs) {
        var i :| 0 <= i < |v.items| && n in Captures(v.items[i]);
        assert v.items[i] == if i < |vl.items| then vl.items[i] else vr.items[i - |vl.items|];
        assert n in Captures(vl) || n in Captures(vr);
      }
    }
  }

  lemma {:induction false} OnePartFlowSound(e: Expr, i: nat, env: Env, issued: set<nat>, w: Setting, v: Val)
    requires i < |Parts(e, w)| && Evaluates(Parts(e, w)[i], env, issued, w, v)
    ensures Objs(v) * issued <= ObjsOf(Vals(e, LinksOf(env, w), w), env)
    ensures forall n :: n in Captures(v) ==> n in Late(e, LinksOf(env, w), w)
    decreases e, 0
  {
    var links := LinksOf(env, w);
    FlowSound(Parts(e, w)[i], env, issued, w, v);
    PartVals(e, i, links, w);
    PartLate(e, i, links, w);
    ObjsGrow(Vals(Parts(e, w)[i], links, w), Vals(e, links, w), env);
  }

  lemma {:induction false} PartsFlowSound(e: Expr, env: Env, issued: set<nat>, w: Setting, vs: seq<Val>)
    requires |vs| == |Parts(e, w)| && forall i :: 0 <= i < |vs| ==> Evaluates(Parts(e, w)[i], env, issued, w, vs[i])
    ensures AllObjs(vs) * issued <= ObjsOf(Vals(e, LinksOf(env, w), w), env)
    ensures AllCaptures(vs) <= AllLate(e, Parts(e, w), LinksOf(env, w), w) <= Late(e, LinksOf(env, w), w)
    decreases e, 1
  {
    var links := LinksOf(env, w);
    forall o | o in AllObjs(vs) * issued ensures o in ObjsOf(Vals(e, links, w), env) {
      var i :| 0 <= i < |vs| && o in Objs(vs[i]);
      OnePartFlowSound(e, i, env, issued, w, vs[i]);
    }
    forall n | n in AllCaptures(vs) ensures n in AllLate(e, Parts(e, w), links, w) {
      var i :| 0 <= i < |vs| && n in Captures(vs[i]);
      FlowSound(Parts(e, w)[i], env, issued, w, vs[i]);
    }
    PartsLate(e, links, w);
  }

  lemma {:induction false} DrawnFlowSound(e: Expr, env: Env, issued: set<nat>, w: Setting, v: Val)
    requires Draws(e, w) && Evaluates(e, env, issued, w, v)
    ensures Objs(v) * issued <= ObjsOf(Vals(e, LinksOf(env, w), w), env)
    ensures forall n :: n in Captures(v) ==> n in Late(e, LinksOf(env, w), w)
    decreases e, 2
  {
    var links := LinksOf(env, w);
    var vs :| EvaluateAll(e, Parts(e, w), env, issued, w, vs) && Drawn(v, vs, env, issued, w);
    PartsFlowSound(e, env, issued, w, vs);
    PartsLate(e, links, w);
    ReachMonotone(links, links, AllCaptures(vs), AllLate(e, Parts(e, w), links, w));
    ObjsGrow(Behind(vs, env, w), Vals(e, links, w), env);
  }

  // ----- Every flow can happen -----

  /** Every expression can evaluate to something. */
  lemma {:induction false} SomeValue(e: Expr, env: Env, issued: set<nat>, w: Setting) returns (v: Val)
    ensures Evaluates(e, env, issued, w, v)
    decreases e, 2
  {
    var none := VLit(NoneLit);
    if Draws(e, w) {
      var vs := SomeValues(e, Parts(e, w), env, issued, w);
      v := none;
      assert Drawn(v, vs, env, issued, w);
      return;
    }
    match e
    case Const(lit) => v := VLit(lit);
    case Name(id) => v := if id in env then env[id] else if id in w.functions then VFun(w.functions[id], []) else none;
    case Add(left, right) =>
      var vl := SomeValue(left, env, issued, w);
      var vr := SomeValue(right, env, issued, w);
      v := SumOf(vl, vr);
      SumOfAdds(vl, vr, issued);
    case FString(pieces) => v := SomeText(e, env, issued, w);
    case Tuple(elts) =>
      var items := SomeValues(e, elts, env, issued, w);
      v := VTuple(items);
    case Lambda(params, defaults, result) =>
      var held := SomeValues(e, defaults, env, issued, w);
      v := VFun(FreeNames(result) - params, held);
    case BoolOp(operands) =>
      if |operands| > 0 {
        v := SomeValue(operands[0], env, issued, w);
      } else {
        v := none;
      }
    case IfExp(_, body, _) => v := SomeValue(body, env, issued, w);
    case _ => v := none;
  }

  /** One of the results that a sum can have. */
  function SumOf(left: Val, right: Val): Val {
    match (left, right)
    case (VLit(Str(s)), VLit(Str(t))) => VLit(Str(s + t))
    case (VTuple(xs), VTuple(ys)) => VTuple(xs + ys)
    case _ => VTuple([left, right])
  }

  lemma SumOfAdds(left: Val, right: Val, issued: set<nat>)
    ensures AddsTo(left, right, SumOf(left, right), issued)
    ensures Objs(left) + Objs(right) <= Objs(SumOf(left, right))
    ensures Captures(left) + Captures(right) <= Captures(SumOf(left, right))
  {
    var sum := SumOf(left, right);
    if left.VTuple? && right.VTuple? {
      forall i | 0 <= i < |left.items| ensures sum.items[i] == left.items[i] {
      }
      forall i | 0 <= i < |right.items| ensures sum.items[|left.items| + i] == right.items[i] {
      }
    } else if sum.VTuple? {
      assert sum.items[0] == left && sum.items[1] == right;
    }
  }

  lemma {:induction false} SomeValues(whole: Expr, es: seq<Expr>, env: Env, issued: set<nat>, w: Setting)
      returns (vs: seq<Val>)
    requires forall i :: 0 <= i < |es| ==> es[i] < whole
    ensures EvaluateAll(whole, es, env, issued, w, vs)
    decreases whole, 0
  {
    vs := [];
    for k := 0 to |es|
      invariant |vs| == k && forall i :: 0 <= i < k ==> Evaluates(es[i], env, issued, w, vs[i])
    {
      var v := SomeValue(es[k], env, issued, w);
      vs := vs + [v];
    }
  }

  lemma {:induction false} SomeText(e: Expr, env: Env, issued: set<nat>, w: Setting) returns (v: Val)
    requires e.FString?
    ensures Evaluates(e, env, issued, w, v)
    decreases e, 0
  {
    var parts: seq<string> := [];
    for k := 0 to |e.pieces|
      invariant |parts| == k && forall i :: 0 <= i < k ==> PieceReads(e.pieces[i], env, issued, w, parts[i])
    {
      var piece := e.pieces[k];
      var part := "";
      if piece.Chars? {
        part := piece.s;
      } else {
        var u := SomeValue(piece.value, env, issued, w);
        part := if u.VLit? && u.lit.Str? then u.lit.s else "";
      }
      parts := parts + [part];
    }
    v := VLit(Str(Concat(parts)));
  }

  /** Values of all the expressions, `v` among them. */
  lemma {:induction false} ValuesWith(whole: Expr, es: seq<Expr>, env: Env, issued: set<nat>, w: Setting, i: nat,
                                      v: Val)
      returns (vs: seq<Val>)
    requires (forall j :: 0 <= j < |es| ==> es[j] < whole) && i < |es| && Evaluates(es[i], env, issued, w, v)
    ensures EvaluateAll(whole, es, env, issued, w, vs) && i < |vs| && vs[i] == v
    decreases whole, 0
  {
    var others := SomeValues(whole, es, env, issued, w);
    vs := others[i := v];
  }

  /** A value of a part is in some value that is put together from the parts. */
  lemma {:induction false} Contains(e: Expr, env: Env, issued: set<nat>, w: Setting, i: nat, u: Val) returns (v: Val)
    requires !Draws(e, w) && i < |Parts(e, w)| && Evaluates(Parts(e, w)[i], env, issued, w, u)
    ensures Evaluates(e, env, issued, w, v) && Objs(u) <= Objs(v) && Captures(u) <= Captures(v)
  {
    match e
    case Add(left, right) =>
      var vs := ValuesWith(e, Parts(e, w), env, issued, w, i, u);
      v := SumOf(vs[0], vs[1]);
      SumOfAdds(vs[0], vs[1], issued);
    case Tuple(elts) =>
      var vs := ValuesWith(e, elts, env, issued, w, i, u);
      v := VTuple(vs);
    case Lambda(params, defaults, result) =>
      var vs := ValuesWith(e, defaults, env, issued, w, i, u);
      v := VFun(FreeNames(result) - params, vs);
    case BoolOp(_) => v := u;
    case IfExp(_, _, _) => v := u;
  }

  /** What is behind the functions among the parts is behind a variable that one of them captures. */
  lemma LateOrigin(e: Expr, links: Links, w: Setting, n: string) returns (i: nat, m: string)
    requires Draws(e, w) && n in Late(e, links, w)
    ensures i < |Parts(e, w)| && m in Late(Parts(e, w)[i], links, w) && n in Reach(links, iset{m})
  {
    PartsLate(e, links, w);
    m := ReachOne(links, AllLate(e, Parts(e, w), links, w), n);
    i :| i < |Parts(e, w)| && m in Late(Parts(e, w)[i], links, w);
  }

  /** Whatever an expression can capture, some value of it captures. */
  lemma {:induction false} LateComplete(e: Expr, env: Env, issued: set<nat>, w: Setting, n: string) returns (v: Val)
    requires n in Late(e, LinksOf(env, w), w)
    ensures Evaluates(e, env, issued, w, v) && n in Captures(v)
    decreases e, 1
  {
    if e.Name? || (e.Lambda? && n in FreeNames(e.result) - e.params) {
      v := SomeValue(e, env, issued, w);
    } else if Draws(e, w) {
      v := LateDrawn(e, env, issued, w, n);
    } else {
      v := LateInPart(e, env, issued, w, n);
    }
  }

  lemma {:induction false} LateDrawn(e: Expr, env: Env, issued: set<nat>, w: Setting, n: string) returns (v: Val)
    requires Draws(e, w) && n in Late(e, LinksOf(env, w), w)
    ensures Evaluates(e, env, issued, w, v) && n in Captures(v)
    decreases e, 0
  {
    var i, m := LateOrigin(e, LinksOf(env, w), w, n);
    var u := LateComplete(Parts(e, w)[i], env, issued, w, m);
    v := VFun({n}, []);
    DrawnFrom(e, env, issued, w, i, u, m, v);
  }

  lemma {:induction false} LateInPart(e: Expr, env: Env, issued: set<nat>, w: Setting, n: string) returns (v: Val)
    requires !Draws(e, w) && AnyLate(e, Parts(e, w), LinksOf(env, w), w, n)
    ensures Evaluates(e, env, issued, w, v) && n in Captures(v)
    decreases e, 0
  {
    var i: nat :| i < |Parts(e, w)| && n in Late(Parts(e, w)[i], LinksOf(env, w), w);
    var u := LateComplete(Parts(e, w)[i], env, issued, w, n);
    v := Contains(e, env, issued, w, i, u);
  }

  /** What a value of a part is or holds, or is behind a variable that it captures, can be drawn from the parts. */
  lemma {:induction false} DrawnFrom(e: Expr, env: Env, issued: set<nat>, w: Setting, i: nat, u: Val, m: string, v: Val)
    requires Draws(e, w) && i < |Parts(e, w)| && Evaluates(Parts(e, w)[i], env, issued, w, u) && m in Captures(u)
    requires Objs(v) <= ObjsOf(Reach(LinksOf(env, w), iset{m}), env)
    requires forall n :: n in Captures(v) ==> n in Reach(LinksOf(env, w), iset{m})
    ensures Evaluates(e, env, issued, w, v)
  {
    var vs := ValuesWith(e, Parts(e, w), env, issued, w, i, u);
    assert AnyCaptures(vs, m);
    ReachMonotone(LinksOf(env, w), LinksOf(env, w), iset{m}, AllCaptures(vs));
    ObjsGrow(Reach(LinksOf(env, w), iset{m}), Behind(vs, env, w), env);
    assert Drawn(v, vs, env, issued, w);
  }

  /** Whatever a variable that flows into an expression holds, some value of the expression holds. */
  lemma {:induction false} FlowComplete(e: Expr, env: Env, issued: set<nat>, w: Setting, n: string, o: nat)
      returns (v: Val)
    requires n in Vals(e, LinksOf(env, w), w) && n in env && o in Objs(env[n])
    ensures Evaluates(e, env, issued, w, v) && o in Objs(v)
    decreases e
  {
    var links := LinksOf(env, w);
    if e.Name? {
      v := env[e.id];
    } else if i: nat :| i < |Parts(e, w)| && n in Vals(Parts(e, w)[i], links, w) {
      var u := FlowComplete(Parts(e, w)[i], env, issued, w, n, o);
      if Draws(e, w) {
        var vs := ValuesWith(e, Parts(e, w), env, issued, w, i, u);
        v := VObj(o);
        assert Drawn(v, vs, env, issued, w);
      } else {
        v := Contains(e, env, issued, w, i, u);
      }
    } else {
      v := BehindComplete(e, env, issued, w, n, o);
    }
  }

  /** What is behind the functions among the parts can be got from them. */
  lemma {:induction false} BehindComplete(e: Expr, env: Env, issued: set<nat>, w: Setting, n: string, o: nat)
      returns (v: Val)
    requires Draws(e, w) && n in Late(e, LinksOf(env, w), w) && n in env && o in Objs(env[n])
    ensures Evaluates(e, env, issued, w, v) && o in Objs(v)
  {
    var links := LinksOf(env, w);
    var i, m := LateOrigin(e, links, w, n);
    var u := LateComplete(Parts(e, w)[i], env, issued, w, m);
    v := VObj(o);
    DrawnFrom(e, env, issued, w, i, u, m, v);
  }

  // ----- More links, more flows -----

  lemma {:induction false} LateMonotone(e: Expr, few: Links, many: Links, w: Setting)
    requires FewerLinks(few, many)
    ensures Late(e, few, w) <= Late(e, many, w)
    decreases e, 1
  {
    AllLateMonotone(e, few, many, w);
    if Draws(e, w) {
      PartsLate(e, few, w);
      PartsLate(e, many, w);
      ReachMonotone(few, many, AllLate(e, Parts(e, w), few, w), AllLate(e, Parts(e, w), many, w));
    }
  }

  lemma {:induction false} AllLateMonotone(e: Expr, few: Links, many: Links, w: Setting)
    requires FewerLinks(few, many)
    ensures AllLate(e, Parts(e, w), few, w) <= AllLate(e, Parts(e, w), many, w)
    decreases e, 0
  {
    forall n | AnyLate(e, Parts(e, w), few, w, n) ensures AnyLate(e, Parts(e, w), many, w, n) {
      var i :| 0 <= i < |Parts(e, w)| && n in Late(Parts(e, w)[i], few, w);
      LateMonotone(Parts(e, w)[i], few, many, w);
    }
  }

  lemma {:induction false} ValsMonotone(e: Expr, few: Links, many: Links, w: Setting)
    requires FewerLinks(few, many)
    ensures Vals(e, few, w) <= Vals(e, many, w)
    decreases e
  {
    forall n | AnyVals(e, Parts(e, w), few, w, n) ensures AnyVals(e, Parts(e, w), many, w, n) {
      var i :| 0 <= i < |Parts(e, w)| && n in Vals(Parts(e, w)[i], few, w);
      ValsMonotone(Parts(e, w)[i], few, many, w);
    }
    LateMonotone(e, few, many, w);
  }
}
