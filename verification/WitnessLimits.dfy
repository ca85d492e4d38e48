/** Where the analyser's claims end: bodies on which it attributes an assertion that the claim does not hold
    of. Each is outside the conditions of the theorems. */
module WitnessLimits {
  import opened Text
  import opened PyAst
  import opened PySemantics
  import opened Folding
  import opened HelperCheck
  import opened ApiWalk
  import opened WitnessRuns
  import opened WitnessSoundness
  import opened WitnessCustody

  // ----- Walking and running side by side -----

  /** The walk takes `t` to `t'`, and a run takes `s` to `s'`. */
  ghost predicate Step(ctx: Context, stmt: Stmt, t: Tables, t': Tables, s: State, s': State) {
    WalkStmt(stmt, t, ctx) == (t', false) && ExecStmt(stmt, ctx, s, s', Fell)
  }

  ghost predicate Steps(ctx: Context, stmts: seq<Stmt>, t: Tables, t': Tables, s: State, s': State) {
    WalkBlock(stmts, t, ctx) == (t', false) && ExecBlock(stmts, ctx, s, s', Fell)
  }

  lemma NoSteps(ctx: Context, t: Tables, s: State)
    ensures Steps(ctx, [], t, t, s, s)
  {
  }

  lemma StepsMore(ctx: Context, stmt: Stmt, rest: seq<Stmt>, t: Tables, t1: Tables, t2: Tables, s: State, s1: State,
                  s2: State)
    requires Step(ctx, stmt, t, t1, s, s1) && Steps(ctx, rest, t1, t2, s1, s2)
    ensures Steps(ctx, [stmt] + rest, t, t2, s, s2)
  {
    assert ([stmt] + rest)[0] == stmt && ([stmt] + rest)[1..] == rest;
  }

  lemma {:induction false} AfterFirst(ctx: Context, stmts: seq<Stmt>, s: State, s': State) returns (m: State)
    requires |stmts| > 0 && ExecBlock(stmts, ctx, s, s', Fell)
    ensures ExecStmt(stmts[0], ctx, s, m, Fell) && ExecBlock(stmts[1..], ctx, m, s', Fell)
  {
    var o;
    m, o :| ExecStmt(stmts[0], ctx, s, m, o) &&
      if o == Fell then ExecBlock(stmts[1..], ctx, m, s', Fell) else s' == m && Fell == o;
  }

  lemma {:induction false} ExecCons(ctx: Context, stmt: Stmt, rest: seq<Stmt>, s: State, m: State, s': State)
    requires ExecStmt(stmt, ctx, s, m, Fell) && ExecBlock(rest, ctx, m, s', Fell)
    ensures ExecBlock([stmt] + rest, ctx, s, s', Fell)
  {
    assert ([stmt] + rest)[0] == stmt && ([stmt] + rest)[1..] == rest;
  }

  lemma {:induction false} WalkJoin(ctx: Context, a: seq<Stmt>, b: seq<Stmt>, t: Tables)
    ensures !WalkBlock(a, t, ctx).1 ==> WalkBlock(a + b, t, ctx) == WalkBlock(b, WalkBlock(a, t, ctx).0, ctx)
    decreases |a|
  {
    if |a| == 0 {
      assert a + b == b;
    } else {
      assert (a + b)[0] == a[0] && (a + b)[1..] == a[1..] + b;
      WalkJoin(ctx, a[1..], b, WalkStmt(a[0], t, ctx).0);
    }
  }

  lemma {:induction false} ExecJoin(ctx: Context, a: seq<Stmt>, b: seq<Stmt>, s: State, m: State, s': State)
    requires ExecBlock(a, ctx, s, m, Fell) && ExecBlock(b, ctx, m, s', Fell)
    ensures ExecBlock(a + b, ctx, s, s', Fell)
    decreases |a|
  {
    if |a| == 0 {
      assert a + b == b;
    } else {
      var first, rest := a[0], a[1..];
      var m1 := AfterFirst(ctx, a, s, m);
      ExecJoin(ctx, rest, b, m1, m, s');
      Regroup(a, b);
      ExecCons(ctx, first, rest + b, s, m1, s');
    }
  }

  lemma Regroup(a: seq<Stmt>, b: seq<Stmt>)
    requires |a| > 0
    ensures a + b == [a[0]] + (a[1..] + b)
  {
  }

  lemma StepsJoin(ctx: Context, a: seq<Stmt>, b: seq<Stmt>, t: Tables, t1: Tables, t2: Tables, s: State, s1: State,
                  s2: State)
    requires Steps(ctx, a, t, t1, s, s1) && Steps(ctx, b, t1, t2, s1, s2)
    ensures Steps(ctx, a + b, t, t2, s, s2)
  {
    WalkJoin(ctx, a, b, t);
    ExecJoin(ctx, a, b, s, s1, s2);
  }

  // ----- Single steps -----

  /** `f(x)` */
  function Hand(f: string, x: string): Expr {
    Call(Name(f), [Name(x)], [])
  }

  /** The name of a function that the analyser has no rule for and the module does not define. */
  predicate Ordinary(ctx: Context, f: string) {
    Plain(f) && f !in ctx.helpers
  }

  predicate Plain(f: string) {
    f !in {"pytest.skip", "pytest.xfail", "setattr", "monkeypatch.setattr", "object.__setattr__"}
  }

  lemma HandNames(f: string, x: string)
    ensures ExecNames(Hand(f, x)) == {f, x} && Calls(Hand(f, x)) && Hands(Hand(f, x))
    ensures forall links: Links, w: Setting :: Exposes(Hand(f, x), links, w, f) && Exposes(Hand(f, x), links, w, x)
  {
    var e := Hand(f, x);
    assert Children(e) == [Name(f), Name(x)];
    assert Children(e)[0] == Name(f) && Children(e)[1] == Name(x);
    NameSets(f);
    NameSets(x);
    assert f in ExecNames(Children(e)[0]) && x in ExecNames(Children(e)[1]);
    forall links: Links, w: Setting ensures Exposes(e, links, w, f) && Exposes(e, links, w, x) {
      HandVals(f, x, links, w);
    }
  }

  lemma HandVals(f: string, x: string, links: Links, w: Setting)
    ensures f in Vals(Hand(f, x), links, w) && x in Vals(Hand(f, x), links, w)
    ensures Late(Name(f), links, w) <= Late(Hand(f, x), links, w)
    ensures Late(Name(x), links, w) <= Late(Hand(f, x), links, w)
  {
    var e := Hand(f, x);
    assert Parts(e, w) == [Name(f), Name(x)];
    assert Parts(e, w)[0] == Name(f) && Parts(e, w)[1] == Name(x);
    PartVals(e, 0, links, w);
    PartVals(e, 1, links, w);
    PartLate(e, 0, links, w);
    PartLate(e, 1, links, w);
  }

  lemma NameSets(x: string)
    ensures ExecNames(Name(x)) == {x} && !Calls(Name(x)) && Names(Name(x)) == {x} && FreeNames(Name(x)) == {x}
  {
    assert Children(Name(x)) == [];
  }

  /** An expression without calls changes nothing but what is assigned. */
  lemma {:induction false} FreesNothing(e: Expr, links: Links, w: Setting, n: string)
    requires !Calls(e)
    ensures !Frees(e, links, w, n) && !Exposes(e, links, w, n)
    decreases e
  {
    forall i | 0 <= i < |Evaluated(e)|
      ensures !Frees(Evaluated(e)[i], links, w, n) && !Exposes(Evaluated(e)[i], links, w, n)
    {
      FreesNothing(Evaluated(e)[i], links, w, n);
    }
  }

  lemma QuietTold(ctx: Context, e: Expr, s: State)
    requires !Calls(e)
    ensures Told(s, e, ctx) == s
  {
    var k := SightOf(s, ctx);
    forall n ensures !Frees(e, k.links, ctx.world, n) {
      FreesNothing(e, k.links, ctx.world, n);
    }
    assert s.escaped + Freed(e, k, ctx.world) == s.escaped;
    assert s.log + [] == s.log;
  }

  /** A bare call that mentions nothing that the tables know. */
  lemma HandKept(ctx: Context, e: Expr, t: Tables)
    requires e.Call? && e.func.Name? && Plain(e.func.id) && ExecNames(e) !! t.Watched()
    requires Captured(e, ctx) !! t.Watched()
    ensures WalkDo(e, t, ctx) == (t, false)
  {
    assert !RequestShaped(e) && !SafeClientCleanup(e, t.clients);
    assert DottedName(e.func) == Some(e.func.id);
    assert !Terminator(e) && !MutationCall(e, t.Watched());
    DropsNothing(t.responses, Captured(e, ctx));
    DropsNothing(t.responses, ExecNames(e));
    assert ExecNames(e) * t.tainted == {} && ExecNames(e) * t.clients == {};
    assert Captured(e, ctx) * t.tainted == {} && Captured(e, ctx) * t.clients == {};
  }

  lemma DropsNothing(responses: map<string, nat>, names: set<string>)
    requires names !! responses.Keys
    ensures DropEvents(responses, names) == responses
  {
  }

  lemma AssignStep(ctx: Context, x: string, value: Expr, span: Span, annotated: bool, t: Tables, s: State, v: Val)
    requires x !in t.Watched() && !RequestShaped(value) && Evaluates(value, s.env, s.issued, ctx.world, v)
    requires !Calls(value)
    ensures var stmt := Assign(x, value, span, annotated);
      Step(ctx, stmt, t, WalkAssign(x, value, span, t, ctx).0, s, s.(env := s.env[x := v]))
  {
    QuietTold(ctx, value, s);
  }

  // ----- A request, something in between, an assertion -----

  const CALL := Span(1, 0, 1, 9)
  const THERE := Span(2, 0, 2, 9)
  const CHECK := Span(9, 0, 9, 9)

  /** `client.get(path)`, the path a constant */
  function Fetch(path: string): Expr {
    Call(Attr(Name("client"), "get"), [Const(Str(path))], [])
  }

  /** `reply = client.get("/a")` */
  const SEND := Assign("reply", Fetch("/a"), CALL, false)

  /** `assert reply.ok` */
  const TEST := Attr(Name("reply"), "ok")

  const START := Tables(map[], {"client"}, {}, map[], [])
  const BEFORE := State(map["client" := VObj(0)], {0}, [], iset{})

  const SENT := Request("GET", [Known(Str("/a"))], "reply", CALL, [])
  const ASKED := Tables(map["reply" := Event(0)], {"client"}, {}, map["reply" := 0], [SENT])

  const ANSWER := Called(CALL, VLit(Str("GET")), VLit(Str("/a")), VObj(1), true)
  const ANSWERED := State(map["client" := VObj(0), "reply" := VObj(1)], {0, 1}, [ANSWER, Handed({0})], iset{})

  lemma FetchShape(path: string)
    ensures RequestShaped(Fetch(path)) && PathArgument(Fetch(path)) == 0
    ensures SentVerb(Fetch(path), [VLit(Str(path))]) == VLit(Str("GET"))
    ensures CallRequest(Fetch(path), map[], {"client"}) == Some(("GET", [Known(Str(path))]))
  {
    assert AsciiLower("get") == "get";
    assert AsciiUpper("get") == "GET" && AsciiUpper("GET") == "GET";
  }

  lemma ReachNothing(links: Links)
    ensures Reach(links, iset{}) == iset{}
  {
    ReachLeast(links, iset{}, iset{});
  }

  lemma ReachEmpty(links: Links, names: iset<string>)
    requires names == iset{}
    ensures Reach(links, names) == iset{}
  {
    ReachNothing(links);
  }

  /** A call on `c` of constants and of variables in `names`, none of which holds a function. */
  predicate MethodCall(e: Expr, c: string, names: set<string>) {
    && e.Call? && e.func.Attr? && e.func.base == Name(c) && e.keywords == [] && Hands(e) && c in names
    && (forall i :: 0 <= i < |e.args| ==> e.args[i].Const? || (e.args[i].Name? && e.args[i].id in names))
    && forall n :: n in names && n != c ==> exists i :: 0 <= i < |e.args| && e.args[i] == Name(n)
  }

  lemma MethodParts(e: Expr, c: string, names: set<string>, links: Links, w: Setting)
    requires MethodCall(e, c, names) && forall n :: n in names ==> links(n) == {}
    ensures Late(e, links, w) == iset{} && Vals(e, links, w) == iset n | n in names
  {
    var parts := [Name(c)] + e.args;
    assert Parts(e, w) == parts;
    AtomParts(e, c, names, links, w);
    assert AllLate(e, Parts(e, w), links, w) == iset{};
    ReachEmpty(links, AllLate(e, Parts(e, w), links, w));
    PartsLate(e, links, w);
    forall n | n in Vals(e, links, w) ensures n in names {
      assert AnyVals(e, Parts(e, w), links, w, n);
      var i :| 0 <= i < |parts| && n in Vals(parts[i], links, w);
    }
    forall n | n in names ensures n in Vals(e, links, w) {
      AtomGiven(e, c, names, links, w, n);
    }
  }

  lemma AtomParts(e: Expr, c: string, names: set<string>, links: Links, w: Setting)
    requires MethodCall(e, c, names) && forall n :: n in names ==> links(n) == {}
    ensures var parts := [Name(c)] + e.args;
      forall i :: 0 <= i < |parts| ==>
        Late(parts[i], links, w) == iset{} && Vals(parts[i], links, w) <= iset n | n in names
  {
    var parts := [Name(c)] + e.args;
    forall i | 0 <= i < |parts|
      ensures Late(parts[i], links, w) == iset{} && Vals(parts[i], links, w) <= iset n | n in names
    {
      assert i > 0 ==> parts[i] == e.args[i - 1];
      AtomFlows(parts[i], links, w);
    }
  }

  lemma AtomGiven(e: Expr, c: string, names: set<string>, links: Links, w: Setting, n: string)
    requires MethodCall(e, c, names) && n in names
    ensures n in Vals(e, links, w)
  {
    if n == c {
      PartVals(e, 0, links, w);
    } else {
      var i: nat :| i < |e.args| && e.args[i] == Name(n);
      assert Parts(e, w)[i + 1] == Name(n);
      PartVals(e, i + 1, links, w);
    }
  }

  lemma AtomFlows(e: Expr, links: Links, w: Setting)
    requires e.Const? || (e.Name? && links(e.id) == {})
    ensures Late(e, links, w) == iset{} && Vals(e, links, w) == if e.Name? then iset{e.id} else iset{}
  {
    assert Parts(e, w) == [];
    assert AllLate(e, Parts(e, w), links, w) == iset{};
    forall n ensures n !in Late(e, links, w) && (n in Vals(e, links, w) <==> e == Name(n)) {
      assert !AnyVals(e, Parts(e, w), links, w, n);
    }
  }

  /** What such a call hands over, where nothing has escaped. */
  lemma MethodHands(ctx: Context, e: Expr, c: string, names: set<string>, s: State)
    requires MethodCall(e, c, names) && s.escaped == iset{}
    requires forall n :: n in names ==> LinksOf(s.env, ctx.world)(n) == {}
    ensures Calls(e) && Given(e, SightOf(s, ctx), ctx.world) == iset n | n in names
    ensures Freed(e, SightOf(s, ctx), ctx.world) == iset{}
  {
    var k := SightOf(s, ctx);
    MethodParts(e, c, names, k.links, ctx.world);
    ReachEmpty(k.links, k.loose);
    forall n ensures Exposes(e, k.links, ctx.world, n) <==> n in names
      ensures !Frees(e, k.links, ctx.world, n)
    {
      MethodChildren(e, c, names, k.links, ctx.world, n);
    }
  }

  lemma MethodChildren(e: Expr, c: string, names: set<string>, links: Links, w: Setting, n: string)
    requires MethodCall(e, c, names)
    ensures forall i :: 0 <= i < |Evaluated(e)| ==>
      !Exposes(Evaluated(e)[i], links, w, n) && !Frees(Evaluated(e)[i], links, w, n)
  {
    assert Evaluated(e) == [e.func] + e.args;
    forall i | 0 <= i < |Evaluated(e)|
      ensures !Exposes(Evaluated(e)[i], links, w, n) && !Frees(Evaluated(e)[i], links, w, n)
    {
      var child := Evaluated(e)[i];
      if i == 0 {
        assert Evaluated(child) == [Name(c)];
        NameSets(c);
        assert !Calls(child);
      } else {
        assert child == e.args[i - 1];
        assert Evaluated(child) == [];
      }
      FreesNothing(child, links, w, n);
    }
  }

  lemma FetchHands(ctx: Context, path: string, s: State)
    requires s == BEFORE
    ensures var e := Fetch(path);
      Calls(e) && Given(e, SightOf(s, ctx), ctx.world) == iset{"client"} &&
        Freed(e, SightOf(s, ctx), ctx.world) == iset{}
  {
    MethodHands(ctx, Fetch(path), "client", {"client"}, s);
  }

  lemma SendStep(ctx: Context)
    ensures Step(ctx, SEND, START, ASKED, BEFORE, ANSWERED)
  {
    SendWalk(ctx, START);
    SendRun(ctx, BEFORE, "/a");
  }

  lemma SendWalk(ctx: Context, t: Tables)
    requires t == START
    ensures WalkStmt(SEND, t, ctx) == (ASKED, false)
  {
    FetchShape("/a");
    assert CallRequest(Fetch("/a"), t.values, t.clients) == Some(("GET", [Known(Str("/a"))]));
    assert t.clients - {"reply"} == {"client"} && t.tainted - {"reply"} == {};
    assert t.requests + [SENT] == [SENT];
  }

  /** A request that returns a new object. */
  lemma RequestRun(ctx: Context, e: Expr, x: string, s: State, s': State, args: seq<Val>, objs: set<nat>)
    requires RequestShaped(e) && ArgsEvaluate(StripAwait(e), s.env, s.issued, ctx.world, args) &&
      FreshResult(VObj(1), s.env)
    requires Calls(e) && ObjsOf(Given(e, SightOf(s, ctx), ctx.world), s.env) == objs
    requires Freed(e, SightOf(s, ctx), ctx.world) == iset{}
    requires s' == State(s.env[x := VObj(1)], s.issued + {1},
                         s.log + [CallEntry(e, CALL, s.env, args, VObj(1))] + [Handed(objs)], s.escaped)
    ensures ExecStmt(Assign(x, e, CALL, false), ctx, s, s', Fell)
  {
    assert s.escaped + iset{} == s.escaped;
    assert ExecRequest(x, e, CALL, ctx, s, s', args, VObj(1));
  }

  lemma SendRun(ctx: Context, s: State, path: string)
    requires s == BEFORE && path == "/a"
    ensures ExecStmt(Assign("reply", Fetch(path), CALL, false), ctx, s, ANSWERED, Fell)
  {
    FetchShape(path);
    FetchHands(ctx, path, s);
    ClientHeld(s.env);
    SendArgs(ctx, s, path);
    RequestRun(ctx, Fetch(path), "reply", s, ANSWERED, [VLit(Str(path))], {0});
  }

  lemma SendArgs(ctx: Context, s: State, path: string)
    requires path == "/a" && s == BEFORE && FreshResult(VObj(1), s.env)
    ensures RequestShaped(Fetch(path)) && ArgsEvaluate(Fetch(path), s.env, s.issued, ctx.world, [VLit(Str(path))])
    ensures s.log + [CallEntry(Fetch(path), CALL, s.env, [VLit(Str(path))], VObj(1))] + [Handed({0})] == ANSWERED.log
  {
    FetchShape(path);
    assert Fetch(path).args[0] == Const(Str(path));
  }

  lemma ClientHeld(env: Env)
    requires env == BEFORE.env
    ensures FreshResult(VObj(1), env) && ObjsOf(iset{"client"}, env) == {0}
  {
    assert 0 in Objs(env["client"]);
  }

  lemma TestShape()
    ensures Direct(TEST, "reply") && "reply" in Names(TEST) && !Calls(TEST)
  {
    assert Children(TEST) == [Name("reply")] && Children(Name("reply")) == [];
    NameSets("reply");
    assert OccurrencesFrom(TEST, "reply", 1) == OccurrencesFrom(TEST, "reply", 0) +
      Occurrences(Children(TEST)[0], "reply");
    assert "reply" in Names(Children(TEST)[0]);
    assert !HasBranching(Children(TEST)[0]);
  }

  /** The walk still knows the response of the request sent, and has not attributed the last assertion. */
  predicate StillKnows(t: Tables) {
    && "reply" in t.responses && t.responses["reply"] == 0 && |t.requests| == 1
    && t.requests[0].(assertions := []) == SENT && CHECK !in t.requests[0].assertions
  }

  /** The assertion is attributed wherever the walk still knows the response. */
  lemma CheckStep(ctx: Context, t: Tables, s: State)
    requires StillKnows(t)
    ensures var check := Check(TEST, CHECK);
      Step(ctx, check, t, WalkCheck(TEST, CHECK, t), s, s.(log := s.log + [Checked(CHECK, TEST, s.env)]))
    ensures CHECK in WalkCheck(TEST, CHECK, t).requests[0].assertions
    ensures WalkCheck(TEST, CHECK, t).requests[0].(assertions := []) == SENT
  {
    TestShape();
    assert Attributable(TEST, CHECK, t, 0);
    var m := s.(log := s.log + [Checked(CHECK, TEST, s.env)]);
    QuietTold(ctx, TEST, m);
  }

  /** The body that sends, does something and checks. */
  function Around(middle: seq<Stmt>): seq<Stmt> {
    [SEND] + middle + [Check(TEST, CHECK)]
  }

  lemma AroundSteps(ctx: Context, middle: seq<Stmt>, t: Tables, s: State) returns (t': Tables, s': State)
    requires Steps(ctx, middle, ASKED, t, ANSWERED, s) && StillKnows(t)
    ensures Steps(ctx, Around(middle), START, t', BEFORE, s')
    ensures s'.log == s.log + [Checked(CHECK, TEST, s.env)]
    ensures |t'.requests| == 1 && t'.requests[0].(assertions := []) == SENT && CHECK in t'.requests[0].assertions
  {
    t', s' := CheckSteps(ctx, t, s);
    SendStep(ctx);
    StepsThrough(ctx, SEND, middle, [Check(TEST, CHECK)], START, ASKED, t, t', BEFORE, ANSWERED, s, s');
  }

  lemma CheckSteps(ctx: Context, t: Tables, s: State) returns (t': Tables, s': State)
    requires StillKnows(t)
    ensures Steps(ctx, [Check(TEST, CHECK)], t, t', s, s')
    ensures s' == s.(log := s.log + [Checked(CHECK, TEST, s.env)])
    ensures |t'.requests| == 1 && t'.requests[0].(assertions := []) == SENT && CHECK in t'.requests[0].assertions
  {
    CheckStep(ctx, t, s);
    t', s' := WalkCheck(TEST, CHECK, t), s.(log := s.log + [Checked(CHECK, TEST, s.env)]);
    OneStep(ctx, Check(TEST, CHECK), t, t', s, s');
  }

  lemma StepsThrough(ctx: Context, first: Stmt, middle: seq<Stmt>, rest: seq<Stmt>, t: Tables, t1: Tables, t2: Tables,
                     t': Tables, s: State, s1: State, s2: State, s': State)
    requires Step(ctx, first, t, t1, s, s1) && Steps(ctx, middle, t1, t2, s1, s2) && Steps(ctx, rest, t2, t', s2, s')
    ensures Steps(ctx, [first] + middle + rest, t, t', s, s')
  {
    StepsJoin(ctx, middle, rest, t1, t2, t', s1, s2, s');
    StepsMore(ctx, first, middle + rest, t, t1, t', s, s1, s');
    assert [first] + middle + rest == [first] + (middle + rest);
  }

  // ----- The side conditions -----

  lemma {:induction false} SettledJoin(ctx: Context, a: seq<Stmt>, b: seq<Stmt>, t: Tables)
    requires Settled(a, t, ctx) && (!WalkBlock(a, t, ctx).1 ==> Settled(b, WalkBlock(a, t, ctx).0, ctx))
    ensures Settled(a + b, t, ctx)
    decreases |a|
  {
    if |a| == 0 {
      assert a + b == b;
    } else {
      assert (a + b)[0] == a[0] && (a + b)[1..] == a[1..] + b;
      if !WalkStmt(a[0], t, ctx).1 {
        SettledJoin(ctx, a[1..], b, WalkStmt(a[0], t, ctx).0);
      }
    }
  }

  lemma SettledOne(ctx: Context, stmt: Stmt, t: Tables)
    requires SettledStmt(stmt, t, ctx)
    ensures Settled([stmt], t, ctx)
  {
  }

  lemma {:induction false} SpansJoin(a: seq<Stmt>, b: seq<Stmt>)
    requires DistinctSpans(a) && DistinctSpans(b) && Spans(a) !! Spans(b)
    ensures DistinctSpans(a + b) && Spans(a + b) == Spans(a) + Spans(b)
    decreases |a|
  {
    if |a| == 0 {
      assert a + b == b;
    } else {
      assert (a + b)[0] == a[0] && (a + b)[1..] == a[1..] + b;
      SpansJoin(a[1..], b);
    }
  }

  lemma OneSpan(stmt: Stmt)
    requires DistinctIn(stmt)
    ensures DistinctSpans([stmt]) && Spans([stmt]) == SpansOf(stmt)
  {
    assert [stmt][1..] == [];
  }

  /** The body meets every condition of the soundness theorems. */
  ghost predicate Admissible(ctx: Context, body: seq<Stmt>) {
    Initial(START, BEFORE) && DistinctSpans(body) && Settled(body, START, ctx)
  }

  lemma AroundAdmissible(ctx: Context, middle: seq<Stmt>)
    requires DistinctSpans(middle) && Spans(middle) !! {CALL, CHECK} && Settled(middle, ASKED, ctx)
    ensures Admissible(ctx, Around(middle))
  {
    var check := Check(TEST, CHECK);
    OneSpan(SEND);
    OneSpan(check);
    assert CALL != CHECK;
    SpansJoin([SEND], middle);
    SpansJoin([SEND] + middle, [check]);
    SendWalk(ctx, START);
    SettledOne(ctx, SEND, START);
    assert WalkBlock([SEND], START, ctx) == (ASKED, false);
    SettledJoin(ctx, [SEND], middle, START);
    SettledOne(ctx, check, WalkBlock([SEND] + middle, START, ctx).0);
    SettledJoin(ctx, [SEND] + middle, [check], START);
  }

  /** Entries that are not calls of requests. */
  ghost predicate Aside(log: seq<Entry>, from: nat) {
    forall k :: from <= k < |log| ==> !log[k].Called?
  }

  /** The body is within the conditions of AttributionSound, and yet some passing run of it checks a response
      that was handed to a call before. */
  ghost predicate Leaks(ctx: Context, middle: seq<Stmt>) {
    && Admissible(ctx, Around(middle))
    && exists s' :: Disturbs(ctx, middle, s')
  }

  ghost predicate Disturbs(ctx: Context, middle: seq<Stmt>, s': State) {
    && ExecBlock(Around(middle), ctx, BEFORE, s', Fell)
    && !Undisturbed(WalkBlock(Around(middle), START, ctx).0.requests, s'.log)
  }

  /** No body that leaks is tracked, whatever sight has enough of it. */
  lemma LeaksUntracked(ctx: Context, middle: seq<Stmt>, k: Sight)
    requires Leaks(ctx, middle) && Enough(k, Around(middle), BEFORE, ctx)
    ensures !Tracked(Around(middle), START, k, ctx)
  {
    var s' :| Disturbs(ctx, middle, s');
    if Tracked(Around(middle), START, k, ctx) {
      CustodyKept(Around(middle), START, k, ctx, BEFORE, s', Fell);
    }
  }

  /** A middle part in which a call is handed the response, though the walk still knows it: the assertion is
      attributed, and what it checks is not intact. */
  lemma LeakShows(ctx: Context, middle: seq<Stmt>, t: Tables, s: State, k: nat) returns (s': State)
    requires Steps(ctx, middle, ASKED, t, ANSWERED, s) && StillKnows(t)
    requires ANSWERED.log <= s.log && Aside(s.log, 1) && 1 < k < |s.log| && s.log[k].Handed?
    requires 1 in s.log[k].objs
    ensures Disturbs(ctx, middle, s')
  {
    var t';
    t', s' := AroundSteps(ctx, middle, t, s);
    var j := |s.log|;
    assert s'.log[j] == Checked(CHECK, TEST, s.env) && s'.log[0] == ANSWER && s'.log[k] == s.log[k];
    forall c: nat ensures !ChecksIntact(t'.requests[0], s'.log, j, c) {
      if IsCallOf(t'.requests[0], s'.log, c) {
        assert c == 0;
        assert !Intact(s'.log, c, j);
      }
    }
    assert s'.log[j].span in t'.requests[0].assertions;
  }

  // ----- Ways in which a response gets lost from sight -----

  predicate Free(x: string) {
    x != "client" && x != "reply" && x !in CLIENT_NAMES
  }

  /** A bare call of something ordinary that receives from `x` and mentions nothing that the walk watches. */
  ghost predicate Takes(ctx: Context, e: Expr, x: string) {
    && e.Call? && e.func.Name? && Ordinary(ctx, e.func.id) && ExecNames(e) !! {"client", "reply"} && Calls(e)
    && forall links: Links, w: Setting :: Exposes(e, links, w, x)
  }

  lemma HandTakes(ctx: Context, f: string, x: string)
    requires Free(f) && Free(x) && Ordinary(ctx, f)
    ensures Takes(ctx, Hand(f, x), x)
  {
    HandNames(f, x);
  }

  /** `x` holds the response, the tables do not know `x`, and a call that takes it follows. */
  lemma ThenHanded(ctx: Context, before: seq<Stmt>, t: Tables, s: State, e: Expr, x: string) returns (s': State)
    requires Steps(ctx, before, ASKED, t, ANSWERED, s) && Takes(ctx, e, x)
    requires StillKnows(t) && t.Watched() == {"client", "reply"}
    requires ANSWERED.log <= s.log && Aside(s.log, 1) && x in s.env && 1 in Objs(s.env[x])
    ensures Disturbs(ctx, before + [Do(e)], s')
  {
    HandKept(ctx, e, t);
    s' := ThenGiven(ctx, before, t, s, e, x);
  }

  /** A statement after which `x` holds the response unknown to the tables, and a call that takes `x`. */
  lemma HoldLeak(ctx: Context, stmt: Stmt, t: Tables, s: State, e: Expr, x: string)
    requires Step(ctx, stmt, ASKED, t, ANSWERED, s) && Takes(ctx, e, x)
    requires StillKnows(t) && t.Watched() == {"client", "reply"}
    requires ANSWERED.log <= s.log && Aside(s.log, 1) && x in s.env && 1 in Objs(s.env[x])
    requires DistinctIn(stmt) && SpansOf(stmt) !! {CALL, CHECK} && SettledStmt(stmt, ASKED, ctx)
    ensures Leaks(ctx, [stmt] + [Do(e)])
  {
    OneStep(ctx, stmt, ASKED, t, ANSWERED, s);
    var s' := ThenHanded(ctx, [stmt], t, s, e, x);
    PairAdmissible(ctx, stmt, t, e);
  }

  /** A bare expression that the walk passes over is given what holds the response. */
  lemma ThenGiven(ctx: Context, before: seq<Stmt>, t: Tables, s: State, e: Expr, x: string) returns (s': State)
    requires Steps(ctx, before, ASKED, t, ANSWERED, s) && WalkDo(e, t, ctx) == (t, false) && StillKnows(t)
    requires Calls(e) && x in Given(e, SightOf(s, ctx), ctx.world)
    requires ANSWERED.log <= s.log && Aside(s.log, 1) && x in s.env && 1 in Objs(s.env[x])
    ensures Disturbs(ctx, before + [Do(e)], s')
  {
    var s1, objs := Told(s, e, ctx), ObjsOf(Given(e, SightOf(s, ctx), ctx.world), s.env);
    OneStep(ctx, Do(e), t, t, s, s1);
    StepsJoin(ctx, before, [Do(e)], ASKED, t, t, ANSWERED, s, s1);
    assert s1.log == s.log + [Handed(objs)];
    s' := LeakShows(ctx, before + [Do(e)], t, s1, |s.log|);
  }

  /** Any value that the response flows into and whose alias roots do not show it: the target stays unwatched. */
  lemma LostAlias(ctx: Context, value: Expr, e: Expr, x: string)
    requires "reply" in Vals(value, LinksOf(ANSWERED.env, ctx.world), ctx.world) && !RequestShaped(value)
    requires AliasRoots(value) !! {"client", "reply"} && !Calls(value) && Free(x) && Takes(ctx, e, x)
    ensures Leaks(ctx, [Assign(x, value, THERE, false)] + [Do(e)])
  {
    var t, s := LostStep(ctx, value, x, "reply", ASKED, ANSWERED);
    HoldLeak(ctx, Assign(x, value, THERE, false), t, s, e, x);
  }

  lemma LostStep(ctx: Context, value: Expr, x: string, b: string, t: Tables, s: State) returns (t': Tables, s': State)
    requires b in Vals(value, LinksOf(s.env, ctx.world), ctx.world) && b in s.env && 1 in Objs(s.env[b])
    requires x !in t.Watched() && x !in CLIENT_NAMES && !Calls(value) && AliasRoots(value) !! t.Watched()
    requires !RequestShaped(value)
    ensures Step(ctx, Assign(x, value, THERE, false), t, t', s, s') && t' == t.(values := t'.values)
    ensures s'.log == s.log && x in s'.env && 1 in Objs(s'.env[x])
  {
    var v := FlowComplete(value, s.env, s.issued, ctx.world, b, 1);
    t', s' := PlainStep(ctx, x, value, t, s, v);
  }

  lemma UnseenAssign(ctx: Context, x: string, value: Expr, t: Tables)
    requires x !in t.Watched() && x !in CLIENT_NAMES && !RequestShaped(value) && AliasRoots(value) !! t.Watched()
    ensures var t' := WalkAssign(x, value, THERE, t, ctx).0;
      t'.clients == t.clients && t'.tainted == t.tainted && t'.responses == t.responses && t'.requests == t.requests
  {
    if value.Name? {
      assert AliasRoots(value) == {value.id};
    }
  }

  /** `x()` */
  function Run(x: string): Expr {
    Call(Name(x), [], [])
  }

  lemma RunNames(x: string)
    ensures ExecNames(Run(x)) == {x} && Names(Run(x)) == {x} && Calls(Run(x)) && Hands(Run(x))
    ensures forall links: Links, w: Setting :: x in Vals(Run(x), links, w) && Exposes(Run(x), links, w, x)
    ensures forall links: Links, w: Setting, n :: n in links(x) ==> n in Late(Run(x), links, w)
  {
    var e := Run(x);
    NameSets(x);
    assert Children(e) == [Name(x)];
    assert x in ExecNames(Children(e)[0]) && x in Names(Children(e)[0]);
    forall links: Links, w: Setting
      ensures x in Vals(e, links, w) && Exposes(e, links, w, x) && forall n :: n in links(x) ==> n in Late(e, links, w)
    {
      assert Parts(e, w) == [Name(x)] && Parts(e, w)[0] == Name(x);
      PartVals(e, 0, links, w);
      PartLate(e, 0, links, w);
    }
  }

  lemma RunTakes(ctx: Context, x: string)
    requires Free(x) && Ordinary(ctx, x)
    ensures Takes(ctx, Run(x), x)
  {
    RunNames(x);
  }

  /** `x = reply.attr`, then `x()`: a bound method holds its receiver, and an attribute has no alias roots. */
  lemma BoundMethod(ctx: Context, attr: string, x: string)
    requires attr !in ctx.world.inert && attr != "__class__" && attr != "__dict__"
    requires Free(x) && Ordinary(ctx, x)
    ensures Leaks(ctx, [Assign(x, Attr(Name("reply"), attr), THERE, false)] + [Do(Run(x))])
  {
    AttrVals(attr, "reply", LinksOf(ANSWERED.env, ctx.world), ctx.world);
    RunTakes(ctx, x);
    LostAlias(ctx, Attr(Name("reply"), attr), Run(x), x);
  }

  lemma AttrVals(attr: string, b: string, links: Links, w: Setting)
    requires attr !in w.inert && attr != "__class__" && attr != "__dict__"
    ensures var e := Attr(Name(b), attr); b in Vals(e, links, w) && !Calls(e) && AliasRoots(e) == {}
  {
    var e := Attr(Name(b), attr);
    NameSets(b);
    assert Children(e) == [Name(b)] && Parts(e, w)[0] == Name(b);
    PartVals(e, 0, links, w);
  }

  /** `x = (reply,) + ()`, then `f(x)`. */
  lemma SummedAlias(ctx: Context, f: string, x: string)
    requires Free(x) && Free(f) && Ordinary(ctx, f)
    ensures Leaks(ctx, [Assign(x, Add(Tuple([Name("reply")]), Tuple([])), THERE, false)] + [Do(Hand(f, x))])
  {
    var one, none := Tuple([Name("reply")]), Tuple([]);
    SumVals(ctx, one, none, "reply", LinksOf(ANSWERED.env, ctx.world));
    HandTakes(ctx, f, x);
    LostAlias(ctx, Add(one, none), Hand(f, x), x);
  }

  lemma SumVals(ctx: Context, one: Expr, none: Expr, b: string, links: Links)
    requires one == Tuple([Name(b)]) && none == Tuple([])
    ensures b in Vals(Add(one, none), links, ctx.world) && !Calls(Add(one, none)) && AliasRoots(Add(one, none)) == {}
  {
    var e := Add(one, none);
    NameSets(b);
    assert Children(e) == [one, none] && Children(one) == [Name(b)] && Children(none) == [];
    assert !Calls(one) && !Calls(none);
    PartVals(one, 0, links, ctx.world);
    PartVals(e, 0, links, ctx.world);
  }

  /** `x = lambda r=reply: r`, then `x()`: the defaults of a lambda are not among its alias roots. */
  lemma LambdaDefault(ctx: Context, r: string, x: string)
    requires Free(x) && Ordinary(ctx, x)
    ensures Leaks(ctx, [Assign(x, Lambda({r}, [Name("reply")], Name(r)), THERE, false)] + [Do(Run(x))])
  {
    DefaultVals(ctx, r, "reply", LinksOf(ANSWERED.env, ctx.world));
    RunTakes(ctx, x);
    LostAlias(ctx, Lambda({r}, [Name("reply")], Name(r)), Run(x), x);
  }

  lemma DefaultVals(ctx: Context, r: string, b: string, links: Links)
    ensures var e := Lambda({r}, [Name(b)], Name(r));
      b in Vals(e, links, ctx.world) && !Calls(e) && AliasRoots(e) == {}
  {
    var e := Lambda({r}, [Name(b)], Name(r));
    NameSets(b);
    NameSets(r);
    assert Evaluated(e) == [Name(b)] && Parts(e, ctx.world)[0] == Name(b);
    PartVals(e, 0, links, ctx.world);
  }

  /** `x = await reply`, then `f(x)`: awaiting runs code of the response, and the target is not tainted. */
  lemma AwaitedAlias(ctx: Context, f: string, x: string, b: string)
    requires Free(x) && Free(f) && Ordinary(ctx, f) && b == "reply"
    ensures Leaks(ctx, [Assign(x, Await(Name(b)), THERE, false)] + [Do(Hand(f, x))])
  {
    var t, s := AwaitStep(ctx, x, b, ASKED, ANSWERED);
    HandTakes(ctx, f, x);
    HoldLeak(ctx, Assign(x, Await(Name(b)), THERE, false), t, s, Hand(f, x), x);
  }

  lemma AwaitStep(ctx: Context, x: string, b: string, t: Tables, s: State) returns (t': Tables, s': State)
    requires x !in t.Watched() && x !in CLIENT_NAMES
    requires b in s.env && 1 in Objs(s.env[b]) && Aside(s.log, 1) && |s.log| > 0
    ensures Step(ctx, Assign(x, Await(Name(b)), THERE, false), t, t', s, s') && t' == t.(values := t'.values)
    ensures s.log <= s'.log && Aside(s'.log, 1) && x in s'.env && 1 in Objs(s'.env[x])
  {
    AwaitVals(ctx, b);
    t' := WalkAssign(x, Await(Name(b)), THERE, t, ctx).0;
    s' := AwaitedRun(ctx, x, s, b);
    UnseenAssign(ctx, x, Await(Name(b)), t);
  }

  lemma AwaitVals(ctx: Context, b: string)
    ensures var e := Await(Name(b)); Calls(e) && AliasRoots(e) == {} && !RequestShaped(e)
    ensures forall links: Links, w: Setting :: b in Vals(Await(Name(b)), links, w)
  {
    forall links: Links, w: Setting ensures b in Vals(Await(Name(b)), links, w) {
      assert Parts(Await(Name(b)), w)[0] == Name(b);
      PartVals(Await(Name(b)), 0, links, w);
    }
  }

  lemma AwaitedRun(ctx: Context, x: string, s: State, b: string) returns (s': State)
    requires b in s.env && 1 in Objs(s.env[b]) && Aside(s.log, 1) && |s.log| > 0
    ensures ExecStmt(Assign(x, Await(Name(b)), THERE, false), ctx, s, s', Fell)
    ensures s.log <= s'.log && Aside(s'.log, 1) && x in s'.env && 1 in Objs(s'.env[x])
  {
    AwaitVals(ctx, b);
    s' := AwaitRuns(ctx, x, Await(Name(b)), s, b, 1);
  }

  lemma AwaitRuns(ctx: Context, x: string, e: Expr, s: State, b: string, o: nat) returns (s': State)
    requires b in Vals(e, LinksOf(s.env, ctx.world), ctx.world) && !RequestShaped(e) && b in s.env &&
      o in Objs(s.env[b])
    ensures ExecStmt(Assign(x, e, THERE, false), ctx, s, s', Fell)
    ensures s'.log == s.log + HandOver(e, s, ctx) && x in s'.env && o in Objs(s'.env[x])
  {
    var v := FlowComplete(e, s.env, s.issued, ctx.world, b, o);
    s' := Told(s, e, ctx).(env := s.env[x := v]);
  }

  /** Spans and settlement of one statement and a bare call after it. */
  lemma PairAdmissible(ctx: Context, stmt: Stmt, t: Tables, e: Expr)
    requires DistinctIn(stmt) && SpansOf(stmt) !! {CALL, CHECK} && SettledStmt(stmt, ASKED, ctx)
    requires WalkStmt(stmt, ASKED, ctx) == (t, false)
    ensures Admissible(ctx, Around([stmt] + [Do(e)]))
  {
    OneSpan(stmt);
    OneSpan(Do(e));
    SpansJoin([stmt], [Do(e)]);
    SettledOne(ctx, stmt, ASKED);
    SettledOne(ctx, Do(e), t);
    SettledJoin(ctx, [stmt], [Do(e)], ASKED);
    AroundAdmissible(ctx, [stmt] + [Do(e)]);
  }

  /** Binding a name to the response. */
  lemma AliasStep(ctx: Context, x: string, annotated: bool, t: Tables, s: State)
    requires x !in t.Watched() && "reply" in s.env
    ensures Step(ctx, Assign(x, Name("reply"), THERE, annotated), t, WalkAssign(x, Name("reply"), THERE, t, ctx).0,
                 s, s.(env := s.env[x := s.env["reply"]]))
  {
    NameSets("reply");
    AssignStep(ctx, x, Name("reply"), THERE, annotated, t, s, s.env["reply"]);
  }

  // ----- Branches -----

  /** A run takes the branch of an `if` whose condition makes no call. */
  lemma BranchRun(ctx: Context, test: Expr, body: seq<Stmt>, v: Val, s: State, s': State)
    requires Evaluates(test, s.env, s.issued, ctx.world, v) && TruthIs(v, true) && !Calls(test)
    requires ExecBlock(body, ctx, s, s', Fell)
    ensures ExecStmt(If(test, body, []), ctx, s, s', Fell)
  {
    QuietTold(ctx, test, s);
  }

  /** A name that is no variable may be true. */
  lemma FlagRun(ctx: Context, flag: string, stmt: Stmt, s: State, s': State)
    requires flag !in s.env && ExecStmt(stmt, ctx, s, s', Fell)
    ensures ExecStmt(If(Name(flag), [stmt] + [], []), ctx, s, s', Fell)
  {
    NameSets(flag);
    ExecOne(ctx, stmt, s, s');
    var w := ctx.world;
    var v := if flag in w.functions then VFun(w.functions[flag], []) else VLit(Bool(true));
    assert Evaluates(Name(flag), s.env, s.issued, w, v);
    BranchRun(ctx, Name(flag), [stmt] + [], v, s, s');
  }

  /** An undecided branch of one statement that passes the control-flow check. */
  lemma FlagWalk(ctx: Context, flag: string, stmt: Stmt, t: Tables)
    requires flag !in t.values && !AffectsOne(stmt, t.Watched())
    ensures WalkStmt(If(Name(flag), [stmt] + [], []), t, ctx) == (Poison(t, AssignedOne(stmt)), false)
  {
    assert StaticTruth(Name(flag), t.values).None?;
    assert [stmt] + [] == [stmt];
    assert !Affects([stmt], t.Watched()) && !Affects([], t.Watched());
    OneAssigned(stmt);
    assert Assigned([]) == {};
    assert Assigned([stmt]) + {} == AssignedOne(stmt);
  }

  lemma OneAssigned(stmt: Stmt)
    ensures Assigned([stmt]) == AssignedOne(stmt)
  {
    forall n | n in AssignedOne(stmt) ensures n in Assigned([stmt]) {
      assert n in AssignedOne([stmt][0]);
    }
  }

  lemma FlagSettled(ctx: Context, flag: string, stmt: Stmt, t: Tables)
    requires flag !in t.values && DistinctIn(stmt) && SettledStmt(stmt, t, ctx)
    ensures var whole := If(Name(flag), [stmt] + [], []);
      DistinctIn(whole) && SettledStmt(whole, t, ctx) && SpansOf(whole) == SpansOf(stmt)
  {
    assert [stmt] + [] == [stmt];
    OneSpan(stmt);
    assert StaticTruth(Name(flag), t.values).None?;
  }

  /** `if flag: x: T = reply`, then `f(x)`: the control-flow check does not look at annotated values. */
  lemma AnnotatedAlias(ctx: Context, flag: string, f: string, x: string)
    requires Free(x) && Free(f) && Ordinary(ctx, f) && Free(flag)
    ensures Leaks(ctx, [If(Name(flag), [Assign(x, Name("reply"), THERE, true)] + [], [])] + [Do(Hand(f, x))])
  {
    var stmt, t := If(Name(flag), [Assign(x, Name("reply"), THERE, true)] + [], []), Poison(ASKED, {x});
    var s := ANSWERED.(env := ANSWERED.env[x := VObj(1)]);
    FlagAlias(ctx, flag, x, ASKED, ANSWERED, s);
    PoisonKnows(x, ASKED);
    HandTakes(ctx, f, x);
    HoldLeak(ctx, stmt, t, s, Hand(f, x), x);
  }

  lemma FlagAlias(ctx: Context, flag: string, x: string, t: Tables, s: State, s': State)
    requires flag !in t.values && flag !in s.env && x !in t.Watched()
    requires "reply" in s.env && s' == s.(env := s.env[x := s.env["reply"]])
    ensures var stmt := If(Name(flag), [Assign(x, Name("reply"), THERE, true)] + [], []);
      && Step(ctx, stmt, t, Poison(t, {x}), s, s')
      && DistinctIn(stmt) && SpansOf(stmt) == {THERE} && SettledStmt(stmt, t, ctx)
  {
    var alias := Assign(x, Name("reply"), THERE, true);
    AliasStep(ctx, x, true, t, s);
    FlagRun(ctx, flag, alias, s, s');
    AnnotatedPasses(x, t);
    FlagWalk(ctx, flag, alias, t);
    FlagSettled(ctx, flag, alias, t);
  }

  lemma PoisonKnows(x: string, t: Tables)
    requires t == ASKED && Free(x)
    ensures StillKnows(Poison(t, {x})) && Poison(t, {x}).Watched() == {"client", "reply"}
  {
    assert t.responses - {x} == t.responses;
  }

  lemma AnnotatedPasses(x: string, t: Tables)
    requires x !in t.Watched()
    ensures !AffectsOne(Assign(x, Name("reply"), THERE, true), t.Watched())
  {
    assert !MentionsInCall(Name("reply"), t.Watched()) by {
      assert Children(Name("reply")) == [];
    }
  }

  /** `if True: x = reply`, then `f(x)`: the alias is known only on the copies. */
  lemma AliasOnCopies(ctx: Context, f: string, x: string)
    requires Free(x) && Free(f) && Ordinary(ctx, f)
    ensures Leaks(ctx, [If(Const(Bool(true)), [Assign(x, Name("reply"), THERE, false)] + [], [])] + [Do(Hand(f, x))])
  {
    var alias := Assign(x, Name("reply"), THERE, false);
    var stmt := If(Const(Bool(true)), [alias] + [], []);
    var s := ANSWERED.(env := ANSWERED.env[x := VObj(1)]);
    CopiedAlias(ctx, x, ASKED, ANSWERED, s);
    HandTakes(ctx, f, x);
    HoldLeak(ctx, stmt, ASKED, s, Hand(f, x), x);
  }

  lemma CopiedAlias(ctx: Context, x: string, t: Tables, s: State, s': State)
    requires t == ASKED && Free(x) && "reply" in s.env && s' == s.(env := s.env[x := s.env["reply"]])
    ensures var stmt := If(Const(Bool(true)), [Assign(x, Name("reply"), THERE, false)] + [], []);
      && Step(ctx, stmt, t, t, s, s')
      && DistinctIn(stmt) && SpansOf(stmt) == {THERE} && SettledStmt(stmt, t, ctx)
  {
    var alias := Assign(x, Name("reply"), THERE, false);
    AliasStep(ctx, x, false, t, s);
    DecidedRun(ctx, alias, s, s');
    CopiedWalk(ctx, alias, t);
    CopiedSettled(ctx, alias, t);
  }

  lemma OneStep(ctx: Context, stmt: Stmt, t: Tables, t': Tables, s: State, s': State)
    requires Step(ctx, stmt, t, t', s, s')
    ensures Steps(ctx, [stmt], t, t', s, s')
  {
    NoSteps(ctx, t', s');
    StepsMore(ctx, stmt, [], t, t', t', s, s', s');
    assert [stmt] + [] == [stmt];
  }

  /** A run of a decided branch of one statement. */
  lemma DecidedRun(ctx: Context, stmt: Stmt, s: State, s': State)
    requires ExecStmt(stmt, ctx, s, s', Fell)
    ensures ExecStmt(If(Const(Bool(true)), [stmt] + [], []), ctx, s, s', Fell)
  {
    ExecOne(ctx, stmt, s, s');
    TrueTest(ctx, s);
    BranchRun(ctx, Const(Bool(true)), [stmt] + [], VLit(Bool(true)), s, s');
  }

  /** A decided branch of one statement leaves the enclosing tables, unless it records a request. */
  lemma CopiedWalk(ctx: Context, stmt: Stmt, t: Tables)
    requires !WalkStmt(stmt, t, ctx).1 && WalkStmt(stmt, t, ctx).0.requests == t.requests
    ensures WalkStmt(If(Const(Bool(true)), [stmt] + [], []), t, ctx) == (t, false)
  {
    WalkOnly(ctx, stmt, t);
    DecidedTrue(ctx, [stmt] + [], t);
  }

  lemma CopiedSettled(ctx: Context, stmt: Stmt, t: Tables)
    requires DistinctIn(stmt) && SettledStmt(stmt, t, ctx) && AssignedOne(stmt) !! t.values.Keys
    ensures SettledStmt(If(Const(Bool(true)), [stmt] + [], []), t, ctx)
    ensures DistinctIn(If(Const(Bool(true)), [stmt] + [], []))
    ensures SpansOf(If(Const(Bool(true)), [stmt] + [], [])) == SpansOf(stmt)
  {
    assert [stmt] + [] == [stmt];
    SettledOne(ctx, stmt, t);
    OneSpan(stmt);
    OneAssigned(stmt);
  }

  lemma TrueTest(ctx: Context, s: State)
    ensures !Calls(Const(Bool(true)))
    ensures Evaluates(Const(Bool(true)), s.env, s.issued, ctx.world, VLit(Bool(true)))
  {
    assert Children(Const(Bool(true))) == [];
  }

  lemma ExecOne(ctx: Context, stmt: Stmt, s: State, s': State)
    requires ExecStmt(stmt, ctx, s, s', Fell)
    ensures ExecBlock([stmt] + [], ctx, s, s', Fell)
  {
    assert ([stmt] + [])[0] == stmt && ([stmt] + [])[1..] == [];
    assert ExecBlock([], ctx, s', s', Fell);
  }

  lemma WalkOnly(ctx: Context, stmt: Stmt, t: Tables)
    requires !WalkStmt(stmt, t, ctx).1
    ensures WalkBlock([stmt] + [], t, ctx) == WalkStmt(stmt, t, ctx)
  {
    assert ([stmt] + [])[0] == stmt && ([stmt] + [])[1..] == [];
  }

  lemma DecidedTrue(ctx: Context, branch: seq<Stmt>, t: Tables)
    ensures var (b, stopped) := WalkBlock(branch, t, ctx);
      WalkStmt(If(Const(Bool(true)), branch, []), t, ctx) == (t.(requests := b.requests), stopped)
  {
    assert StaticTruth(Const(Bool(true)), t.values) == Some(true);
  }

  // ----- Calls that the walk does not look at -----

  /** One statement that hands the response to a call, though the walk goes on knowing it. */
  lemma OneLeak(ctx: Context, stmt: Stmt, t: Tables, s: State, k: nat)
    requires Step(ctx, stmt, ASKED, t, ANSWERED, s) && StillKnows(t)
    requires ANSWERED.log <= s.log && Aside(s.log, 1) && 1 < k < |s.log| && s.log[k].Handed? && 1 in s.log[k].objs
    requires DistinctIn(stmt) && SpansOf(stmt) !! {CALL, CHECK} && SettledStmt(stmt, ASKED, ctx)
    ensures Leaks(ctx, [stmt])
  {
    OneStep(ctx, stmt, ASKED, t, ANSWERED, s);
    var s' := LeakShows(ctx, [stmt], t, s, k);
    OneSpan(stmt);
    SettledOne(ctx, stmt, ASKED);
    AroundAdmissible(ctx, [stmt]);
  }

  /** A call under the expression is given the response once the request was answered. */
  ghost predicate Gets(ctx: Context, e: Expr, b: string) {
    b == "reply" && Exposes(e, LinksOf(ANSWERED.env, ctx.world), ctx.world, b)
  }

  lemma ReplyHanded(ctx: Context, e: Expr, s: State, b: string)
    requires Gets(ctx, e, b) && s.env == ANSWERED.env
    ensures Calls(e) && b in Given(e, SightOf(s, ctx), ctx.world)
    ensures var objs := ObjsOf(Given(e, SightOf(s, ctx), ctx.world), s.env);
      1 in objs && HandOver(e, s, ctx) == [Handed(objs)]
  {
    if !Calls(e) {
      FreesNothing(e, LinksOf(s.env, ctx.world), ctx.world, b);
    }
    assert 1 in Objs(s.env[b]);
  }

  lemma ToldOnce(ctx: Context, e: Expr, s: State, b: string) returns (s': State)
    requires Gets(ctx, e, b) && s == ANSWERED
    ensures s' == Told(s, e, ctx) && |s'.log| == 3 && s.log <= s'.log && s'.log[2].Handed? && 1 in s'.log[2].objs
  {
    s' := Told(s, e, ctx);
    ReplyHanded(ctx, e, s, b);
  }

  /** One statement that makes the calls of `e`, and that the walk passes over. */
  lemma TellsLeak(ctx: Context, stmt: Stmt, e: Expr, b: string)
    requires Gets(ctx, e, b) && Step(ctx, stmt, ASKED, ASKED, ANSWERED, Told(ANSWERED, e, ctx))
    requires DistinctIn(stmt) && SpansOf(stmt) !! {CALL, CHECK} && SettledStmt(stmt, ASKED, ctx)
    ensures Leaks(ctx, [stmt])
  {
    var s := ToldOnce(ctx, e, ANSWERED, b);
    OneLeak(ctx, stmt, ASKED, s, 2);
  }

  /** A bare expression that the walk leaves the tables alone for. */
  lemma OverlookedLeak(ctx: Context, e: Expr, b: string)
    requires Gets(ctx, e, b) && WalkDo(e, ASKED, ctx) == (ASKED, false)
    ensures Leaks(ctx, [Do(e)])
  {
    TellsLeak(ctx, Do(e), e, b);
  }

  /** `f(lambda: reply)`: names inside a lambda are not among those that a bare call is taken to mention. */
  lemma HandedInLambda(ctx: Context, f: string, b: string)
    requires Free(f) && Ordinary(ctx, f) && b == "reply"
    ensures Leaks(ctx, [Do(Call(Name(f), [Lambda({}, [], Name(b))], []))])
  {
    var e := Call(Name(f), [Lambda({}, [], Name(b))], []);
    LambdaNames(ctx, f, b);
    HandKept(ctx, e, ASKED);
    OverlookedLeak(ctx, e, b);
  }

  lemma LambdaNames(ctx: Context, f: string, b: string)
    requires b == "reply"
    ensures var e := Call(Name(f), [Lambda({}, [], Name(b))], []); ExecNames(e) == {f} && Gets(ctx, e, b)
  {
    LambdaGiven(f, b, LinksOf(ANSWERED.env, ctx.world), ctx.world);
  }

  lemma LambdaGiven(f: string, y: string, links: Links, w: Setting)
    ensures var e := Call(Name(f), [Lambda({}, [], Name(y))], []);
      ExecNames(e) == {f} && Exposes(e, links, w, y) && Frees(e, links, w, y)
  {
    var late := Lambda({}, [], Name(y));
    var e := Call(Name(f), [late], []);
    assert Children(e) == [Name(f), late] && Parts(e, w) == [Name(f), late];
    NameSets(f);
    NameSets(y);
    assert f in ExecNames(Children(e)[0]);
    assert y in Late(Parts(e, w)[1], links, w);
    PartLate(e, 1, links, w);
  }

  /** `(f(reply),)`: only an expression that is itself a call is looked at. */
  lemma HandedInTuple(ctx: Context, f: string, b: string)
    requires Free(f) && b == "reply"
    ensures Leaks(ctx, [Do(Tuple([Hand(f, b)]))])
  {
    HandNames(f, b);
    TupledCall(ctx, Hand(f, b), b, ASKED);
    OverlookedLeak(ctx, Tuple([Hand(f, b)]), b);
  }

  lemma TupledCall(ctx: Context, call: Expr, b: string, t: Tables)
    requires Gets(ctx, call, b)
    ensures Gets(ctx, Tuple([call]), b) && WalkDo(Tuple([call]), t, ctx) == (t, false)
  {
    var e := Tuple([call]);
    assert Evaluated(e)[0] == call;
    assert !Terminator(e) && !MutationCall(e, t.Watched()) && !SafeClientCleanup(e, t.clients);
  }

  /** `client.post("/x", reply)`: a bare request is taken to leave every response alone. */
  lemma HandedToRequest(ctx: Context, b: string, client: string, path: string)
    requires b == "reply" && client == "client" && path == "/x"
    ensures Leaks(ctx, [Do(Call(Attr(Name(client), "post"), [Const(Str(path)), Name(b)], []))])
  {
    var e := Call(Attr(Name(client), "post"), [Const(Str(path)), Name(b)], []);
    PostExposes(ctx, e, client, path, b);
    PostKept(ctx, e, client, path, b, ASKED);
    OverlookedLeak(ctx, e, b);
  }

  lemma PostExposes(ctx: Context, e: Expr, client: string, path: string, b: string)
    requires e == Call(Attr(Name(client), "post"), [Const(Str(path)), Name(b)], []) && b == "reply"
    ensures Gets(ctx, e, b)
  {
    assert Parts(e, ctx.world)[2] == Name(b);
    PartVals(e, 2, LinksOf(ANSWERED.env, ctx.world), ctx.world);
  }

  lemma PostKept(ctx: Context, e: Expr, client: string, path: string, b: string, t: Tables)
    requires e == Call(Attr(Name(client), "post"), [Const(Str(path)), Name(b)], []) && client in t.clients
    requires client == "client" && path == "/x"
    ensures WalkDo(e, t, ctx) == (t, false)
  {
    assert AsciiLower("post") == "post";
    assert AsciiUpper("post") == "POST" && AsciiUpper("POST") == "POST";
    assert CallRequest(e, t.values, t.clients) == Some(("POST", [Known(Str(path))]));
    assert DottedName(e.func) == Some(client + "." + "post");
    assert (client + "." + "post")[0] == 'c';
    assert !Terminator(e) && !MutationCall(e, t.Watched()) && !SafeClientCleanup(e, t.clients);
  }

  /** `x = f(reply)`: an assigned call taints its target and leaves the response in place. */
  lemma AssignedCall(ctx: Context, f: string, x: string, b: string)
    requires Free(f) && Free(x) && b == "reply"
    ensures Leaks(ctx, [Assign(x, Hand(f, b), THERE, false)])
  {
    HandNames(f, b);
    TaintedWalk(ctx, f, x, b, ASKED);
    AssignedLeak(ctx, Hand(f, b), x, b);
  }

  lemma AssignedLeak(ctx: Context, e: Expr, x: string, b: string)
    requires !RequestShaped(e) && Gets(ctx, e, b)
    requires var w := WalkAssign(x, e, THERE, ASKED, ctx);
      !w.1 && w.0.responses == ASKED.responses && w.0.requests == ASKED.requests
    ensures Leaks(ctx, [Assign(x, e, THERE, false)])
  {
    var s := AssignedRun(ctx, e, x, ANSWERED, b);
    OneLeak(ctx, Assign(x, e, THERE, false), WalkAssign(x, e, THERE, ASKED, ctx).0, s, 2);
  }

  lemma AssignedRun(ctx: Context, e: Expr, x: string, s: State, b: string) returns (s': State)
    requires !RequestShaped(e) && Gets(ctx, e, b) && s == ANSWERED
    ensures ExecStmt(Assign(x, e, THERE, false), ctx, s, s', Fell)
    ensures |s'.log| == 3 && s.log <= s'.log && s'.log[2].Handed? && 1 in s'.log[2].objs
  {
    var v := SomeValue(e, s.env, s.issued, ctx.world);
    ReplyHanded(ctx, e, s, b);
    s' := Told(s, e, ctx).(env := s.env[x := v]);
  }

  lemma TaintedWalk(ctx: Context, f: string, x: string, b: string, t: Tables)
    requires x !in t.Watched() && b in t.responses
    ensures !RequestShaped(Hand(f, b))
    ensures var w := WalkAssign(x, Hand(f, b), THERE, t, ctx);
      !w.1 && w.0.responses == t.responses && w.0.requests == t.requests
  {
    var e := Hand(f, b);
    assert Sources(e)[1] == Name(b);
    assert b in AliasRoots(Sources(e)[1]);
    assert b in AliasRoots(e) * t.Watched();
    assert t.responses - {x} == t.responses;
  }

  /** `assert f(reply)`: the walk does not look at the calls of an assertion, and attributes the next one too. */
  lemma HandedInCheck(ctx: Context, f: string, b: string)
    requires Free(f) && b == "reply"
    ensures Leaks(ctx, [Check(Hand(f, b), THERE)])
  {
    HandNames(f, b);
    CheckedLeak(ctx, Hand(f, b), b);
  }

  lemma CheckedLeak(ctx: Context, e: Expr, b: string)
    requires Gets(ctx, e, b)
    ensures Leaks(ctx, [Check(e, THERE)])
  {
    var s := CheckedRun(ctx, e, ANSWERED, b);
    CheckedKnows(e, ASKED);
    OneLeak(ctx, Check(e, THERE), WalkCheck(e, THERE, ASKED), s, 3);
  }

  lemma CheckedRun(ctx: Context, e: Expr, s: State, b: string) returns (s': State)
    requires Gets(ctx, e, b) && s == ANSWERED
    ensures ExecStmt(Check(e, THERE), ctx, s, s', Fell)
    ensures |s'.log| == 4 && s.log <= s'.log && s'.log[2].Checked? && s'.log[3].Handed? && 1 in s'.log[3].objs
  {
    var m := s.(log := s.log + [Checked(THERE, e, s.env)]);
    ReplyHanded(ctx, e, m, b);
    s' := Told(m, e, ctx);
  }

  lemma CheckedKnows(e: Expr, t: Tables)
    requires t == ASKED
    ensures StillKnows(WalkCheck(e, THERE, t))
  {
    assert CHECK != THERE;
  }

  /** Every value has a truth. */
  lemma SomeTruth(v: Val) returns (truth: bool)
    ensures TruthIs(v, truth)
  {
    match v
    case VLit(Str(s)) => truth := |s| > 0;
    case VLit(Int(i)) => truth := i != 0;
    case VLit(Bool(b)) => truth := b;
    case VLit(NoneLit) => truth := false;
    case VTuple(items) => truth := |items| > 0;
    case _ => truth := true;
  }

  /** `if f(reply): ...`: nor does it look at the calls of a condition. */
  lemma HandedInTest(ctx: Context, f: string, b: string)
    requires Free(f) && b == "reply"
    ensures Leaks(ctx, [If(Hand(f, b), [], [])])
  {
    var e := Hand(f, b);
    HandNames(f, b);
    TestRun(ctx, e, ANSWERED);
    TestWalk(ctx, e, ASKED);
    TellsLeak(ctx, If(e, [], []), e, b);
  }

  lemma TestRun(ctx: Context, e: Expr, s: State)
    ensures ExecStmt(If(e, [], []), ctx, s, Told(s, e, ctx), Fell)
  {
    var v := SomeValue(e, s.env, s.issued, ctx.world);
    var truth := SomeTruth(v);
    assert ExecBlock([], ctx, Told(s, e, ctx), Told(s, e, ctx), Fell);
  }

  lemma TestWalk(ctx: Context, e: Expr, t: Tables)
    requires e.Call?
    ensures WalkStmt(If(e, [], []), t, ctx) == (t, false) && SettledStmt(If(e, [], []), t, ctx)
    ensures DistinctIn(If(e, [], [])) && SpansOf(If(e, [], [])) == {}
  {
    var none: seq<Stmt> := [];
    assert StaticTruth(e, t.values).None?;
    assert !Affects(none, t.Watched()) && Assigned(none) + Assigned(none) == {};
    NothingPoisoned(t);
  }

  /** `if True: f(reply)`: the response is forgotten only on the copies. */
  lemma HandedOnCopies(ctx: Context, f: string, b: string)
    requires Free(f) && Ordinary(ctx, f) && b == "reply"
    ensures Leaks(ctx, [If(Const(Bool(true)), [Do(Hand(f, b))] + [], [])])
  {
    var e := Hand(f, b);
    HandNames(f, b);
    CopiedDo(ctx, e, ASKED, ANSWERED);
    TellsLeak(ctx, If(Const(Bool(true)), [Do(e)] + [], []), e, b);
  }

  lemma CopiedDo(ctx: Context, e: Expr, t: Tables, s: State)
    requires e.Call? && e.func.Name? && Ordinary(ctx, e.func.id) && ExecNames(e) !! t.tainted + t.clients
    ensures var stmt := If(Const(Bool(true)), [Do(e)] + [], []);
      && Step(ctx, stmt, t, t, s, Told(s, e, ctx))
      && DistinctIn(stmt) && SpansOf(stmt) == {} && SettledStmt(stmt, t, ctx)
  {
    DecidedRun(ctx, Do(e), s, Told(s, e, ctx));
    HandForgets(ctx, e, t);
    CopiedWalk(ctx, Do(e), t);
    CopiedSettled(ctx, Do(e), t);
  }

  lemma HandForgets(ctx: Context, e: Expr, t: Tables)
    requires e.Call? && e.func.Name? && Ordinary(ctx, e.func.id) && ExecNames(e) !! t.tainted + t.clients
    ensures !WalkDo(e, t, ctx).1 && WalkDo(e, t, ctx).0.requests == t.requests
  {
    assert !RequestShaped(e) && !SafeClientCleanup(e, t.clients);
    assert DottedName(e.func) == Some(e.func.id);
    assert !Terminator(e) && !MutationCall(e, t.Watched());
    assert ExecNames(e) * t.tainted == {} && ExecNames(e) * t.clients == {};
  }

  // ----- Functions that lead to the response -----

  /** `h` is a function of the module or the test, not a variable, and mentions the name. */
  predicate Mentions(ctx: Context, h: string, n: string) {
    h in ctx.world.functions && n in ctx.world.functions[h] && Free(h)
  }

  /** What the value of a function leads to, a call of it gets. */
  lemma RunGets(ctx: Context, h: string, b: string)
    requires b == "reply" && b in Reach(LinksOf(ANSWERED.env, ctx.world), iset{h}) && Free(h)
    ensures Gets(ctx, Run(h), b)
  {
    var links := LinksOf(ANSWERED.env, ctx.world);
    RunNames(h);
    LateReach(Run(h), h, b, links, ctx.world);
  }

  /** What is behind a name, other than the name itself, is behind whatever contains the name. */
  lemma LateReach(e: Expr, h: string, b: string, links: Links, w: Setting)
    requires Draws(e, w) && b in Reach(links, iset{h}) && b != h
    requires forall n :: n in links(h) ==> n in Late(e, links, w)
    ensures b in Late(e, links, w) && b in Vals(e, links, w)
  {
    PartsLate(e, links, w);
    var all := Late(e, links, w) + iset{h};
    assert PySemantics.Closed(links, all);
    ReachLeast(links, iset{h}, all);
  }

  lemma MentionReaches(ctx: Context, h: string, n: string)
    requires Mentions(ctx, h, n)
    ensures n in Reach(LinksOf(ANSWERED.env, ctx.world), iset{h})
  {
    var links := LinksOf(ANSWERED.env, ctx.world);
    ReachCloses(links, iset{h});
    assert n in links(h);
  }

  /** `outer()`: the names in a helper are looked at, those in the helpers that it calls are not. */
  lemma HelperReaches(ctx: Context, outer: string, b: string)
    requires Free(outer) && Plain(outer) && b == "reply" && b in Reach(LinksOf(ANSWERED.env, ctx.world), iset{outer})
    requires outer in ctx.helpers ==> ctx.helpers[outer].names !! {"client", "reply"}
    ensures Leaks(ctx, [Do(Run(outer))])
  {
    RunNames(outer);
    RunGets(ctx, outer, b);
    HandKept(ctx, Run(outer), ASKED);
    OverlookedLeak(ctx, Run(outer), b);
  }

  /** A helper that mentions another helper, which mentions the response. */
  lemma NestedHelper(ctx: Context, outer: string, inner: string, b: string)
    requires Mentions(ctx, outer, inner) && Mentions(ctx, inner, b) && Plain(outer) && b == "reply"
    requires outer in ctx.helpers ==> ctx.helpers[outer].names !! {"client", "reply"}
    ensures Leaks(ctx, [Do(Run(outer))])
  {
    var links := LinksOf(ANSWERED.env, ctx.world);
    MentionReaches(ctx, outer, inner);
    MentionReaches(ctx, inner, b);
    ReachCloses(links, iset{outer});
    ReachLeast(links, iset{inner}, Reach(links, iset{outer}));
    HelperReaches(ctx, outer, b);
  }

  /** `f(h)`: a function that is passed on is a name like any other. */
  lemma FunctionPassed(ctx: Context, f: string, h: string, b: string)
    requires Free(f) && Ordinary(ctx, f) && Mentions(ctx, h, b) && b == "reply"
    ensures Leaks(ctx, [Do(Hand(f, h))])
  {
    PassedGets(ctx, f, h, b);
    HandKept(ctx, Hand(f, h), ASKED);
    OverlookedLeak(ctx, Hand(f, h), b);
  }

  lemma PassedGets(ctx: Context, f: string, h: string, b: string)
    requires Mentions(ctx, h, b) && b == "reply"
    ensures Gets(ctx, Hand(f, h), b) && ExecNames(Hand(f, h)) == {f, h}
  {
    var links := LinksOf(ANSWERED.env, ctx.world);
    HandNames(f, h);
    HandVals(f, h, links, ctx.world);
    MentionReaches(ctx, h, b);
    LateReach(Hand(f, h), h, b, links, ctx.world);
  }

  /** `g(h())`: only the outermost callee is asked what it mentions. */
  lemma CapturedInside(ctx: Context, g: string, h: string, b: string)
    requires Free(g) && Ordinary(ctx, g) && Mentions(ctx, h, b) && b == "reply"
    ensures Leaks(ctx, [Do(Call(Name(g), [Run(h)], []))])
  {
    var e := Call(Name(g), [Run(h)], []);
    InsideGets(ctx, e, g, h, b);
    HandKept(ctx, e, ASKED);
    OverlookedLeak(ctx, e, b);
  }

  lemma InsideGets(ctx: Context, e: Expr, g: string, h: string, b: string)
    requires Mentions(ctx, h, b) && b == "reply" && e == Call(Name(g), [Run(h)], [])
    ensures Gets(ctx, e, b) && ExecNames(e) == {g, h}
  {
    RunNames(h);
    MentionReaches(ctx, h, b);
    RunGets(ctx, h, b);
    NestedNames(e, g, Run(h), h);
    assert Evaluated(e)[1] == Run(h);
  }

  lemma NestedNames(e: Expr, g: string, inner: Expr, h: string)
    requires ExecNames(inner) == {h} && !inner.Lambda? && e == Call(Name(g), [inner], [])
    ensures ExecNames(e) == {g, h}
  {
    NameSets(g);
    assert Children(e) == [Name(g), inner];
    assert g in ExecNames(Children(e)[0]) && h in ExecNames(Children(e)[1]);
  }

  /** `if flag: h()`: the control-flow check looks at names, not at what functions mention. */
  lemma CapturedInBranch(ctx: Context, flag: string, h: string, b: string)
    requires Free(flag) && Mentions(ctx, h, b) && b == "reply"
    ensures Leaks(ctx, [If(Name(flag), [Do(Run(h))] + [], [])])
  {
    MentionReaches(ctx, h, b);
    RunGets(ctx, h, b);
    BarePasses(h, ASKED);
    FlagDo(ctx, flag, Run(h), ASKED, ANSWERED);
    TellsLeak(ctx, If(Name(flag), [Do(Run(h))] + [], []), Run(h), b);
  }

  lemma FlagDo(ctx: Context, flag: string, e: Expr, t: Tables, s: State)
    requires flag !in t.values && flag !in s.env && !AffectsOne(Do(e), t.Watched())
    ensures var stmt := If(Name(flag), [Do(e)] + [], []);
      && Step(ctx, stmt, t, t, s, Told(s, e, ctx))
      && DistinctIn(stmt) && SpansOf(stmt) == {} && SettledStmt(stmt, t, ctx)
  {
    FlagRun(ctx, flag, Do(e), s, Told(s, e, ctx));
    FlagWalk(ctx, flag, Do(e), t);
    NothingPoisoned(t);
    FlagSettled(ctx, flag, Do(e), t);
  }

  lemma NothingPoisoned(t: Tables)
    ensures Poison(t, {}) == t
  {
    assert Poison(t, {}).values == t.values && t.responses - {} == t.responses;
  }

  lemma BarePasses(h: string, t: Tables)
    requires h !in t.Watched()
    ensures !AffectsOne(Do(Run(h)), t.Watched())
  {
    RunNames(h);
    assert Children(Run(h)) == [Name(h)] && Children(Name(h)) == [];
    assert !MentionsInCall(Name(h), t.Watched());
  }

  // ----- Functions that lead to the response later -----

  /** `x = h`, then `x()`: the target of a function is not tainted by what the function mentions. */
  lemma FunctionStored(ctx: Context, x: string, h: string, b: string)
    requires Free(x) && Ordinary(ctx, x) && Mentions(ctx, h, b) && b == "reply"
    ensures Leaks(ctx, [Assign(x, Name(h), THERE, false)] + [Do(Run(x))])
  {
    NameSets(h);
    var t, s := PlainStep(ctx, x, Name(h), ASKED, ANSWERED, VFun(ctx.world.functions[h], []));
    var s' := RunAfter(ctx, Assign(x, Name(h), THERE, false), t, s, x, b);
    PairAdmissible(ctx, Assign(x, Name(h), THERE, false), t, Run(x));
  }

  lemma RunAfter(ctx: Context, stmt: Stmt, t: Tables, s: State, x: string, b: string) returns (s': State)
    requires Step(ctx, stmt, ASKED, t, ANSWERED, s) && Free(x) && Ordinary(ctx, x) && b == "reply"
    requires t.Watched() == {"client", b} && StillKnows(t) && b in s.env && s.env[b] == VObj(1)
    requires ANSWERED.log <= s.log && Aside(s.log, 1) && x in s.env && b in Captures(s.env[x])
    ensures Disturbs(ctx, [stmt] + [Do(Run(x))], s')
  {
    OneStep(ctx, stmt, ASKED, t, ANSWERED, s);
    LinkGets(ctx, x, b, s);
    RunKept(ctx, x, t);
    s' := ThenGiven(ctx, [stmt], t, s, Run(x), b);
  }

  lemma RunKept(ctx: Context, x: string, t: Tables)
    requires Ordinary(ctx, x) && x !in t.Watched()
    ensures WalkDo(Run(x), t, ctx) == (t, false)
  {
    RunNames(x);
    HandKept(ctx, Run(x), t);
  }

  /** Binding a name to a value without alias roots that matter. */
  lemma PlainStep(ctx: Context, x: string, value: Expr, t: Tables, s: State, v: Val) returns (t': Tables, s': State)
    requires x !in t.Watched() && x !in CLIENT_NAMES && !Calls(value) && AliasRoots(value) !! t.Watched()
    requires !RequestShaped(value) && Evaluates(value, s.env, s.issued, ctx.world, v)
    ensures Step(ctx, Assign(x, value, THERE, false), t, t', s, s')
    ensures t' == t.(values := t'.values) && s' == s.(env := s.env[x := v])
  {
    t', s' := WalkAssign(x, value, THERE, t, ctx).0, s.(env := s.env[x := v]);
    AssignStep(ctx, x, value, THERE, false, t, s, v);
    UnseenAssign(ctx, x, value, t);
  }

  /** The tables say of responses what they say right after the request. */
  predicate Recent(t: Tables) {
    t == ASKED.(values := t.values)
  }

  /** A variable that holds a function which mentions `b`. */
  lemma LinkGets(ctx: Context, x: string, b: string, s: State)
    requires b in LinksOf(s.env, ctx.world)(x)
    ensures Calls(Run(x)) && b in Given(Run(x), SightOf(s, ctx), ctx.world)
  {
    RunNames(x);
    assert b in Late(Run(x), LinksOf(s.env, ctx.world), ctx.world);
  }

  const LATER := Span(3, 0, 3, 9)

  /** `x = lambda: y`, `y = reply`, `x()`: a lambda is looked at when it is made, and reads its names when it runs. */
  lemma LateLambda(ctx: Context, x: string, y: string)
    requires Free(x) && Free(y) && x != y && Ordinary(ctx, x)
    ensures Leaks(ctx, [Assign(x, Lambda({}, [], Name(y)), THERE, false)] + [Assign(y, Name("reply"), LATER, false)] +
                       [Do(Run(x))])
  {
    var first := Assign(x, Lambda({}, [], Name(y)), THERE, false);
    LambdaValue(ctx, y, ANSWERED);
    var t1, s1 := PlainStep(ctx, x, first.value, ASKED, ANSWERED, VFun({y}, []));
    OneStep(ctx, first, ASKED, t1, ANSWERED, s1);
    AliasLeak(ctx, first, t1, s1, Run(x), x, y);
  }

  lemma LambdaValue(ctx: Context, y: string, s: State)
    ensures var e := Lambda({}, [], Name(y)); !Calls(e) && AliasRoots(e) == {y}
    ensures Evaluates(Lambda({}, [], Name(y)), s.env, s.issued, ctx.world, VFun({y}, []))
  {
    var e := Lambda({}, [], Name(y));
    NameSets(y);
    assert Evaluated(e) == [] && FreeNames(Name(y)) - {} == {y};
  }

  /** `y = reply` makes `y` another name of the response. */
  lemma AliasAfter(ctx: Context, y: string, t: Tables, s: State) returns (t': Tables, s': State)
    requires Free(y) && Recent(t) && "reply" in s.env
    ensures Step(ctx, Assign(y, Name("reply"), LATER, false), t, t', s, s')
    ensures s' == s.(env := s.env[y := s.env["reply"]])
    ensures StillKnows(t') && t'.Watched() == {"client", "reply", y}
  {
    NameSets("reply");
    t', s' := WalkAssign(y, Name("reply"), LATER, t, ctx).0, s.(env := s.env[y := s.env["reply"]]);
    AssignStep(ctx, y, Name("reply"), LATER, false, t, s, s.env["reply"]);
    assert CallRequest(Name("reply"), t.values, t.clients).None?;
    assert t.clients - {y} == {"client"} && t.tainted - {y} == {};
    assert t'.responses == map["reply" := 0, y := 0];
  }

  /** A function that reads `y` is within reach, `y = reply` follows, and then a call that gets at the function. */
  lemma AliasLeak(ctx: Context, first: Stmt, t: Tables, s: State, e: Expr, x: string, y: string)
    requires Steps(ctx, [first], ASKED, t, ANSWERED, s) && WalkStmt(first, ASKED, ctx) == (t, false) && Recent(t)
    requires !first.If? && SpansOf(first) <= {THERE} && Free(x) && Free(y) && x != y && Ordinary(ctx, x) && e == Run(x)
    requires ANSWERED.log <= s.log && Aside(s.log, 1) && "reply" in s.env && s.env["reply"] == VObj(1)
    requires y in s.escaped || (x in s.env && y in Captures(s.env[x]))
    ensures Leaks(ctx, [first] + [Assign(y, Name("reply"), LATER, false)] + [Do(e)])
  {
    var t2, s2 := AliasAfter(ctx, y, t, s);
    var s' := GotLater(ctx, first, Assign(y, Name("reply"), LATER, false), t, t2, s, s2, x, y);
    TwoAdmissible(ctx, first, Assign(y, Name("reply"), LATER, false), t, t2, e);
  }

  lemma GotLater(ctx: Context, first: Stmt, second: Stmt, t: Tables, t2: Tables, s: State, s2: State, x: string,
                 y: string) returns (s': State)
    requires Steps(ctx, [first], ASKED, t, ANSWERED, s) && Step(ctx, second, t, t2, s, s2)
    requires Free(x) && x != y && Ordinary(ctx, x) && StillKnows(t2) && t2.Watched() == {"client", "reply", y}
    requires ANSWERED.log <= s2.log && Aside(s2.log, 1) && y in s2.env && s2.env[y] == VObj(1)
    requires y in s2.escaped || (x in s2.env && y in Captures(s2.env[x]))
    ensures Disturbs(ctx, [first] + [second] + [Do(Run(x))], s')
  {
    OneStep(ctx, second, t, t2, s, s2);
    StepsJoin(ctx, [first], [second], ASKED, t, t2, ANSWERED, s, s2);
    ReadGets(ctx, x, y, s2);
    RunNames(x);
    HandKept(ctx, Run(x), t2);
    s' := ThenGiven(ctx, [first] + [second], t2, s2, Run(x), y);
  }

  lemma ReadGets(ctx: Context, x: string, y: string, s: State)
    requires y in s.escaped || y in LinksOf(s.env, ctx.world)(x)
    ensures Calls(Run(x)) && y in Given(Run(x), SightOf(s, ctx), ctx.world)
  {
    var links := LinksOf(s.env, ctx.world);
    ReachCloses(links, s.escaped);
    if y in links(x) {
      LinkGets(ctx, x, y, s);
    } else {
      RunNames(x);
    }
  }

  lemma TwoAdmissible(ctx: Context, first: Stmt, second: Stmt, t1: Tables, t2: Tables, e: Expr)
    requires !first.If? && !second.If? && SpansOf(first) <= {THERE} && SpansOf(second) <= {LATER}
    requires WalkStmt(first, ASKED, ctx) == (t1, false) && WalkStmt(second, t1, ctx) == (t2, false)
    ensures Admissible(ctx, Around([first] + [second] + [Do(e)]))
  {
    var middle := [first] + [second];
    TwoSpans(first, second);
    OneSpan(Do(e));
    SpansJoin(middle, [Do(e)]);
    TwoSettled(ctx, first, second, t1, t2);
    SettledOne(ctx, Do(e), t2);
    SettledJoin(ctx, middle, [Do(e)], ASKED);
    AroundAdmissible(ctx, middle + [Do(e)]);
  }

  lemma TwoSpans(first: Stmt, second: Stmt)
    requires !first.If? && !second.If? && SpansOf(first) <= {THERE} && SpansOf(second) <= {LATER}
    ensures DistinctSpans([first] + [second]) && Spans([first] + [second]) !! {CALL, CHECK}
  {
    assert THERE != LATER && CALL != THERE && CALL != LATER && CHECK != THERE && CHECK != LATER;
    OneSpan(first);
    OneSpan(second);
    SpansJoin([first], [second]);
  }

  lemma TwoSettled(ctx: Context, first: Stmt, second: Stmt, t1: Tables, t2: Tables)
    requires !first.If? && !second.If?
    requires WalkStmt(first, ASKED, ctx) == (t1, false) && WalkStmt(second, t1, ctx) == (t2, false)
    ensures Settled([first] + [second], ASKED, ctx) && WalkBlock([first] + [second], ASKED, ctx) == (t2, false)
  {
    SettledOne(ctx, first, ASKED);
    SettledOne(ctx, second, t1);
    SettledJoin(ctx, [first], [second], ASKED);
    assert [first] + [] == [first] && [second] + [] == [second];
    WalkOnly(ctx, first, ASKED);
    WalkOnly(ctx, second, t1);
    WalkJoin(ctx, [first], [second], ASKED);
  }

  /** `f(lambda: y)`, `y = reply`, `g()`: what was given the lambda may call it when `g` runs. */
  lemma LambdaKept(ctx: Context, f: string, g: string, y: string)
    requires Free(f) && Ordinary(ctx, f) && Free(g) && Ordinary(ctx, g) && Free(y) && y != g
    ensures Leaks(ctx, [Do(Call(Name(f), [Lambda({}, [], Name(y))], []))] + [Assign(y, Name("reply"), LATER, false)] +
                       [Do(Run(g))])
  {
    var give := Call(Name(f), [Lambda({}, [], Name(y))], []);
    var s := GiveStep(ctx, f, y, ASKED, ANSWERED);
    OneStep(ctx, Do(give), ASKED, ASKED, ANSWERED, s);
    AliasLeak(ctx, Do(give), ASKED, s, Run(g), g, y);
  }

  lemma GiveStep(ctx: Context, f: string, y: string, t: Tables, s: State) returns (s': State)
    requires f !in t.Watched() && Ordinary(ctx, f) && Aside(s.log, 1) && |s.log| > 0
    ensures Step(ctx, Do(Call(Name(f), [Lambda({}, [], Name(y))], [])), t, t, s, s')
    ensures s'.env == s.env && y in s'.escaped && s.log <= s'.log && Aside(s'.log, 1)
  {
    var e := Call(Name(f), [Lambda({}, [], Name(y))], []);
    LambdaGiven(f, y, LinksOf(s.env, ctx.world), ctx.world);
    HandKept(ctx, e, t);
    s' := Told(s, e, ctx);
    ToldOnly(ctx, e, s);
  }

  lemma ToldOnly(ctx: Context, e: Expr, s: State)
    requires Aside(s.log, 1) && |s.log| > 0
    ensures s.log <= Told(s, e, ctx).log && Aside(Told(s, e, ctx).log, 1)
  {
  }
}
