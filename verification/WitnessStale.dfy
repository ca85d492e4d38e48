/** Decided branches: they are walked on copies of the tables, so an assignment inside one leaves the enclosing
    tables stale. How far the condition of the soundness theorems on such branches is needed. */
module WitnessStale {
  import opened Text
  import opened PyAst
  import opened PySemantics
  import opened Folding
  import opened ApiWalk
  import opened WitnessRuns
  import opened WitnessSoundness
  import opened WitnessLimits

  // ----- Which entries a decided assignment may touch -----

  /** A literal that is none of two others. */
  function Another(a: Lit): Lit {
    if a == Int(0) then Int(1) else Int(0)
  }

  /** The entries that hold whatever constant a variable is given are the open ones. */
  lemma OpenExactly(value: Value, returned: map<nat, Val>)
    ensures (forall lit :: Covers(value, VLit(lit), returned)) <==> Open(value)
  {
    if !Open(value) {
      var lit := Uncovered(value, returned);
    }
  }

  lemma Uncovered(value: Value, returned: map<nat, Val>) returns (lit: Lit)
    requires !Open(value)
    ensures !Covers(value, VLit(lit), returned)
  {
    match value
    case Known(l) => lit := Another(l);
    case Path(_, _) => lit := Int(0);
    case Values(_) => lit := Int(0);
    case Event(request) =>
      lit := if request in returned && returned[request].VLit? then Another(returned[request].lit) else Int(0);
  }

  /** `if True: x = lit` */
  function Rebind(x: string, lit: Lit): Stmt {
    If(Const(Bool(true)), [Assign(x, Const(lit), THERE, false)] + [], [])
  }

  lemma ConstSets(ctx: Context, lit: Lit)
    ensures !Calls(Const(lit)) && AliasRoots(Const(lit)) == {}
  {
    assert Children(Const(lit)) == [];
  }

  /** The walk does not see the assignment, the run makes it. */
  lemma RebindStep(ctx: Context, x: string, lit: Lit, t: Tables, s: State)
    requires x !in t.Watched()
    ensures Step(ctx, Rebind(x, lit), t, t, s, s.(env := s.env[x := VLit(lit)]))
  {
    var e, s' := Const(lit), s.(env := s.env[x := VLit(lit)]);
    var stmt := Assign(x, e, THERE, false);
    ConstSets(ctx, lit);
    assert !RequestShaped(e);
    AssignStep(ctx, x, e, THERE, false, t, s, VLit(lit));
    DecidedRun(ctx, stmt, s, s');
    CopiedWalk(ctx, stmt, t);
  }

  /** Wherever the enclosing table says something about `x`, a decided branch can make it false: some constant
      assigned there is one that the table does not cover afterwards. */
  lemma RebindUncovers(ctx: Context, x: string, t: Tables, s: State, returned: map<nat, Val>) returns (lit: Lit)
    requires x !in t.Watched() && x in t.values && !Open(t.values[x])
    ensures var s' := s.(env := s.env[x := VLit(lit)]);
      Step(ctx, Rebind(x, lit), t, t, s, s') && !TableCovers(t.values, s'.env, returned)
  {
    lit := Uncovered(t.values[x], returned);
    RebindStep(ctx, x, lit, t, s);
    var env := s.env[x := VLit(lit)];
    assert x in env && !Covers(t.values[x], env[x], returned);
  }

  // ----- A stale path -----

  const HERE := Span(0, 0, 0, 9)

  /** `client.get(p)` */
  function FetchBy(p: string): Expr {
    Call(Attr(Name("client"), "get"), [Name(p)], [])
  }

  /** `p = "/a"`, `p = "/b"` under `if True`, `reply = client.get(p)`, `assert reply.ok` */
  function StaleBody(p: string): seq<Stmt> {
    [Assign(p, Const(Str("/a")), HERE, false)] + ([Rebind(p, Str("/b"))] + Ending(p))
  }

  function Ending(p: string): seq<Stmt> {
    [Assign("reply", FetchBy(p), CALL, false)] + ([Check(TEST, CHECK)] + [])
  }

  /** The tables once `p` is known to be `/a`. */
  function KnownA(p: string): Tables {
    Tables(map[p := Known(Str("/a"))], {"client"}, {}, map[], [])
  }

  function Is(p: string, text: string): State {
    State(map["client" := VObj(0), p := VLit(Str(text))], {0}, [], iset{})
  }

  function Stale(p: string): Tables {
    Tables(map[p := Known(Str("/a")), "reply" := Event(0)], {"client"}, {}, map["reply" := 0], [SENT])
  }

  const FETCHED_B := Called(CALL, VLit(Str("GET")), VLit(Str("/b")), VObj(1), true)

  function GotB(p: string): State {
    State(map["client" := VObj(0), p := VLit(Str("/b")), "reply" := VObj(1)], {0, 1}, [FETCHED_B, Handed({0})],
          iset{})
  }

  lemma BindStep(ctx: Context, p: string)
    requires Free(p)
    ensures Step(ctx, Assign(p, Const(Str("/a")), HERE, false), START, KnownA(p), BEFORE, Is(p, "/a"))
  {
    var e, t := Const(Str("/a")), START;
    ConstSets(ctx, Str("/a"));
    assert !RequestShaped(e);
    AssignStep(ctx, p, e, HERE, false, t, BEFORE, VLit(Str("/a")));
    PlainWalk(ctx, p, e, t);
    assert t.values - {p} == map[] && t.tainted - {p} == {} && t.responses - {p} == map[];
  }

  lemma PlainWalk(ctx: Context, x: string, e: Expr, t: Tables)
    requires x !in t.Watched() && x !in CLIENT_NAMES && e.Const?
    ensures WalkAssign(x, e, HERE, t, ctx).0 ==
      Tables((t.values - {x})[x := Known(e.lit)], t.clients, t.tainted - {x}, t.responses - {x}, t.requests)
  {
    ConstSets(ctx, e.lit);
    assert !RequestShaped(e);
  }

  lemma FetchByShape(p: string, values: Table)
    requires p in values && values[p] == Known(Str("/a"))
    ensures RequestShaped(FetchBy(p)) && PathArgument(FetchBy(p)) == 0
    ensures SentVerb(FetchBy(p), [VLit(Str("/b"))]) == VLit(Str("GET"))
    ensures CallRequest(FetchBy(p), values, {"client"}) == Some(("GET", [Known(Str("/a"))]))
  {
    assert AsciiLower("get") == "get";
    assert AsciiUpper("get") == "GET" && AsciiUpper("GET") == "GET";
  }

  lemma FetchWalk(ctx: Context, p: string)
    requires Free(p)
    ensures WalkStmt(Assign("reply", FetchBy(p), CALL, false), KnownA(p), ctx) == (Stale(p), false)
  {
    var t := KnownA(p);
    FetchByShape(p, t.values);
    assert t.clients - {"reply"} == {"client"} && t.tainted - {"reply"} == {};
    assert t.requests + [SENT] == [SENT];
  }

  lemma FetchRun(ctx: Context, p: string)
    requires Free(p)
    ensures ExecStmt(Assign("reply", FetchBy(p), CALL, false), ctx, Is(p, "/b"), GotB(p), Fell)
  {
    var s, args := Is(p, "/b"), [VLit(Str("/b"))];
    FetchByHands(ctx, p, s);
    HeldThere(p, s.env);
    FetchArgs(ctx, p, s, args);
    RequestRun(ctx, FetchBy(p), "reply", s, GotB(p), args, {0});
  }

  lemma FetchByHands(ctx: Context, p: string, s: State)
    requires Free(p) && s == Is(p, "/b")
    ensures var e := FetchBy(p);
      && Calls(e) && Given(e, SightOf(s, ctx), ctx.world) == iset{"client", p}
      && Freed(e, SightOf(s, ctx), ctx.world) == iset{}
  {
    assert FetchBy(p).args[0] == Name(p);
    MethodHands(ctx, FetchBy(p), "client", {"client", p}, s);
  }

  lemma FetchArgs(ctx: Context, p: string, s: State, args: seq<Val>)
    requires Free(p) && s == Is(p, "/b") && args == [VLit(Str("/b"))] && FreshResult(VObj(1), s.env)
    ensures RequestShaped(FetchBy(p)) && ArgsEvaluate(FetchBy(p), s.env, s.issued, ctx.world, args)
    ensures s.log + [CallEntry(FetchBy(p), CALL, s.env, args, VObj(1))] + [Handed({0})] == GotB(p).log
  {
    FetchByShape(p, map[p := Known(Str("/a"))]);
    assert FetchBy(p).args[0] == Name(p);
  }

  lemma HeldThere(p: string, env: Env)
    requires Free(p) && env == Is(p, "/b").env
    ensures FreshResult(VObj(1), env) && ObjsOf(iset{"client", p}, env) == {0}
  {
    assert 0 in Objs(env["client"]);
  }

  function Done(p: string): State {
    GotB(p).(log := GotB(p).log + [Checked(CHECK, TEST, GotB(p).env)])
  }

  lemma StaleEnding(ctx: Context, p: string) returns (t': Tables)
    requires Free(p)
    ensures Steps(ctx, Ending(p), KnownA(p), t', Is(p, "/b"), Done(p))
    ensures |t'.requests| == 1 && t'.requests[0].(assertions := []) == SENT && CHECK in t'.requests[0].assertions
  {
    t' := WalkCheck(TEST, CHECK, Stale(p));
    CheckStep(ctx, Stale(p), GotB(p));
    NoSteps(ctx, t', Done(p));
    StepsMore(ctx, Check(TEST, CHECK), [], Stale(p), t', t', GotB(p), Done(p), Done(p));
    FetchWalk(ctx, p);
    FetchRun(ctx, p);
    StepsMore(ctx, Assign("reply", FetchBy(p), CALL, false), [Check(TEST, CHECK)] + [], KnownA(p), Stale(p), t',
              Is(p, "/b"), GotB(p), Done(p));
  }

  lemma StaleBeginning(ctx: Context, p: string, rest: seq<Stmt>, t': Tables, s': State)
    requires Free(p) && Steps(ctx, rest, KnownA(p), t', Is(p, "/b"), s')
    ensures Steps(ctx, [Assign(p, Const(Str("/a")), HERE, false)] + ([Rebind(p, Str("/b"))] + rest), START, t', BEFORE,
      s')
  {
    var s := Is(p, "/a");
    RebindStep(ctx, p, Str("/b"), KnownA(p), s);
    assert s.(env := s.env[p := VLit(Str("/b"))]) == Is(p, "/b");
    StepsMore(ctx, Rebind(p, Str("/b")), rest, KnownA(p), KnownA(p), t', s, Is(p, "/b"), s');
    BindStep(ctx, p);
    StepsMore(ctx, Assign(p, Const(Str("/a")), HERE, false), [Rebind(p, Str("/b"))] + rest, START, KnownA(p), t',
      BEFORE, s,
      s');
  }

  lemma OtherPath(rs: seq<Request>, log: seq<Entry>)
    requires |rs| == 1 && rs[0].(assertions := []) == SENT && CHECK in rs[0].assertions
    requires |log| == 3 && log[0] == FETCHED_B && log[1].Handed? && log[2].Checked? && log[2].span == CHECK
    ensures !Attributed(rs, log) && !exists at :: Performed(rs, log, at)
  {
    assert forall c: nat :: !IsCallOf(rs[0], log, c);
    assert log[2].span in rs[0].assertions;
    forall at ensures !Performed(rs, log, at) {
      assert |at| == 1 ==> !IsCallOf(rs[0], log, at[0]);
    }
  }

  lemma StaleDistinct(p: string)
    ensures DistinctSpans(StaleBody(p))
  {
    var bind, send, check := Assign(p, Const(Str("/a")), HERE, false), Assign("reply", FetchBy(p), CALL, false),
      Check(TEST, CHECK);
    var rebind, inner := Rebind(p, Str("/b")), Assign(p, Const(Str("/b")), THERE, false);
    assert HERE != THERE && HERE != CALL && HERE != CHECK && THERE != CALL && THERE != CHECK && CALL != CHECK;
    OneSpan(bind);
    OneSpan(send);
    OneSpan(check);
    OneSpan(inner);
    assert [inner] + [] == [inner];
    OneSpan(rebind);
    assert [check] + [] == [check];
    SpansJoin([send], [check]);
    SpansJoin([rebind], [send] + [check]);
    SpansJoin([bind], [rebind] + ([send] + [check]));
  }

  /** Both soundness theorems need their condition on decided branches: without it, a passing run may have
      requested a path that no recorded path covers, and its assertion may check the response of another
      request than the one it is attributed to. */
  lemma DecidedBranchGoesStale(ctx: Context, p: string) returns (s': State)
    requires Free(p)
    ensures Initial(START, BEFORE) && DistinctSpans(StaleBody(p)) && ExecBlock(StaleBody(p), ctx, BEFORE, s', Fell)
    ensures !Attributed(WalkBlock(StaleBody(p), START, ctx).0.requests, s'.log)
    ensures !exists at :: Performed(WalkBlock(StaleBody(p), START, ctx).0.requests, s'.log, at)
  {
    s' := Done(p);
    var t' := StaleEnding(ctx, p);
    StaleBeginning(ctx, p, Ending(p), t', s');
    StaleDistinct(p);
    OtherPath(t'.requests, s'.log);
  }

  // ----- A stale response -----

  /** `if True: f(reply); reply = 1` */
  function Replace(f: string, b: string): Stmt {
    If(Const(Bool(true)), [Do(Hand(f, b))] + ([Assign(b, Const(Int(1)), THERE, false)] + []), [])
  }

  lemma ReplaceWalk(ctx: Context, f: string, b: string, t: Tables)
    requires f !in t.Watched() && Ordinary(ctx, f) && b in t.responses && b !in t.tainted && b !in t.clients
    ensures WalkStmt(Replace(f, b), t, ctx) == (t, false)
  {
    var hand, assign := Do(Hand(f, b)), Assign(b, Const(Int(1)), THERE, false);
    HandNames(f, b);
    HandForgets(ctx, Hand(f, b), t);
    var t1 := WalkDo(Hand(f, b), t, ctx).0;
    assert b in ExecNames(Hand(f, b));
    ForgottenName(ctx, Hand(f, b), b, t);
    RebindWalk(ctx, b, t1);
    WalkTwo(ctx, hand, assign, t, t1);
    DecidedTrue(ctx, [hand] + ([assign] + []), t);
  }

  lemma ForgottenName(ctx: Context, e: Expr, b: string, t: Tables)
    requires e.Call? && e.func.Name? && Ordinary(ctx, e.func.id) && ExecNames(e) !! t.tainted + t.clients &&
      b in ExecNames(e)
    ensures b !in WalkDo(e, t, ctx).0.Watched()
  {
    assert !RequestShaped(e) && !SafeClientCleanup(e, t.clients);
    assert DottedName(e.func) == Some(e.func.id);
    assert !Terminator(e);
    assert ExecNames(e) * t.tainted == {} && ExecNames(e) * t.clients == {};
  }

  lemma RebindWalk(ctx: Context, b: string, t: Tables)
    requires b !in t.Watched()
    ensures var w := WalkStmt(Assign(b, Const(Int(1)), THERE, false), t, ctx); !w.1 && w.0.requests == t.requests
  {
    ConstSets(ctx, Int(1));
  }

  lemma WalkTwo(ctx: Context, first: Stmt, second: Stmt, t: Tables, t1: Tables)
    requires WalkStmt(first, t, ctx) == (t1, false) && !WalkStmt(second, t1, ctx).1
    ensures WalkBlock([first] + ([second] + []), t, ctx) == WalkStmt(second, t1, ctx)
  {
    var all := [first] + ([second] + []);
    assert all[0] == first && all[1..] == [second] + [];
    WalkOnly(ctx, second, t1);
  }

  lemma ReplaceRun(ctx: Context, f: string, b: string, s: State, s': State)
    requires b in s.env && s' == Told(s, Hand(f, b), ctx).(env := s.env[b := VLit(Int(1))])
    ensures ExecStmt(Replace(f, b), ctx, s, s', Fell)
  {
    var hand, assign := Do(Hand(f, b)), Assign(b, Const(Int(1)), THERE, false);
    var m := Told(s, Hand(f, b), ctx);
    var none := Tables(map[], {}, {}, map[], []);
    ConstSets(ctx, Int(1));
    assert !RequestShaped(Const(Int(1)));
    AssignStep(ctx, b, Const(Int(1)), THERE, false, none, m, VLit(Int(1)));
    ExecOne(ctx, assign, m, s');
    ExecCons(ctx, hand, [assign] + [], s, m, s');
    TrueTest(ctx, s);
    BranchRun(ctx, Const(Bool(true)), [hand] + ([assign] + []), VLit(Bool(true)), s, s');
  }

  /** A response that a decided branch hands over and then rebinds: the assertion on the name is attributed to the
      request, and checks something else. */
  lemma DecidedBranchReplaces(ctx: Context, f: string, b: string) returns (s': State)
    requires Free(f) && Ordinary(ctx, f) && b == "reply"
    ensures ExecBlock(Around([Replace(f, b)]), ctx, BEFORE, s', Fell)
    ensures !Attributed(WalkBlock(Around([Replace(f, b)]), START, ctx).0.requests, s'.log)
  {
    var s := Told(ANSWERED, Hand(f, b), ctx).(env := ANSWERED.env[b := VLit(Int(1))]);
    HandNames(f, b);
    ReplyHanded(ctx, Hand(f, b), ANSWERED, b);
    ReplaceStep(ctx, f, b, ASKED, ANSWERED, s);
    s' := Replaced(ctx, [Replace(f, b)], s);
  }

  lemma ReplaceStep(ctx: Context, f: string, b: string, t: Tables, s: State, s': State)
    requires f !in t.Watched() && Ordinary(ctx, f) && b in t.responses && b !in t.tainted && b !in t.clients
    requires b in s.env && s' == Told(s, Hand(f, b), ctx).(env := s.env[b := VLit(Int(1))])
    ensures Steps(ctx, [Replace(f, b)], t, t, s, s')
  {
    ReplaceWalk(ctx, f, b, t);
    ReplaceRun(ctx, f, b, s, s');
    OneStep(ctx, Replace(f, b), t, t, s, s');
  }

  lemma Replaced(ctx: Context, middle: seq<Stmt>, s: State) returns (s': State)
    requires Steps(ctx, middle, ASKED, ASKED, ANSWERED, s) && "reply" in s.env &&
      s.env["reply"] == VLit(Int(1))
    requires |s.log| == 3 && s.log[0] == ANSWER && s.log[1].Handed? && s.log[2].Handed?
    ensures ExecBlock(Around(middle), ctx, BEFORE, s', Fell)
    ensures !Attributed(WalkBlock(Around(middle), START, ctx).0.requests, s'.log)
  {
    var t';
    t', s' := AroundSteps(ctx, middle, ASKED, s);
    NotAttributed(t'.requests, s'.log, s.env);
  }

  lemma NotAttributed(rs: seq<Request>, log: seq<Entry>, env: Env)
    requires |log| == 4 && log[0] == ANSWER && log[1].Handed? && log[2].Handed? && log[3] == Checked(CHECK, TEST, env)
    requires "reply" in env && env["reply"] == VLit(Int(1)) && |rs| > 0 && rs[0].span == CALL &&
      CHECK in rs[0].assertions
    ensures !Attributed(rs, log)
  {
    Mismatch(rs[0], log, env);
  }

  lemma Mismatch(r: Request, log: seq<Entry>, env: Env)
    requires |log| == 4 && log[0] == ANSWER && log[1].Handed? && log[2].Handed? && log[3] == Checked(CHECK, TEST, env)
    requires "reply" in env && env["reply"] == VLit(Int(1)) && r.span == CALL
    ensures forall c: nat :: !(IsCallOf(r, log, c) && ChecksResult(log, 3, CHECK, c))
  {
    forall c: nat, x: string | IsCallOf(r, log, c) && x in env && Direct(TEST, x) ensures env[x] != log[c].result {
      assert c == 0;
      OnlyReply(x);
    }
  }

  lemma OnlyReply(x: string)
    requires Direct(TEST, x)
    ensures x == "reply"
  {
    assert Children(TEST) == [Name("reply")] && Children(Name("reply")) == [];
    assert OccurrencesFrom(TEST, x, 1) == OccurrencesFrom(TEST, x, 0) + Occurrences(Children(TEST)[0], x);
  }
}
