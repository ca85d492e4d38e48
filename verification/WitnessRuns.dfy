/** Running a test body: what its statements can do, as a relation between states. */
module WitnessRuns {
  import opened PyAst
  import opened PySemantics
  import opened ApiWalk

  /** What a run leaves behind, in order: a request-shaped call with its verb, its path and its result,
      the objects handed to the calls of a statement, and an assertion that held. */
  datatype Entry =
    | Called(span: Span, verb: Val, path: Val, result: Val, isNew: bool)
    | Handed(objs: set<nat>)
    | Checked(span: Span, test: Expr, env: Env)

  /** `escaped` are the variables that functions handed to calls read: what was given such a function may keep it and
      call it whenever it is called again. */
  datatype State = State(env: Env, issued: set<nat>, log: seq<Entry>, escaped: iset<string>)

  /** A test passes when it falls through its last statement or returns. */
  datatype Outcome = Fell | Returned | Raised

  // ----- What calls are handed -----

  /** A call, other than one that parses the body of a response, which gives it to nobody; or an `await`, which runs
      what is awaited. */
  predicate Hands(e: Expr) {
    e.Await? || (e.Call? && !IsJsonCall(e))
  }

  /** What is evaluated on the way: of a lambda its defaults, but not its body. */
  function Evaluated(e: Expr): (es: seq<Expr>)
    ensures forall i :: 0 <= i < |es| ==> es[i] < e
  {
    if e.Lambda? then e.defaults else Children(e)
  }

  predicate Calls(e: Expr)
    decreases e
  {
    Hands(e) || exists i :: 0 <= i < |Evaluated(e)| && Calls(Evaluated(e)[i])
  }

  /** The variables whose objects a call under the expression is given: through its receiver or callee and its
      arguments, by value or by way of functions. */
  ghost predicate Exposes(e: Expr, links: Links, w: Setting, n: string)
    decreases e
  {
    || (Hands(e) && n in Vals(e, links, w))
    || exists i :: 0 <= i < |Evaluated(e)| && Exposes(Evaluated(e)[i], links, w, n)
  }

  /** The variables that functions given to a call under the expression read. */
  ghost predicate Frees(e: Expr, links: Links, w: Setting, n: string)
    decreases e
  {
    || (Hands(e) && n in Late(e, links, w))
    || exists i :: 0 <= i < |Evaluated(e)| && Frees(Evaluated(e)[i], links, w, n)
  }

  /** What leads from variable to variable, and which variables are in reach of every call. */
  datatype Sight = Sight(links: Links, loose: iset<string>)

  ghost function SightOf(s: State, ctx: Context): Sight {
    Sight(LinksOf(s.env, ctx.world), s.escaped)
  }

  /** The variables whose objects some call is given while the expression is evaluated. */
  ghost function Given(e: Expr, k: Sight, w: Setting): iset<string> {
    if Calls(e) then (iset n | Exposes(e, k.links, w, n)) + Reach(k.links, k.loose) else iset{}
  }

  ghost function Freed(e: Expr, k: Sight, w: Setting): iset<string> {
    iset n | Frees(e, k.links, w, n)
  }

  ghost function HandOver(e: Expr, s: State, ctx: Context): seq<Entry> {
    if Calls(e) then [Handed(ObjsOf(Given(e, SightOf(s, ctx), ctx.world), s.env))] else []
  }

  /** The state once the calls of an expression are made. */
  ghost function Told(s: State, e: Expr, ctx: Context): State {
    s.(log := s.log + HandOver(e, s, ctx), escaped := s.escaped + Freed(e, SightOf(s, ctx), ctx.world))
  }

  // ----- Statements -----

  ghost predicate Held(env: Env, id: nat) {
    exists n :: n in env && id in Objs(env[n])
  }

  ghost predicate FreshResult(v: Val, env: Env) {
    v.VObj? && !Held(env, v.id)
  }

  ghost predicate ArgsEvaluate(call: Expr, env: Env, issued: set<nat>, w: Setting, args: seq<Val>)
    requires call.Call?
  {
    |args| == |call.args| && forall i :: 0 <= i < |args| ==> Evaluates(call.args[i], env, issued, w, args[i])
  }

  /** The verb a request-shaped call sends: the name of the method, or the first argument. */
  ghost function SentVerb(value: Expr, args: seq<Val>): Val
    requires RequestShaped(value) && |args| == |StripAwait(value).args|
  {
    var name := AsciiLower(StripAwait(value).func.attr);
    if name == "request" then args[0] else VLit(Str(AsciiUpper(name)))
  }

  /** The entry that a request-shaped call leaves. */
  ghost function CallEntry(value: Expr, span: Span, env: Env, args: seq<Val>, v: Val): Entry
    requires RequestShaped(value) && |args| == |StripAwait(value).args|
  {
    Called(span, SentVerb(value, args), args[PathArgument(value)], v, FreshResult(v, env))
  }

  /** A request-shaped call may return a new object, or whatever else a call can return. */
  ghost predicate ExecRequest(target: string, value: Expr, span: Span, ctx: Context, s: State, s': State,
                              args: seq<Val>, v: Val)
  {
    && RequestShaped(value)
    && ArgsEvaluate(StripAwait(value), s.env, s.issued, ctx.world, args)
    && (FreshResult(v, s.env) || Evaluates(value, s.env, s.issued, ctx.world, v))
    && s' == State(s.env[target := v], s.issued + Objs(v),
                   s.log + [CallEntry(value, span, s.env, args, v)] + HandOver(value, s, ctx),
                     Told(s, value, ctx).escaped)
  }

  ghost predicate ExecAssign(target: string, value: Expr, span: Span, ctx: Context, s: State, s': State) {
    if RequestShaped(value) then exists args, v :: ExecRequest(target, value, span, ctx, s, s', args, v)
    else
      exists v ::
        Evaluates(value, s.env, s.issued, ctx.world, v) && s' == Told(s, value, ctx).(env := s.env[target := v])
  }

  /** Executing a statement can take `s` to `s'`. Any statement may raise before it has an effect. */
  ghost predicate ExecStmt(stmt: Stmt, ctx: Context, s: State, s': State, out: Outcome)
    decreases stmt, 0
  {
    || (out == Raised && s' == s)
    || match stmt
       case Pass => out == Fell && s' == s
       case Return => out == Returned && s' == s
       case Raise => false
       case Assign(target, value, span, _) => out == Fell && ExecAssign(target, value, span, ctx, s, s')
       case Do(e) => out == Fell && s' == Told(s, e, ctx)
       case Check(test, span) =>
         out == Fell && s' == Told(s.(log := s.log + [Checked(span, test, s.env)]), test, ctx)
       case If(test, body, orelse) =>
         exists v, truth :: Evaluates(test, s.env, s.issued, ctx.world, v) && TruthIs(v, truth) &&
           ExecBlock(if truth then body else orelse, ctx, Told(s, test, ctx), s', out)
  }

  ghost predicate ExecBlock(stmts: seq<Stmt>, ctx: Context, s: State, s': State, out: Outcome)
    decreases stmts, 1
  {
    if |stmts| == 0 then out == Fell && s' == s
    else
      exists m, o :: ExecStmt(stmts[0], ctx, s, m, o) &&
        if o == Fell then ExecBlock(stmts[1..], ctx, m, s', out) else s' == m && out == o
  }

  // ----- Where statements are, and what they can change -----

  /** The spans of the assertions and assigned values under a statement. */
  function SpansOf(stmt: Stmt): set<Span>
    decreases stmt, 0
  {
    match stmt
    case Assign(_, _, span, _) => {span}
    case Check(_, span) => {span}
    case If(_, body, orelse) => Spans(body) + Spans(orelse)
    case _ => {}
  }

  function Spans(stmts: seq<Stmt>): set<Span>
    decreases stmts, 1
  {
    if |stmts| == 0 then {} else SpansOf(stmts[0]) + Spans(stmts[1..])
  }

  /** No two statements share a span, as in any parsed source. */
  ghost predicate DistinctSpans(stmts: seq<Stmt>)
    decreases stmts, 1
  {
    |stmts| > 0 ==> SpansOf(stmts[0]) !! Spans(stmts[1..]) && DistinctIn(stmts[0]) && DistinctSpans(stmts[1..])
  }

  ghost predicate DistinctIn(stmt: Stmt)
    decreases stmt, 0
  {
    stmt.If? ==> Spans(stmt.body) !! Spans(stmt.orelse) && DistinctSpans(stmt.body) && DistinctSpans(stmt.orelse)
  }

  /** The run only appends to the log, and every assertion it adds lies in `spans`. */
  ghost predicate LogGrows(s: State, s': State, spans: set<Span>) {
    && s.log <= s'.log
    && forall j :: |s.log| <= j < |s'.log| && s'.log[j].Checked? ==> s'.log[j].span in spans
  }

  ghost predicate OnlyChanges(s: State, s': State, names: set<string>) {
    && s.env.Keys <= s'.env.Keys <= s.env.Keys + names
    && forall n :: n in s.env && n !in names ==> s'.env[n] == s.env[n]
  }

  lemma {:induction false} StmtFrame(stmt: Stmt, ctx: Context, s: State, s': State, out: Outcome)
    requires ExecStmt(stmt, ctx, s, s', out)
    ensures LogGrows(s, s', SpansOf(stmt)) && OnlyChanges(s, s', AssignedOne(stmt)) && s.issued <= s'.issued
    decreases stmt, 0
  {
    if stmt.If? && !(out == Raised && s' == s) {
      var v, truth :| Evaluates(stmt.test, s.env, s.issued, ctx.world, v) && TruthIs(v, truth) &&
        ExecBlock(if truth then stmt.body else stmt.orelse, ctx, Told(s, stmt.test, ctx), s', out);
      BlockFrame(if truth then stmt.body else stmt.orelse, ctx, Told(s, stmt.test, ctx), s', out);
    }
  }

  lemma {:induction false} BlockFrame(stmts: seq<Stmt>, ctx: Context, s: State, s': State, out: Outcome)
    requires ExecBlock(stmts, ctx, s, s', out)
    ensures LogGrows(s, s', Spans(stmts)) && OnlyChanges(s, s', Assigned(stmts)) && s.issued <= s'.issued
    decreases stmts, 1
  {
    if |stmts| > 0 {
      var m, o :| ExecStmt(stmts[0], ctx, s, m, o) &&
        if o == Fell then ExecBlock(stmts[1..], ctx, m, s', out) else s' == m && out == o;
      StmtFrame(stmts[0], ctx, s, m, o);
      assert AssignedOne(stmts[0]) <= Assigned(stmts);
      if o == Fell {
        BlockFrame(stmts[1..], ctx, m, s', out);
        AssignedTail(stmts);
      }
    }
  }

  lemma AssignedTail(stmts: seq<Stmt>)
    requires |stmts| > 0
    ensures Assigned(stmts[1..]) <= Assigned(stmts)
  {
    forall n | n in Assigned(stmts[1..]) ensures n in Assigned(stmts) {
      var i :| 0 <= i < |stmts[1..]| && n in AssignedOne(stmts[1..][i]);
      assert stmts[1..][i] == stmts[i + 1];
    }
  }

  /** Statements without `return` do not return. */
  lemma {:induction false} NoReturn(stmts: seq<Stmt>, watched: set<string>, ctx: Context, s: State, s': State,
                                    out: Outcome)
    requires ExecBlock(stmts, ctx, s, s', out) && !Affects(stmts, watched)
    ensures out != Returned
    decreases stmts, 1
  {
    if |stmts| > 0 {
      var m, o :| ExecStmt(stmts[0], ctx, s, m, o) &&
        if o == Fell then ExecBlock(stmts[1..], ctx, m, s', out) else s' == m && out == o;
      assert !AffectsOne(stmts[0], watched);
      StmtNoReturn(stmts[0], watched, ctx, s, m, o);
      if o == Fell {
        AffectsTail(stmts, watched);
        NoReturn(stmts[1..], watched, ctx, m, s', out);
      }
    }
  }

  lemma AffectsTail(stmts: seq<Stmt>, watched: set<string>)
    requires |stmts| > 0 && !Affects(stmts, watched)
    ensures !Affects(stmts[1..], watched)
  {
    forall i | 0 <= i < |stmts[1..]| ensures !AffectsOne(stmts[1..][i], watched) {
      assert stmts[1..][i] == stmts[i + 1];
    }
  }

  lemma {:induction false} StmtNoReturn(stmt: Stmt, watched: set<string>, ctx: Context, s: State, s': State,
                                        out: Outcome)
    requires ExecStmt(stmt, ctx, s, s', out) && !AffectsOne(stmt, watched)
    ensures out != Returned
    decreases stmt, 0
  {
    if stmt.If? && out == Returned {
      var v, truth :| Evaluates(stmt.test, s.env, s.issued, ctx.world, v) && TruthIs(v, truth) &&
        ExecBlock(if truth then stmt.body else stmt.orelse, ctx, Told(s, stmt.test, ctx), s', out);
      NoReturn(if truth then stmt.body else stmt.orelse, watched, ctx, Told(s, stmt.test, ctx), s', out);
    }
  }

  /** A branch the walk lets pass assigns no watched name. */
  lemma {:induction false} UnaffectedNames(stmts: seq<Stmt>, watched: set<string>)
    requires !Affects(stmts, watched)
    ensures Assigned(stmts) !! watched
    decreases stmts, 1
  {
    forall n | n in Assigned(stmts) ensures n !in watched {
      var i :| 0 <= i < |stmts| && n in AssignedOne(stmts[i]);
      assert !AffectsOne(stmts[i], watched);
      if stmts[i].If? {
        UnaffectedNames(stmts[i].body, watched);
        UnaffectedNames(stmts[i].orelse, watched);
      }
    }
  }
}
