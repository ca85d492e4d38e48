/** `_walk_api_block`: the abstract interpreter that attributes assertions of a test to the HTTP
    requests whose responses they check. This module gives what each statement does to the tables. */
module ApiWalk {
  import opened Text
  import opened PyAst
  import opened PySemantics
  import opened Folding
  import opened HelperCheck

  datatype Span = Span(startLine: nat, startCol: nat, endLine: nat, endCol: nat) {
    /** `_position(this) >= _position(other)` */
    predicate NotBefore(other: Span) {
      startLine > other.startLine || (startLine == other.startLine && startCol >= other.startCol)
    }
  }

  /** The statements of the modelled fragment. The span of an assignment is that of its value. */
  datatype Stmt =
    | Assign(target: string, value: Expr, span: Span, annotated: bool)
    | Do(call: Expr)
    | Check(test: Expr, span: Span)
    | If(test: Expr, body: seq<Stmt>, orelse: seq<Stmt>)
    | Return
    | Raise
    | Pass

  /** `_ApiRequest` */
  datatype Request = Request(verb: string, paths: seq<Value>, binding: string, span: Span, assertions: seq<Span>)

  /** The dictionaries, sets and lists that the walk updates; a response is the index of its request. */
  datatype Tables = Tables(
    values: Table, clients: set<string>, tainted: set<string>, responses: map<string, nat>, requests: seq<Request>)
  {
    /** `clients | tainted | set(responses)` */
    function Watched(): set<string> {
      clients + tainted + responses.Keys
    }
  }

  /** What surrounds a test: its fixtures and the helpers of its module, and what the runs are told of attributes and
      functions, which the walk does not look at. */
  datatype Context = Context(fixtures: set<string>, helpers: Helpers, world: Setting)

  const CLIENT_NAMES: set<string> := {"client", "http_client", "api_client", "async_client"}

  const HTTP_METHODS: set<string> := {"GET", "POST", "PUT", "PATCH", "DELETE"}

  // ----- Requests -----

  function RequestOf(verb: Value, path: Value): Option<(string, seq<Value>)> {
    if !verb.Known? || !verb.lit.Str? || AsciiUpper(verb.lit.s) !in HTTP_METHODS then None
    else if IsText(path) then Some((AsciiUpper(verb.lit.s), [path]))
    else if path.Values? && |path.items| > 0 && (forall i :: 0 <= i < |path.items| ==> IsText(path.items[i])) then
      Some((AsciiUpper(verb.lit.s),
            if |path.items| <= MAX_STATIC_VALUES then path.items else path.items[..MAX_STATIC_VALUES]))
    else None
  }

  /** A call `name.verb(path, ...)` or `name.request(verb, path, ...)`. */
  predicate RequestShaped(e: Expr) {
    var call := StripAwait(e);
    && call.Call? && call.func.Attr? && call.func.base.Name?
    && (var name := AsciiLower(call.func.attr);
        (name == "request" && |call.args| >= 2) || (name in HttpMethods() && |call.args| >= 1))
  }

  /** Which argument of a request is its path. */
  function PathArgument(e: Expr): (k: nat)
    requires RequestShaped(e)
    ensures k < |StripAwait(e).args|
  {
    if AsciiLower(StripAwait(e).func.attr) == "request" && |StripAwait(e).args| >= 2 then 1 else 0
  }

  /** `_call_request`: the verb and the possible paths of a call on a client. */
  function CallRequest(e: Expr, values: Table, clients: set<string>): Option<(string, seq<Value>)> {
    if !RequestShaped(e) || StripAwait(e).func.base.id !in clients then None
    else
      var call := StripAwait(e);
      var name := AsciiLower(call.func.attr);
      var verb := if name == "request" then Literal(call.args[0], values) else Known(Str(AsciiUpper(name)));
      RequestOf(verb, Literal(call.args[PathArgument(e)], values))
  }

  // ----- Aliases -----

  /** `_identity_alias_roots` */
  function AliasRoots(e: Expr): set<string>
    decreases e
  {
    match e
    case Name(id) => {id}
    case Tuple(elts) => set i, n | 0 <= i < |elts| && n in AliasRoots(elts[i]) :: n
    case BoolOp(operands) => set i, n | 0 <= i < |operands| && n in AliasRoots(operands[i]) :: n
    case IfExp(_, body, orelse) => AliasRoots(body) + AliasRoots(orelse)
    case Sub(base, _) => AliasRoots(base)
    case Attr(base, attr) => if attr == "__class__" || attr == "__dict__" then AliasRoots(base) else {}
    case Lambda(params, _, result) => Names(result) - params
    case Call(_, _, _) =>
      if IsJsonCall(e) then {}
      else set i, n | 0 <= i < |Sources(e)| && n in AliasRoots(Sources(e)[i]) :: n
    case _ => {}
  }

  /** `_fixture_derived` */
  predicate FixtureDerived(e: Expr, fixtures: set<string>)
    decreases e
  {
    match e
    case Await(awaited) => FixtureDerived(awaited, fixtures)
    case Name(id) => id in fixtures
    case Call(_, args, keywords) =>
      || (exists i :: 0 <= i < |args| && FixtureDerived(args[i], fixtures))
      || (exists i :: 0 <= i < |keywords| && FixtureDerived(keywords[i].value, fixtures))
    case _ => false
  }

  // ----- Assignments -----

  function WalkAssign(target: string, value: Expr, span: Span, t: Tables, ctx: Context): (Tables, bool) {
    if target in t.Watched() then (t, true)
    else
      var request := CallRequest(value, t.values, t.clients);
      if request.Some? then
        var event := Request(request.value.0, request.value.1, target, span, []);
        var index := |t.requests|;
        (Tables(t.values[target := Event(index)], t.clients - {target}, t.tainted - {target},
                t.responses[target := index], t.requests + [event]), false)
      else if value.Name? && value.id in t.clients then
        (Tables(t.values[target := Dynamic], t.clients + {target}, t.tainted - {target},
                t.responses - {target}, t.requests), false)
      else if value.Name? && value.id in t.responses then
        var index := t.responses[value.id];
        (Tables(t.values[target := Event(index)], t.clients - {target}, t.tainted - {target},
                t.responses[target := index], t.requests), false)
      else if AliasRoots(value) * t.Watched() != {} then
        (Tables(t.values[target := Dynamic], t.clients - {target}, t.tainted + {target},
                t.responses - {target}, t.requests), false)
      else
        var values := t.values - {target};
        var clients :=
          if target !in CLIENT_NAMES then t.clients
          else if FixtureDerived(value, ctx.fixtures) then t.clients + {target} else t.clients - {target};
        (Tables(values[target := Literal(value, values)], clients, t.tainted - {target},
                t.responses - {target}, t.requests), false)
  }

  // ----- Assertions -----

  /** `_direct_response_assertion` */
  predicate Direct(test: Expr, binding: string) {
    && !HasBranching(test)
    && Occurrences(test, binding) == 1
    && !(test.Compare? && forall i :: 0 <= i < |test.comparators| ==> test.comparators[i] == test.first)
  }

  /** Some variable bound to the response of request `index` is checked directly by the assertion. */
  predicate Attributable(test: Expr, span: Span, t: Tables, index: nat)
    requires index < |t.requests|
  {
    && span !in t.requests[index].assertions
    && span.NotBefore(t.requests[index].span)
    && exists b :: b in t.responses && t.responses[b] == index && b in Names(test) && Direct(test, b)
  }

  function WalkCheck(test: Expr, span: Span, t: Tables): Tables {
    t.(requests := seq(|t.requests|, i requires 0 <= i < |t.requests| =>
      if Attributable(test, span, t, i)
      then t.requests[i].(assertions := t.requests[i].assertions + [span])
      else t.requests[i]))
  }

  // ----- Bare calls -----

  /** `_pytest_terminator` */
  predicate Terminator(e: Expr) {
    StripAwait(e).Call? && DottedName(StripAwait(e).func) in {Some("pytest.skip"), Some("pytest.xfail")}
  }

  /** `_safe_client_cleanup` */
  predicate SafeClientCleanup(e: Expr, clients: set<string>) {
    var call := StripAwait(e);
    && call.Call? && call.func.Attr? && call.func.base.Name? && call.func.base.id in clients
    && call.func.attr in {"aclose", "close"} && |call.args| == 0 && |call.keywords| == 0
  }

  /** `_safe_local_client_helper_call` */
  predicate SafeLocalHelperCall(call: Expr, clients: set<string>, helpers: Helpers)
    requires call.Call?
  {
    var name := DottedName(call.func);
    && name.Some? && name.value in helpers
    && (var selected := ReceivingParameters(call, helpers[name.value], clients);
        && selected.Some? && |selected.value| > 0
        && Preserves(Pair(name.value, multiset(selected.value)), helpers, {}))
  }

  /** Forget every response that is the same object as the response of one of `names`. */
  function DropEvents(responses: map<string, nat>, names: set<string>): map<string, nat> {
    var gone := set n | n in names && n in responses :: responses[n];
    map b | b in responses && responses[b] !in gone :: responses[b]
  }

  /** `_invalidate_evidence_referenced_by_call`: the remaining responses, or None when the walk must stop. */
  function Invalidate(e: Expr, t: Tables, helpers: Helpers): Option<map<string, nat>> {
    var call := StripAwait(e);
    if !call.Call? || CallRequest(call, t.values, t.clients).Some? then Some(t.responses)
    else
      var names := ExecNames(call);
      if names * t.tainted != {} then None
      else
        var name := DottedName(call.func);
        if name.Some? && name.value in helpers then
          var inside := helpers[name.value].names;
          var captured := inside * t.clients;
          if inside * t.tainted != {} then None
          else if captured != {} && !Preserves(Pair(name.value, multiset(captured)), helpers, {}) then None
          else AfterCall(call, names, t, DropEvents(t.responses, inside), helpers)
        else AfterCall(call, names, t, t.responses, helpers)
  }

  function AfterCall(call: Expr, names: set<string>, t: Tables, responses: map<string, nat>,
                     helpers: Helpers): Option<map<string, nat>>
    requires call.Call?
  {
    if names * t.clients != {} && !SafeLocalHelperCall(call, t.clients, helpers) then None
    else Some(DropEvents(responses, names))
  }

  function WalkDo(e: Expr, t: Tables, ctx: Context): (Tables, bool) {
    if Terminator(e) then (t, true)
    else if MutationCall(e, t.Watched()) then (t, true)
    else if SafeClientCleanup(e, t.clients) then (t, false)
    else
      match Invalidate(e, t, ctx.helpers)
      case None => (t, true)
      case Some(responses) => (t.(responses := responses), false)
  }

  // ----- Branches the walk cannot decide -----

  /** Some call among the executable nodes of an expression mentions a watched name. */
  predicate MentionsInCall(e: Expr, watched: set<string>)
    decreases e
  {
    && !e.Lambda?
    && (|| (e.Call? && (MutationCall(e, watched) || Names(e) * watched != {}))
        || exists i :: 0 <= i < |Children(e)| && MentionsInCall(Children(e)[i], watched))
  }

  /** `_control_flow_affects_evidence` */
  predicate Affects(stmts: seq<Stmt>, watched: set<string>)
    decreases stmts, 1
  {
    exists i :: 0 <= i < |stmts| && AffectsOne(stmts[i], watched)
  }

  predicate AffectsOne(stmt: Stmt, watched: set<string>)
    decreases stmt, 0
  {
    match stmt
    case Return => true
    case Raise => true
    case Pass => false
    case Assign(target, value, _, annotated) =>
      || target in watched
      || (!annotated && Names(value) * watched != {})
      || MentionsInCall(value, watched)
    case Do(call) => MentionsInCall(call, watched)
    case Check(test, _) => MentionsInCall(test, watched)
    case If(test, body, orelse) => MentionsInCall(test, watched) || Affects(body, watched) || Affects(orelse, watched)
  }

  /** `_control_flow_assignments` */
  function Assigned(stmts: seq<Stmt>): set<string>
    decreases stmts, 1
  {
    set i, n | 0 <= i < |stmts| && n in AssignedOne(stmts[i]) :: n
  }

  function AssignedOne(stmt: Stmt): set<string>
    decreases stmt, 0
  {
    match stmt
    case Assign(target, _, _, _) => {target}
    case If(_, body, orelse) => Assigned(body) + Assigned(orelse)
    case _ => {}
  }

  /** `_poison_control_flow_assignments` */
  function Poison(t: Tables, names: set<string>): Tables {
    t.(values := map n | n in t.values.Keys + names :: if n in names then Dynamic else t.values[n],
       responses := t.responses - names)
  }

  /** `_static_truth` */
  function StaticTruth(test: Expr, values: Table): Option<bool> {
    match Literal(test, values)
    case Known(Str(s)) => Some(|s| > 0)
    case Known(Int(i)) => Some(i != 0)
    case Known(Bool(b)) => Some(b)
    case Known(NoneLit) => Some(false)
    case _ => None
  }

  // ----- The walk -----

  /** `_walk_api_block`: the new tables, and whether the walk stopped. */
  function WalkBlock(stmts: seq<Stmt>, t: Tables, ctx: Context): (Tables, bool)
    decreases stmts, 1
  {
    if |stmts| == 0 then (t, false)
    else
      var (t1, stopped) := WalkStmt(stmts[0], t, ctx);
      if stopped then (t1, true) else WalkBlock(stmts[1..], t1, ctx)
  }

  function WalkStmt(stmt: Stmt, t: Tables, ctx: Context): (Tables, bool)
    decreases stmt, 0
  {
    match stmt
    case Return => (t, true)
    case Raise => (t, true)
    case Pass => (t, false)
    case Assign(target, value, span, _) => WalkAssign(target, value, span, t, ctx)
    case Do(call) => WalkDo(call, t, ctx)
    case Check(test, span) => (WalkCheck(test, span, t), false)
    case If(test, body, orelse) =>
      match StaticTruth(test, t.values)
      case Some(truth) =>
        // A decided branch is walked on copies of all tables but the request list.
        var (b, stopped) := WalkBlock(if truth then body else orelse, t, ctx);
        (t.(requests := b.requests), stopped)
      case None =>
        if Affects(body, t.Watched()) || Affects(orelse, t.Watched()) then (t, true)
        else (Poison(t, Assigned(body) + Assigned(orelse)), false)
  }
}
