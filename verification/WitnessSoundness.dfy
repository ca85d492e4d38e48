/** Soundness of the source-witness analyser: what it attributes is what every run does. */
module WitnessSoundness {
  import opened PyAst
  import opened PySemantics
  import opened Folding
  import opened ApiWalk
  import opened WitnessRuns

  // ----- What is claimed of a run -----

  ghost predicate TextCovers(path: Value, v: Val) {
    v.VLit? && v.lit.Str? && IsText(path) && CoversString(path, v.lit.s)
  }

  /** The recorded paths cover the path argument: one text, or the first items of a tuple. */
  ghost predicate PathCovered(paths: seq<Value>, v: Val) {
    || (|paths| == 1 && TextCovers(paths[0], v))
    || (v.VTuple? && |paths| <= |v.items| && forall i :: 0 <= i < |paths| ==> TextCovers(paths[i], v.items[i]))
  }

  /** Entry `c` of the log is the call that request `r` stands for. */
  ghost predicate IsCallOf(r: Request, log: seq<Entry>, c: nat) {
    && c < |log| && log[c].Called? && log[c].span == r.span
    && log[c].verb.VLit? && log[c].verb.lit.Str? && AsciiUpper(log[c].verb.lit.s) == r.verb
    && PathCovered(r.paths, log[c].path)
  }

  /** Entry `j` is the assertion at `span`, and a variable that it checks directly holds the very
      object that the call at entry `c` returned. */
  ghost predicate ChecksResult(log: seq<Entry>, j: nat, span: Span, c: nat)
    requires c < |log| && log[c].Called?
  {
    && c < j < |log| && log[j].Checked? && log[j].span == span
    && exists b :: b in log[j].env && Direct(log[j].test, b) && log[j].env[b] == log[c].result
  }

  /** Wherever the run reached an attributed assertion, it checked the response of the request. */
  ghost predicate Attributed(requests: seq<Request>, log: seq<Entry>) {
    forall i, j :: 0 <= i < |requests| && 0 <= j < |log| && log[j].Checked? && log[j].span in requests[i].assertions ==>
      exists c: nat :: IsCallOf(requests[i], log, c) && ChecksResult(log, j, log[j].span, c)
  }

  ghost predicate AssertionRan(log: seq<Entry>, span: Span, c: nat)
    requires c < |log| && log[c].Called?
  {
    exists j: nat :: ChecksResult(log, j, span, c)
  }

  /** The run made every recorded request, at the entries `at`, and reached every attributed assertion. */
  ghost predicate Performed(requests: seq<Request>, log: seq<Entry>, at: seq<nat>) {
    && |at| == |requests|
    && (forall i :: 0 <= i < |requests| ==> IsCallOf(requests[i], log, at[i]))
    && forall i, a :: 0 <= i < |requests| && a in requests[i].assertions ==> AssertionRan(log, a, at[i])
  }

  // ----- The invariant -----

  ghost function Returned(log: seq<Entry>, at: seq<nat>): map<nat, Val>
    requires forall i :: 0 <= i < |at| ==> at[i] < |log| && log[at[i]].Called?
  {
    map i: nat | 0 <= i < |at| :: log[at[i]].result
  }

  /** The tables describe the state: values cover the variables, responses name the returned objects. */
  ghost predicate Describes(t: Tables, s: State, at: seq<nat>) {
    && Performed(t.requests, s.log, at)
    && TableCovers(t.values, s.env, Returned(s.log, at))
    && forall b :: b in t.responses ==>
         && t.responses[b] < |t.requests|
         && b in t.values && b in s.env && s.env[b] == s.log[at[t.responses[b]]].result
  }

  /** No attributed and no logged assertion lies in `spans`. */
  ghost predicate Apart(requests: seq<Request>, log: seq<Entry>, spans: set<Span>) {
    && (forall i, a :: 0 <= i < |requests| && a in requests[i].assertions ==> a !in spans)
    && forall j :: 0 <= j < |log| && log[j].Checked? ==> log[j].span !in spans
  }

  /** The same request, possibly with more assertions, all of them from `spans`. */
  ghost predicate SameRequest(r: Request, r': Request, spans: set<Span>) {
    && r'.span == r.span && r'.verb == r.verb && r'.paths == r.paths
    && forall a :: a in r'.assertions ==> a in r.assertions || a in spans
  }

  /** A request list only grows: new requests at the end, new assertions from `spans`. */
  ghost predicate Grows(rs: seq<Request>, rs': seq<Request>, spans: set<Span>) {
    && |rs| <= |rs'|
    && (forall i :: 0 <= i < |rs| ==> SameRequest(rs[i], rs'[i], spans))
    && forall i, a :: |rs| <= i < |rs'| && a in rs'[i].assertions ==> a in spans
  }

  lemma GrowsTransitive(r0: seq<Request>, r1: seq<Request>, r2: seq<Request>, s1: set<Span>, s2: set<Span>)
    requires Grows(r0, r1, s1) && Grows(r1, r2, s2)
    ensures Grows(r0, r2, s1 + s2)
  {
    forall i | 0 <= i < |r0| ensures SameRequest(r0[i], r2[i], s1 + s2) {
      assert SameRequest(r0[i], r1[i], s1) && SameRequest(r1[i], r2[i], s2);
    }
    forall i, a | |r0| <= i < |r2| && a in r2[i].assertions ensures a in s1 + s2 {
      if i < |r1| {
        assert SameRequest(r1[i], r2[i], s2);
      }
    }
  }

  lemma {:induction false} StmtGrows(stmt: Stmt, t: Tables, ctx: Context)
    ensures Grows(t.requests, WalkStmt(stmt, t, ctx).0.requests, SpansOf(stmt))
    decreases stmt, 0
  {
    if stmt.If? {
      BlockGrows(stmt.body, t, ctx);
      BlockGrows(stmt.orelse, t, ctx);
      GrowsMore(t.requests, WalkBlock(stmt.body, t, ctx).0.requests, Spans(stmt.body), SpansOf(stmt));
      GrowsMore(t.requests, WalkBlock(stmt.orelse, t, ctx).0.requests, Spans(stmt.orelse), SpansOf(stmt));
    }
  }

  lemma GrowsMore(rs: seq<Request>, rs': seq<Request>, spans: set<Span>, more: set<Span>)
    requires Grows(rs, rs', spans) && spans <= more
    ensures Grows(rs, rs', more)
  {
    forall i | 0 <= i < |rs| ensures SameRequest(rs[i], rs'[i], more) {
      assert SameRequest(rs[i], rs'[i], spans);
    }
  }

  lemma {:induction false} BlockGrows(stmts: seq<Stmt>, t: Tables, ctx: Context)
    ensures Grows(t.requests, WalkBlock(stmts, t, ctx).0.requests, Spans(stmts))
    decreases stmts, 1
  {
    if |stmts| > 0 {
      var (t1, stopped) := WalkStmt(stmts[0], t, ctx);
      StmtGrows(stmts[0], t, ctx);
      GrowsMore(t.requests, t1.requests, SpansOf(stmts[0]), Spans(stmts));
      if !stopped {
        BlockGrows(stmts[1..], t1, ctx);
        GrowsTransitive(t.requests, t1.requests, WalkBlock(stmts[1..], t1, ctx).0.requests, SpansOf(stmts[0]),
          Spans(stmts[1..]));
      }
    }
  }

  // ----- Growth keeps the claims -----

  lemma MoreRequests(rs: seq<Request>, rs': seq<Request>, spans: set<Span>, log: seq<Entry>)
    requires Attributed(rs, log) && Grows(rs, rs', spans)
    requires forall j :: 0 <= j < |log| && log[j].Checked? ==> log[j].span !in spans
    ensures Attributed(rs', log)
  {
    forall i, j | 0 <= i < |rs'| && 0 <= j < |log| && log[j].Checked? && log[j].span in rs'[i].assertions
      ensures exists c: nat :: IsCallOf(rs'[i], log, c) && ChecksResult(log, j, log[j].span, c)
    {
      assert SameRequest(rs[i], rs'[i], spans);
      var c: nat :| IsCallOf(rs[i], log, c) && ChecksResult(log, j, log[j].span, c);
      assert IsCallOf(rs'[i], log, c);
    }
  }

  lemma LongerLog(rs: seq<Request>, log: seq<Entry>, log': seq<Entry>, spans: set<Span>)
    requires Attributed(rs, log) && log <= log'
    requires forall j :: |log| <= j < |log'| && log'[j].Checked? ==> log'[j].span in spans
    requires forall i, a :: 0 <= i < |rs| && a in rs[i].assertions ==> a !in spans
    ensures Attributed(rs, log')
  {
    forall i, j | 0 <= i < |rs| && 0 <= j < |log'| && log'[j].Checked? && log'[j].span in rs[i].assertions
      ensures exists c: nat :: IsCallOf(rs[i], log', c) && ChecksResult(log', j, log'[j].span, c)
    {
      assert j < |log|;
      assert log[j] == log'[j];
      var c: nat :| IsCallOf(rs[i], log, c) && ChecksResult(log, j, log[j].span, c);
      assert log[c] == log'[c];
      assert IsCallOf(rs[i], log', c) && ChecksResult(log', j, log'[j].span, c);
    }
  }

  lemma StillPerformed(rs: seq<Request>, log: seq<Entry>, log': seq<Entry>, at: seq<nat>)
    requires Performed(rs, log, at) && log <= log'
    ensures Performed(rs, log', at)
    ensures Returned(log', at) == Returned(log, at)
  {
    forall i | 0 <= i < |rs| ensures IsCallOf(rs[i], log', at[i]) && log'[at[i]] == log[at[i]] {
      assert IsCallOf(rs[i], log, at[i]);
    }
    forall i, a | 0 <= i < |rs| && a in rs[i].assertions ensures AssertionRan(log', a, at[i]) {
      assert AssertionRan(log, a, at[i]);
      var j: nat :| ChecksResult(log, j, a, at[i]);
      assert log[j] == log'[j];
      assert ChecksResult(log', j, a, at[i]);
    }
  }

  // ----- Decided branches -----

  /** An entry that says nothing about its variable. */
  predicate Open(value: Value) {
    value.Dynamic? || value.Unknown? || value.Json?
  }

  /** Assigning the name leaves the tables as true as they were. */
  predicate Indifferent(name: string, t: Tables) {
    name in t.values ==> name !in t.responses && Open(t.values[name])
  }

  /** The branches that the walk decides, and therefore walks on copies, assign only names that the
      enclosing tables say nothing about. */
  ghost predicate Settled(stmts: seq<Stmt>, t: Tables, ctx: Context)
    decreases stmts, 1
  {
    |stmts| > 0 ==>
      && SettledStmt(stmts[0], t, ctx)
      && (!WalkStmt(stmts[0], t, ctx).1 ==> Settled(stmts[1..], WalkStmt(stmts[0], t, ctx).0, ctx))
  }

  ghost predicate SettledStmt(stmt: Stmt, t: Tables, ctx: Context)
    decreases stmt, 0
  {
    stmt.If? && StaticTruth(stmt.test, t.values).Some? ==>
      var branch := if StaticTruth(stmt.test, t.values).value then stmt.body else stmt.orelse;
      (forall n :: n in Assigned(branch) ==> Indifferent(n, t)) && Settled(branch, t, ctx)
  }

  // ----- One statement -----

  /** What a step of the walk must establish about the same step of a run. */
  ghost predicate Sound(t': Tables, stopped: bool, s': State, out: Outcome, at: seq<nat>) {
    && Attributed(t'.requests, s'.log)
    && (out != Raised ==> Performed(t'.requests, s'.log, at))
    && (out == Outcome.Returned ==> stopped)
    && (out == Fell && !stopped ==> Describes(t', s', at))
  }

  lemma RequestCovered(value: Expr, t: Tables, ctx: Context, s: State, at: seq<nat>, args: seq<Val>)
    requires Describes(t, s, at) && CallRequest(value, t.values, t.clients).Some?
    requires ArgsEvaluate(StripAwait(value), s.env, s.issued, ctx.world, args)
    ensures var request, verb := CallRequest(value, t.values, t.clients).value, SentVerb(value, args);
      && verb.VLit? && verb.lit.Str? && AsciiUpper(verb.lit.s) == request.0
      && PathCovered(request.1, args[PathArgument(value)])
  {
    var call, k := StripAwait(value), PathArgument(value);
    var returned := Returned(s.log, at);
    LiteralSound(call.args[0], t.values, s.env, s.issued, ctx.world, returned, args[0]);
    LiteralSound(call.args[k], t.values, s.env, s.issued, ctx.world, returned, args[k]);
    var path := Literal(call.args[k], t.values);
    if path.Values? {
      forall i | 0 <= i < |path.items| && IsText(path.items[i]) ensures TextCovers(path.items[i], args[k].items[i]) {
        assert Covers(path.items[i], args[k].items[i], returned);
      }
    }
  }

  lemma OneMoreRequest(rs: seq<Request>, r: Request, log: seq<Entry>, at: seq<nat>, c: nat)
    requires Performed(rs, log, at) && IsCallOf(r, log, c) && r.assertions == []
    ensures Performed(rs + [r], log, at + [c])
  {
    forall i, a | 0 <= i < |rs + [r]| && a in (rs + [r])[i].assertions ensures AssertionRan(log, a, (at + [c])[i]) {
      assert i < |rs|;
      assert a in rs[i].assertions;
      assert AssertionRan(log, a, at[i]);
    }
  }

  /** A new request: its call is the first new entry of the log. */
  lemma RecordRequest(target: string, event: Request, t: Tables, t': Tables, s: State, s': State, at: seq<nat>)
    requires Describes(t, s, at)
    requires |s'.log| > |s.log| && s.log <= s'.log && IsCallOf(event, s'.log, |s.log|) && event.assertions == []
    requires s'.env == s.env[target := s'.log[|s.log|].result]
    requires t'.requests == t.requests + [event]
    requires t'.values == t.values[target := Event(|t.requests|)] && t'.responses == t.responses[target := |t.requests|]
    ensures Describes(t', s', at + [|s.log|])
  {
    var at', log' := at + [|s.log|], s'.log;
    StillPerformed(t.requests, s.log, log', at);
    OneMoreRequest(t.requests, event, log', at, |s.log|);
    var returned := Returned(log', at');
    forall id | id in t'.values
      ensures if id in s'.env then Covers(t'.values[id], s'.env[id], returned) else t'.values[id] == Dynamic
    {
      if id != target && id in s.env {
        CoversMore(t.values[id], s.env[id], Returned(s.log, at), returned);
      }
    }
    forall b | b in t'.responses
      ensures b in t'.values && b in s'.env && t'.responses[b] < |t'.requests| &&
        s'.env[b] == log'[at'[t'.responses[b]]].result
    {
      if b != target {
        assert IsCallOf(t.requests[t.responses[b]], s.log, at[t.responses[b]]);
      }
    }
  }

  /** Knowing more results keeps what is covered. */
  lemma {:induction false} CoversMore(value: Value, v: Val, returned: map<nat, Val>, more: map<nat, Val>)
    requires Covers(value, v, returned)
    requires forall i :: i in returned ==> i in more && more[i] == returned[i]
    ensures Covers(value, v, more)
  {
    if value.Values? {
      forall i | 0 <= i < |value.items| ensures Covers(value.items[i], v.items[i], more) {
        CoversMore(value.items[i], v.items[i], returned, more);
      }
    }
  }

  /** An assignment of anything else: the table entry of the target covers the new value. */
  lemma RecordOther(target: string, t: Tables, t': Tables, s: State, s': State, at: seq<nat>, v: Val)
    requires Describes(t, s, at) && s.log <= s'.log && s'.env == s.env[target := v]
    requires t'.requests == t.requests && t'.values.Keys == t.values.Keys + {target}
    requires forall id :: id in t.values && id != target ==> t'.values[id] == t.values[id]
    requires Covers(t'.values[target], v, Returned(s.log, at))
    requires forall b :: b in t'.responses && b != target ==> b in t.responses && t'.responses[b] == t.responses[b]
    requires target in t'.responses ==>
      t'.responses[target] < |t.requests| && v == s.log[at[t'.responses[target]]].result
    ensures Describes(t', s', at)
  {
    StillPerformed(t.requests, s.log, s'.log, at);
    forall b | b in t'.responses ensures s'.env[b] == s'.log[at[t'.responses[b]]].result {
      assert IsCallOf(t.requests[t'.responses[b]], s.log, at[t'.responses[b]]);
    }
  }

  /** What the table entry of the target covers when no request was recorded. */
  lemma OtherCovered(target: string, value: Expr, span: Span, t: Tables, ctx: Context, s: State, at: seq<nat>, v: Val)
    requires Describes(t, s, at) && target !in t.Watched() && CallRequest(value, t.values, t.clients).None?
    requires Evaluates(value, s.env, s.issued, ctx.world, v) || RequestShaped(value)
    ensures var t' := WalkAssign(target, value, span, t, ctx).0;
      && target in t'.values && Covers(t'.values[target], v, Returned(s.log, at))
      && (target in t'.responses ==>
            t'.responses[target] < |t.requests| && v == s.log[at[t'.responses[target]]].result)
  {
    FoldedCovers(target, value, t, ctx, s, at, v);
    OtherEntry(target, value, span, t, ctx);
    EntryCovered(target, value, t, WalkAssign(target, value, span, t, ctx).0, s, at, v);
  }

  ghost predicate IsEntry(target: string, value: Expr, t: Tables, t': Tables) {
    && target in t'.values
    && if target in t'.responses then
         && value.Name? && value.id in t.responses && t'.responses[target] == t.responses[value.id]
         && t'.values[target] == Event(t.responses[value.id])
       else t'.values[target] in {Dynamic, Literal(value, t.values - {target})}
  }

  lemma EntryCovered(target: string, value: Expr, t: Tables, t': Tables, s: State, at: seq<nat>, v: Val)
    requires Describes(t, s, at) && IsEntry(target, value, t, t')
    requires value.Name? && value.id in s.env && value.id in t.responses ==> v == s.env[value.id]
    requires Covers(Literal(value, t.values - {target}), v, Returned(s.log, at))
    ensures Covers(t'.values[target], v, Returned(s.log, at))
    ensures target in t'.responses ==>
      t'.responses[target] < |t.requests| && v == s.log[at[t'.responses[target]]].result
  {
    if target in t'.responses {
      assert IsCallOf(t.requests[t.responses[value.id]], s.log, at[t.responses[value.id]]);
    }
  }

  lemma OtherEntry(target: string, value: Expr, span: Span, t: Tables, ctx: Context)
    requires target !in t.Watched() && CallRequest(value, t.values, t.clients).None?
    ensures IsEntry(target, value, t, WalkAssign(target, value, span, t, ctx).0)
  {
  }

  lemma FoldedCovers(target: string, value: Expr, t: Tables, ctx: Context, s: State, at: seq<nat>, v: Val)
    requires Describes(t, s, at)
    requires Evaluates(value, s.env, s.issued, ctx.world, v) || RequestShaped(value)
    ensures Covers(Literal(value, t.values - {target}), v, Returned(s.log, at))
  {
    if RequestShaped(value) {
      assert Literal(value, t.values - {target}) == Unknown;
    } else {
      LiteralSound(value, t.values - {target}, s.env, s.issued, ctx.world, Returned(s.log, at), v);
    }
  }

  lemma OtherShape(target: string, value: Expr, span: Span, t: Tables, ctx: Context)
    requires target !in t.Watched() && CallRequest(value, t.values, t.clients).None?
    ensures var t' := WalkAssign(target, value, span, t, ctx).0;
      && t'.requests == t.requests && t'.values.Keys == t.values.Keys + {target}
      && (forall id :: id in t.values && id != target ==> t'.values[id] == t.values[id])
      && forall b :: b in t'.responses && b != target ==> b in t.responses && t'.responses[b] == t.responses[b]
  {
  }

  lemma AssignSound(target: string, value: Expr, span: Span, t: Tables, ctx: Context, s: State, s': State, at: seq<nat>)
      returns (at': seq<nat>)
    requires Describes(t, s, at) && Attributed(t.requests, s.log) && ExecAssign(target, value, span, ctx, s, s')
    ensures at' == if target !in t.Watched() && CallRequest(value, t.values, t.clients).Some? then at + [|s.log|]
      else at
    ensures var w := WalkAssign(target, value, span, t, ctx); Sound(w.0, w.1, s', Fell, at')
  {
    at' := at;
    if target in t.Watched() {
      var v := AssignedValue(target, value, span, ctx, s, s');
      LongerLog(t.requests, s.log, s'.log, {});
      StillPerformed(t.requests, s.log, s'.log, at);
    } else if CallRequest(value, t.values, t.clients).Some? {
      at' := at + [|s.log|];
      AssignRequestSound(target, value, span, t, ctx, s, s', at);
    } else {
      AssignOtherSound(target, value, span, t, ctx, s, s', at);
    }
  }

  /** What every assignment does: the target gets a value, and no assertion is logged. */
  lemma AssignedValue(target: string, value: Expr, span: Span, ctx: Context, s: State, s': State) returns (v: Val)
    requires ExecAssign(target, value, span, ctx, s, s')
    ensures s'.env == s.env[target := v] && (RequestShaped(value) || Evaluates(value, s.env, s.issued, ctx.world, v))
    ensures FreshResult(v, s.env) || Evaluates(value, s.env, s.issued, ctx.world, v)
    ensures s.log <= s'.log && forall j :: |s.log| <= j < |s'.log| ==> !s'.log[j].Checked?
  {
    if RequestShaped(value) {
      var args;
      args, v :| ExecRequest(target, value, span, ctx, s, s', args, v);
    } else {
      v :| Evaluates(value, s.env, s.issued, ctx.world, v) && s' == Told(s, value, ctx).(env := s.env[target := v]);
    }
  }

  lemma AssignRequestSound(target: string, value: Expr, span: Span, t: Tables, ctx: Context, s: State, s': State,
                           at: seq<nat>)
    requires Describes(t, s, at) && Attributed(t.requests, s.log) && ExecAssign(target, value, span, ctx, s, s')
    requires target !in t.Watched() && CallRequest(value, t.values, t.clients).Some?
    ensures Sound(WalkAssign(target, value, span, t, ctx).0, false, s', Fell, at + [|s.log|])
  {
    var t' := WalkAssign(target, value, span, t, ctx).0;
    var event := RequestLogged(target, value, span, t, ctx, s, s', at);
    RecordRequest(target, event, t, t', s, s', at);
    LongerLog(t.requests, s.log, s'.log, {});
    MoreRequests(t.requests, t'.requests, {}, s'.log);
  }

  /** The request that the walk records is the call that the run makes. */
  lemma RequestLogged(target: string, value: Expr, span: Span, t: Tables, ctx: Context, s: State, s': State,
                      at: seq<nat>)
      returns (event: Request)
    requires Describes(t, s, at) && ExecAssign(target, value, span, ctx, s, s')
    requires target !in t.Watched() && CallRequest(value, t.values, t.clients).Some?
    ensures var t' := WalkAssign(target, value, span, t, ctx).0;
      && t'.requests == t.requests + [event] && event.assertions == []
      && t'.values == t.values[target := Event(|t.requests|)] && t'.responses == t.responses[target := |t.requests|]
    ensures |s'.log| > |s.log| && s.log <= s'.log && IsCallOf(event, s'.log, |s.log|)
    ensures s'.env == s.env[target := s'.log[|s.log|].result]
    ensures forall j :: |s.log| <= j < |s'.log| ==> !s'.log[j].Checked?
  {
    event := RequestRecorded(target, value, span, t, ctx);
    var args, v :| ExecRequest(target, value, span, ctx, s, s', args, v);
    RequestMade(target, value, span, t, ctx, s, s', args, v);
    RequestCovered(value, t, ctx, s, at, args);
  }

  lemma RequestMade(target: string, value: Expr, span: Span, t: Tables, ctx: Context, s: State, s': State,
                    args: seq<Val>, v: Val)
    requires ExecRequest(target, value, span, ctx, s, s', args, v)
    ensures |s'.log| > |s.log| && s.log <= s'.log && s'.log[|s.log|] == CallEntry(value, span, s.env, args, v)
    ensures s'.env == s.env[target := v] && forall j :: |s.log| <= j < |s'.log| ==> !s'.log[j].Checked?
  {
    var entry, told := CallEntry(value, span, s.env, args, v), HandOver(value, s, ctx);
    assert s'.log == s.log + [entry] + told;
  }

  lemma RequestRecorded(target: string, value: Expr, span: Span, t: Tables, ctx: Context) returns (event: Request)
    requires target !in t.Watched() && CallRequest(value, t.values, t.clients).Some?
    ensures var (verb, paths) := CallRequest(value, t.values, t.clients).value;
      event == Request(verb, paths, target, span, [])
    ensures var t' := WalkAssign(target, value, span, t, ctx).0;
      && t'.requests == t.requests + [event]
      && t'.values == t.values[target := Event(|t.requests|)] && t'.responses == t.responses[target := |t.requests|]
  {
    var request := CallRequest(value, t.values, t.clients).value;
    event := Request(request.0, request.1, target, span, []);
  }

  lemma AssignOtherSound(target: string, value: Expr, span: Span, t: Tables, ctx: Context, s: State, s': State,
                         at: seq<nat>)
    requires Describes(t, s, at) && Attributed(t.requests, s.log) && ExecAssign(target, value, span, ctx, s, s')
    requires target !in t.Watched() && CallRequest(value, t.values, t.clients).None?
    ensures Sound(WalkAssign(target, value, span, t, ctx).0, false, s', Fell, at)
  {
    var v := AssignedValue(target, value, span, ctx, s, s');
    OtherCovered(target, value, span, t, ctx, s, at, v);
    OtherShape(target, value, span, t, ctx);
    RecordOther(target, t, WalkAssign(target, value, span, t, ctx).0, s, s', at, v);
    LongerLog(t.requests, s.log, s'.log, {});
  }

  /** An assertion: what the walk attributes to it, the run checks. */
  lemma CheckSound(test: Expr, span: Span, t: Tables, s: State, s': State, at: seq<nat>)
    requires Describes(t, s, at) && Attributed(t.requests, s.log) && Apart(t.requests, s.log, {span})
    requires s'.env == s.env && s.log + [Checked(span, test, s.env)] <= s'.log
    requires forall j :: |s.log| < j < |s'.log| ==> !s'.log[j].Checked?
    ensures Sound(WalkCheck(test, span, t), false, s', Fell, at)
  {
    var t' := WalkCheck(test, span, t);
    StillPerformed(t.requests, s.log, s'.log, at);
    LongerLog(t.requests, s.log, s'.log, {span});
    var last := |s.log|;
    forall i | 0 <= i < |t.requests| && Attributable(test, span, t, i) ensures ChecksResult(s'.log, last, span, at[i]) {
      assert IsCallOf(t.requests[i], s.log, at[i]);
      var b :| b in t.responses && t.responses[b] == i && b in Names(test) && Direct(test, b);
      assert s'.log[last].env[b] == s'.log[at[i]].result;
    }
    forall i | 0 <= i < |t'.requests| ensures IsCallOf(t'.requests[i], s'.log, at[i]) {
      assert IsCallOf(t.requests[i], s'.log, at[i]);
    }
    forall i, a | 0 <= i < |t'.requests| && a in t'.requests[i].assertions ensures AssertionRan(s'.log, a, at[i]) {
      if a in t.requests[i].assertions {
        assert AssertionRan(s'.log, a, at[i]);
      } else {
        assert ChecksResult(s'.log, last, span, at[i]);
      }
    }
    forall i, j | 0 <= i < |t'.requests| && 0 <= j < |s'.log| && s'.log[j].Checked? &&
      s'.log[j].span in t'.requests[i].assertions
      ensures exists c: nat :: IsCallOf(t'.requests[i], s'.log, c) && ChecksResult(s'.log, j, s'.log[j].span, c)
    {
      if j < last {
        assert s'.log[j] == s.log[j] && s.log[j].span != span;
        assert s'.log[j].span in t.requests[i].assertions;
        var c: nat :| IsCallOf(t.requests[i], s'.log, c) && ChecksResult(s'.log, j, s'.log[j].span, c);
        assert IsCallOf(t'.requests[i], s'.log, c);
      } else {
        assert ChecksResult(s'.log, last, span, at[i]) && IsCallOf(t'.requests[i], s'.log, at[i]);
      }
    }
  }

  /** Fewer responses and a longer log: still described. */
  lemma FewerResponses(t: Tables, responses: map<string, nat>, s: State, s': State, at: seq<nat>)
    requires Describes(t, s, at) && s'.env == s.env && s.log <= s'.log
    requires forall b :: b in responses ==> b in t.responses && responses[b] == t.responses[b]
    ensures Describes(t.(responses := responses), s', at)
  {
    StillPerformed(t.requests, s.log, s'.log, at);
    forall b | b in responses ensures s'.env[b] == s'.log[at[responses[b]]].result {
      assert IsCallOf(t.requests[responses[b]], s.log, at[responses[b]]);
    }
  }

  /** A bare call changes nothing but the responses, and those only by forgetting some. */
  lemma DoForgets(e: Expr, t: Tables, ctx: Context)
    ensures var t' := WalkDo(e, t, ctx).0;
      && t' == t.(responses := t'.responses)
      && forall b :: b in t'.responses ==> b in t.responses && t'.responses[b] == t.responses[b]
  {
  }

  lemma DoSound(e: Expr, t: Tables, ctx: Context, s: State, s': State, at: seq<nat>)
    requires Describes(t, s, at) && Attributed(t.requests, s.log) && s' == Told(s, e, ctx)
    ensures var w := WalkDo(e, t, ctx); Sound(w.0, w.1, s', Fell, at)
  {
    var t' := WalkDo(e, t, ctx).0;
    DoForgets(e, t, ctx);
    LongerLog(t.requests, s.log, s'.log, {});
    StillPerformed(t.requests, s.log, s'.log, at);
    FewerResponses(t, t'.responses, s, s', at);
  }

  /** A branch the walk cannot decide. */
  lemma UndecidedSound(body: seq<Stmt>, orelse: seq<Stmt>, taken: seq<Stmt>, t: Tables, ctx: Context, s: State,
                       s': State, out: Outcome, at: seq<nat>)
    requires Describes(t, s, at) && Attributed(t.requests, s.log)
    requires taken == body || taken == orelse
    requires ExecBlock(taken, ctx, s, s', out) && Apart(t.requests, s.log, Spans(taken))
    ensures Attributed(t.requests, s'.log) && Performed(t.requests, s'.log, at)
    ensures !Affects(body, t.Watched()) && !Affects(orelse, t.Watched()) ==>
      out != Outcome.Returned && Describes(Poison(t, Assigned(body) + Assigned(orelse)), s', at)
  {
    BlockFrame(taken, ctx, s, s', out);
    LongerLog(t.requests, s.log, s'.log, Spans(taken));
    StillPerformed(t.requests, s.log, s'.log, at);
    if !Affects(body, t.Watched()) && !Affects(orelse, t.Watched()) {
      NoReturn(taken, t.Watched(), ctx, s, s', out);
      PoisonDescribes(t, Assigned(body) + Assigned(orelse), s, s', at);
    }
  }

  lemma PoisonDescribes(t: Tables, names: set<string>, s: State, s': State, at: seq<nat>)
    requires Describes(t, s, at) && s.log <= s'.log && OnlyChanges(s, s', names)
    ensures Describes(Poison(t, names), s', at)
  {
    var t' := Poison(t, names);
    StillPerformed(t.requests, s.log, s'.log, at);
    forall b | b in t'.responses ensures s'.env[b] == s'.log[at[t'.responses[b]]].result {
      assert IsCallOf(t.requests[t.responses[b]], s.log, at[t.responses[b]]);
    }
  }

  /** A decided branch: the run takes it too, and the outer tables still describe the state after it. */
  lemma DecidedDescribes(branch: seq<Stmt>, ctx: Context, t: Tables, b: Tables, s: State, s': State, out: Outcome,
                         at: seq<nat>, at': seq<nat>)
    requires Describes(t, s, at) && Performed(b.requests, s'.log, at') && at <= at'
    requires ExecBlock(branch, ctx, s, s', out) && forall n :: n in Assigned(branch) ==> Indifferent(n, t)
    ensures Describes(t.(requests := b.requests), s', at')
  {
    BlockFrame(branch, ctx, s, s', out);
    StillPerformed(t.requests, s.log, s'.log, at);
    var returned, more := Returned(s.log, at), Returned(s'.log, at');
    forall i | i in returned ensures i in more && more[i] == returned[i] {
      assert IsCallOf(t.requests[i], s.log, at[i]);
    }
    forall id | id in t.values
      ensures if id in s'.env then Covers(t.values[id], s'.env[id], more) else t.values[id] == Dynamic {
      if id in s.env {
        CoversMore(t.values[id], s.env[id], returned, more);
      }
    }
    forall x | x in t.responses ensures s'.env[x] == s'.log[at'[t.responses[x]]].result {
      assert IsCallOf(t.requests[t.responses[x]], s.log, at[t.responses[x]]);
    }
  }

  lemma TruthDecided(test: Expr, t: Tables, ctx: Context, s: State, at: seq<nat>, v: Val, truth: bool)
    requires Describes(t, s, at) && StaticTruth(test, t.values).Some?
    requires Evaluates(test, s.env, s.issued, ctx.world, v) && TruthIs(v, truth)
    ensures StaticTruth(test, t.values).value == truth
  {
    LiteralSound(test, t.values, s.env, s.issued, ctx.world, Returned(s.log, at), v);
  }

  // ----- Whole blocks -----

  lemma {:induction false} StmtSound(stmt: Stmt, t: Tables, ctx: Context, s: State, s': State, out: Outcome,
                                     at: seq<nat>)
      returns (at': seq<nat>)
    requires Describes(t, s, at) && Attributed(t.requests, s.log) && ExecStmt(stmt, ctx, s, s', out)
    requires DistinctIn(stmt) && SettledStmt(stmt, t, ctx) && Apart(t.requests, s.log, SpansOf(stmt))
    ensures at <= at'
    ensures var w := WalkStmt(stmt, t, ctx); Sound(w.0, w.1, s', out, at')
    decreases stmt, 1
  {
    at' := at;
    if out == Raised && s' == s {
      StmtGrows(stmt, t, ctx);
      MoreRequests(t.requests, WalkStmt(stmt, t, ctx).0.requests, SpansOf(stmt), s.log);
    } else {
      match stmt
      case Pass =>
      case Return =>
      case Assign(target, value, span, _) => at' := AssignSound(target, value, span, t, ctx, s, s', at);
      case Do(e) => DoSound(e, t, ctx, s, s', at);
      case Check(test, span) => CheckSound(test, span, t, s, s', at);
      case If(_, _, _) => at' := IfSound(stmt, t, ctx, s, s', out, at);
    }
  }

  lemma {:induction false} IfSound(stmt: Stmt, t: Tables, ctx: Context, s: State, s': State, out: Outcome, at: seq<nat>)
      returns (at': seq<nat>)
    requires stmt.If? && Describes(t, s, at) && Attributed(t.requests, s.log)
    requires ExecStmt(stmt, ctx, s, s', out) && !(out == Raised && s' == s)
    requires DistinctIn(stmt) && SettledStmt(stmt, t, ctx) && Apart(t.requests, s.log, SpansOf(stmt))
    ensures at <= at'
    ensures var w := WalkStmt(stmt, t, ctx); Sound(w.0, w.1, s', out, at')
    decreases stmt, 0
  {
    at' := at;
    var m := Told(s, stmt.test, ctx);
    var v, truth :| Evaluates(stmt.test, s.env, s.issued, ctx.world, v) && TruthIs(v, truth) &&
      ExecBlock(if truth then stmt.body else stmt.orelse, ctx, m, s', out);
    var branch := if truth then stmt.body else stmt.orelse;
    LongerLog(t.requests, s.log, m.log, {});
    FewerResponses(t, t.responses, s, m, at);
    if StaticTruth(stmt.test, t.values).Some? {
      TruthDecided(stmt.test, t, ctx, s, at, v, truth);
      at' := BranchSound(stmt, branch, t, ctx, m, s', out, at);
    } else {
      UndecidedSound(stmt.body, stmt.orelse, branch, t, ctx, m, s', out, at);
    }
  }

  lemma {:induction false} BranchSound(stmt: Stmt, branch: seq<Stmt>, t: Tables, ctx: Context, s: State, s': State,
                                       out: Outcome, at: seq<nat>)
      returns (at': seq<nat>)
    requires stmt.If? && StaticTruth(stmt.test, t.values).Some?
    requires branch == if StaticTruth(stmt.test, t.values).value then stmt.body else stmt.orelse
    requires Describes(t, s, at) && Attributed(t.requests, s.log) && ExecBlock(branch, ctx, s, s', out)
    requires DistinctIn(stmt) && SettledStmt(stmt, t, ctx) && Apart(t.requests, s.log, SpansOf(stmt))
    ensures at <= at'
    ensures var w := WalkStmt(stmt, t, ctx); Sound(w.0, w.1, s', out, at')
    decreases branch, 2
  {
    at' := BlockSound(branch, t, ctx, s, s', out, at);
    var (b, stopped) := WalkBlock(branch, t, ctx);
    if out == Fell && !stopped {
      DecidedDescribes(branch, ctx, t, b, s, s', out, at, at');
    }
  }

  lemma {:induction false} BlockSound(stmts: seq<Stmt>, t: Tables, ctx: Context, s: State, s': State, out: Outcome,
                                      at: seq<nat>)
      returns (at': seq<nat>)
    requires Describes(t, s, at) && Attributed(t.requests, s.log) && ExecBlock(stmts, ctx, s, s', out)
    requires DistinctSpans(stmts) && Settled(stmts, t, ctx) && Apart(t.requests, s.log, Spans(stmts))
    ensures at <= at'
    ensures var w := WalkBlock(stmts, t, ctx); Sound(w.0, w.1, s', out, at')
    decreases stmts, 1
  {
    at' := at;
    if |stmts| > 0 {
      var m, o :| ExecStmt(stmts[0], ctx, s, m, o) &&
        if o == Fell then ExecBlock(stmts[1..], ctx, m, s', out) else s' == m && out == o;
      var (t1, stopped) := WalkStmt(stmts[0], t, ctx);
      at' := StmtSound(stmts[0], t, ctx, s, m, o, at);
      StillApart(stmts, t, ctx, s, m, o);
      if o != Fell {
        if !stopped {
          BlockGrows(stmts[1..], t1, ctx);
          MoreRequests(t1.requests, WalkBlock(stmts[1..], t1, ctx).0.requests, Spans(stmts[1..]), m.log);
        }
      } else if stopped {
        BlockFrame(stmts[1..], ctx, m, s', out);
        LongerLog(t1.requests, m.log, s'.log, Spans(stmts[1..]));
        StillPerformed(t1.requests, m.log, s'.log, at');
      } else {
        at' := BlockSound(stmts[1..], t1, ctx, m, s', out, at');
      }
    }
  }

  /** After the first statement, nothing attributed and nothing logged lies in the rest. */
  lemma StillApart(stmts: seq<Stmt>, t: Tables, ctx: Context, s: State, m: State, o: Outcome)
    requires |stmts| > 0 && DistinctSpans(stmts) && Apart(t.requests, s.log, Spans(stmts)) &&
      ExecStmt(stmts[0], ctx, s, m, o)
    ensures Apart(WalkStmt(stmts[0], t, ctx).0.requests, m.log, Spans(stmts[1..]))
  {
    var rs := WalkStmt(stmts[0], t, ctx).0.requests;
    StmtFrame(stmts[0], ctx, s, m, o);
    StmtGrows(stmts[0], t, ctx);
    forall i, a | 0 <= i < |rs| && a in rs[i].assertions ensures a !in Spans(stmts[1..]) {
      if i < |t.requests| {
        assert SameRequest(t.requests[i], rs[i], SpansOf(stmts[0]));
      }
    }
    forall j | 0 <= j < |m.log| && m.log[j].Checked? ensures m.log[j].span !in Spans(stmts[1..]) {
      if j < |s.log| {
        assert m.log[j] == s.log[j];
      }
    }
  }

  // ----- The theorems -----

  /** The tables at the start of a test: nothing requested yet, the module's values known. */
  ghost predicate Initial(t: Tables, s: State) {
    t.tainted == {} && t.responses == map[] && t.requests == [] && s.log == [] && TableCovers(t.values, s.env, map[])
  }

  lemma InitialDescribes(t: Tables, s: State)
    requires Initial(t, s)
    ensures Describes(t, s, []) && Attributed(t.requests, s.log)
  {
    assert Returned(s.log, []) == map[];
  }

  /** On every run, complete or cut short by an exception: an assertion that the analyser attributes to
      a request checks, whenever it is reached, a variable that holds the very object which that call
      returned, and the call was made with the recorded verb and a path that the recorded one covers. */
  lemma AttributionSound(body: seq<Stmt>, t: Tables, ctx: Context, s: State, s': State, out: Outcome)
    requires Initial(t, s) && DistinctSpans(body) && Settled(body, t, ctx) && ExecBlock(body, ctx, s, s', out)
    ensures Attributed(WalkBlock(body, t, ctx).0.requests, s'.log)
  {
    InitialDescribes(t, s);
    var at := BlockSound(body, t, ctx, s, s', out, []);
  }

  /** On every run in which the test passes, every recorded request was made and every attributed
      assertion was reached: nothing that the analyser counts as evidence can be skipped. */
  lemma EvidencePerformed(body: seq<Stmt>, t: Tables, ctx: Context, s: State, s': State, out: Outcome)
    requires Initial(t, s) && DistinctSpans(body) && Settled(body, t, ctx) && ExecBlock(body, ctx, s, s', out)
    requires out != Raised
    ensures exists at :: Performed(WalkBlock(body, t, ctx).0.requests, s'.log, at)
  {
    InitialDescribes(t, s);
    var at := BlockSound(body, t, ctx, s, s', out, []);
  }
}
