/** The walk as the analyser performs it: dictionaries, sets and lists updated in place. */
module ApiWalker {
  import opened PyAst
  import opened Folding
  import opened HelperCheck
  import opened ApiWalk

  class Walker {
    var values: Table
    var clients: set<string>
    var tainted: set<string>
    var responses: map<string, nat>
    var requests: seq<Request>

    ghost function Now(): Tables
      reads this
    {
      Tables(values, clients, tainted, responses, requests)
    }

    /** Every response belongs to a recorded request. */
    ghost predicate Valid()
      reads this
    {
      forall b :: b in responses ==> responses[b] < |requests|
    }

    constructor (initial: Table, fixtureClients: set<string>)
      ensures Valid() && Now() == Tables(initial, fixtureClients, {}, map[], [])
    {
      values, clients, tainted, responses, requests := initial, fixtureClients, {}, map[], [];
    }

    /** `_walk_api_block` */
    method Walk(stmts: seq<Stmt>, ctx: Context) returns (stopped: bool)
      requires Valid()
      modifies this
      ensures Valid() && |requests| >= old(|requests|)
      ensures (Now(), stopped) == WalkBlock(stmts, old(Now()), ctx)
      decreases stmts, 1
    {
      var k := 0;
      while k < |stmts|
        invariant 0 <= k <= |stmts| && Valid() && |requests| >= old(|requests|)
        invariant WalkBlock(stmts, old(Now()), ctx) == WalkBlock(stmts[k..], Now(), ctx)
      {
        assert stmts[k..][0] == stmts[k] && stmts[k..][1..] == stmts[k + 1..];
        stopped := WalkOne(stmts[k], ctx);
        if stopped {
          return;
        }
        k := k + 1;
      }
      stopped := false;
    }

    method WalkOne(stmt: Stmt, ctx: Context) returns (stopped: bool)
      requires Valid()
      modifies this
      ensures Valid() && |requests| >= old(|requests|)
      ensures (Now(), stopped) == WalkStmt(stmt, old(Now()), ctx)
      decreases stmt, 0
    {
      stopped := false;
      match stmt
      case Return => stopped := true;
      case Raise => stopped := true;
      case Pass =>
      case Assign(target, value, span, _) => stopped := BindTarget(target, value, span, ctx);
      case Do(call) => stopped := BareCall(call, ctx);
      case Check(test, span) => RecordAssertion(test, span);
      case If(test, body, orelse) =>
        var truth := StaticTruth(test, values);
        if truth.Some? {
          var values0, clients0, tainted0, responses0 := values, clients, tainted, responses;
          stopped := Walk(if truth.value then body else orelse, ctx);
          values, clients, tainted, responses := values0, clients0, tainted0, responses0;
        } else {
          var watched := clients + tainted + responses.Keys;
          if Affects(body, watched) || Affects(orelse, watched) {
            stopped := true;
          } else {
            PoisonNames(Assigned(body) + Assigned(orelse));
          }
        }
    }

    /** The assignment branch of the walk. */
    method BindTarget(target: string, value: Expr, span: Span, ctx: Context) returns (stopped: bool)
      requires Valid()
      modifies this
      ensures Valid() && |requests| >= old(|requests|)
      ensures (Now(), stopped) == WalkAssign(target, value, span, old(Now()), ctx)
    {
      if target in clients + tainted + responses.Keys {
        return true;
      }
      var request := CallRequest(value, values, clients);
      if request.Some? {
        var event := Request(request.value.0, request.value.1, target, span, []);
        values, responses := values[target := Event(|requests|)], responses[target := |requests|];
        requests := requests + [event];
        clients, tainted := clients - {target}, tainted - {target};
      } else if value.Name? && value.id in clients {
        responses := responses - {target};
        values := values[target := Dynamic];
        clients, tainted := clients + {target}, tainted - {target};
      } else if value.Name? && value.id in responses {
        var index := responses[value.id];
        responses, values := responses[target := index], values[target := Event(index)];
        clients, tainted := clients - {target}, tainted - {target};
      } else if AliasRoots(value) * (clients + tainted + responses.Keys) != {} {
        responses := responses - {target};
        values := values[target := Dynamic];
        clients, tainted := clients - {target}, tainted + {target};
      } else {
        responses, values, tainted := responses - {target}, values - {target}, tainted - {target};
        if target in CLIENT_NAMES {
          clients := if FixtureDerived(value, ctx.fixtures) then clients + {target} else clients - {target};
        }
        values := values[target := Literal(value, values)];
      }
      stopped := false;
    }

    /** The assertion branch: one pass over the response bindings. */
    method RecordAssertion(test: Expr, span: Span)
      requires Valid()
      modifies this`requests
      ensures Valid() && |requests| == old(|requests|)
      ensures Now() == WalkCheck(test, span, old(Now()))
    {
      ghost var t := Now();
      requests := OfferToBindings(responses, requests, test, span);
      forall i | 0 <= i < |requests| ensures requests[i] == WalkCheck(test, span, t).requests[i] {
        SameOffer(t, test, span, i);
      }
      assert requests == WalkCheck(test, span, t).requests;
    }

    /** `_poison_control_flow_assignments` */
    method PoisonNames(names: set<string>)
      requires Valid()
      modifies this`values, this`responses
      ensures Valid() && Now() == Poison(old(Now()), names)
    {
      ghost var t := Now();
      values, responses := MakeDynamic(values, responses, names);
      assert values == Poison(t, names).values;
      assert responses == Poison(t, names).responses;
    }

    /** The expression-statement branch. */
    method BareCall(e: Expr, ctx: Context) returns (stopped: bool)
      requires Valid()
      modifies this`responses
      ensures Valid()
      ensures (Now(), stopped) == WalkDo(e, old(Now()), ctx)
    {
      if Terminator(e) || MutationCall(e, clients + tainted + responses.Keys) {
        return true;
      }
      if SafeClientCleanup(e, clients) {
        return false;
      }
      var call := StripAwait(e);
      if !call.Call? || CallRequest(call, values, clients).Some? {
        return false;
      }
      var names := ExecNames(call);
      if names * tainted != {} {
        return true;
      }
      var remaining := responses;
      var name := DottedName(call.func);
      if name.Some? && name.value in ctx.helpers {
        var inside := ctx.helpers[name.value].names;
        var captured := inside * clients;
        if inside * tainted != {} {
          return true;
        }
        if captured != {} && !Preserves(Pair(name.value, multiset(captured)), ctx.helpers, {}) {
          return true;
        }
        remaining := Forget(remaining, inside);
      }
      if names * clients != {} && !SafeLocalHelperCall(call, clients, ctx.helpers) {
        return true;
      }
      responses := Forget(remaining, names);
      stopped := false;
    }
  }

  /** Popping every binding whose request object is that of one of `names`. */
  method Forget(responses: map<string, nat>, names: set<string>) returns (remaining: map<string, nat>)
    ensures remaining == DropEvents(responses, names)
  {
    var invalidated := set n | n in names && n in responses :: responses[n];
    remaining := responses;
    var left := responses.Keys;
    while left != {}
      invariant left <= responses.Keys
      invariant forall b :: b in remaining <==> b in responses && (b in left || responses[b] !in invalidated)
      invariant forall b :: b in remaining ==> remaining[b] == responses[b]
      decreases left
    {
      var b :| b in left;
      if responses[b] in invalidated {
        remaining := remaining - {b};
      }
      left := left - {b};
    }
  }

  /** Overwriting the value of every name, and popping it from the responses. */
  method MakeDynamic(values: Table, responses: map<string, nat>, names: set<string>)
      returns (values': Table, responses': map<string, nat>)
    ensures values'.Keys == values.Keys + names
    ensures forall n :: n in values' ==> values'[n] == if n in names then Dynamic else values[n]
    ensures responses' == responses - names
  {
    values', responses' := values, responses;
    var left := names;
    while left != {}
      invariant left <= names
      invariant values'.Keys == values.Keys + (names - left)
      invariant forall n :: n in values' ==> values'[n] == if n in names - left then Dynamic else values[n]
      invariant responses' == responses - (names - left)
      decreases left
    {
      var name :| name in left;
      values', responses' := values'[name := Dynamic], responses' - {name};
      left := left - {name};
    }
    assert names - left == names;
  }

  /** One pass over the response bindings, appending the assertion where it is direct evidence. */
  method OfferToBindings(responses: map<string, nat>, requests: seq<Request>, test: Expr, span: Span)
      returns (updated: seq<Request>)
    requires forall b :: b in responses ==> responses[b] < |requests|
    ensures |updated| == |requests|
    ensures forall i :: 0 <= i < |requests| ==>
      updated[i] == AfterBindings(responses, requests[i], i, test, span, responses.Keys)
  {
    updated := requests;
    var names, left := Names(test), responses.Keys;
    while left != {}
      invariant left <= responses.Keys && |updated| == |requests|
      invariant forall i :: 0 <= i < |requests| ==>
        updated[i] == AfterBindings(responses, requests[i], i, test, span, responses.Keys - left)
      decreases left
    {
      var b :| b in left;
      var index := responses[b];
      ghost var before := updated;
      if b in names && Direct(test, b) && span.NotBefore(updated[index].span) && span !in updated[index].assertions {
        updated := updated[index := updated[index].(assertions := updated[index].assertions + [span])];
      }
      assert responses.Keys - (left - {b}) == (responses.Keys - left) + {b};
      forall i | 0 <= i < |requests|
        ensures updated[i] == AfterBindings(responses, requests[i], i, test, span, responses.Keys - (left - {b}))
      {
        OneMoreBinding(responses, requests[i], i, test, span, responses.Keys - left, b);
        assert before[i] == AfterBindings(responses, requests[i], i, test, span, responses.Keys - left);
      }
      left := left - {b};
    }
    assert responses.Keys - left == responses.Keys;
  }

  /** Some binding in `done` gives the assertion direct access to the response of request `i`. */
  ghost predicate Offered(responses: map<string, nat>, i: nat, test: Expr, done: set<string>) {
    exists b :: b in done && b in responses && responses[b] == i && b in Names(test) && Direct(test, b)
  }

  /** Request `r`, number `i`, after the assertion has been offered to the bindings in `done`. */
  ghost function AfterBindings(responses: map<string, nat>, r: Request, i: nat, test: Expr, span: Span,
                               done: set<string>): Request {
    if span !in r.assertions && span.NotBefore(r.span) && Offered(responses, i, test, done)
    then r.(assertions := r.assertions + [span])
    else r
  }

  lemma SameOffer(t: Tables, test: Expr, span: Span, i: nat)
    requires i < |t.requests|
    ensures Attributable(test, span, t, i) <==>
      span !in t.requests[i].assertions && span.NotBefore(t.requests[i].span) &&
        Offered(t.responses, i, test, t.responses.Keys)
  {
  }

  lemma OneMoreBinding(responses: map<string, nat>, r: Request, i: nat, test: Expr, span: Span, done: set<string>,
                       b: string)
    requires b in responses
    ensures AfterBindings(responses, r, i, test, span, done + {b}) ==
      var r' := AfterBindings(responses, r, i, test, span, done);
      if responses[b] == i && b in Names(test) && Direct(test, b) && span.NotBefore(r'.span) && span !in r'.assertions
      then r'.(assertions := r'.assertions + [span]) else r'
  {
    if responses[b] == i && b in Names(test) && Direct(test, b) {
      assert b in done + {b};
    }
  }
}
