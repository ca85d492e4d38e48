/** What the taint, alias and invalidation rules of the source-witness analyser are for: between the call
    that returned a response and an assertion attributed to it, no call was handed that response. */
module WitnessCustody {
  import opened PyAst
  import opened PySemantics
  import opened ApiWalk
  import opened WitnessRuns
  import opened WitnessSoundness

  // ----- What is claimed of a run -----

  /** If the call at entry `c` returned a new object, no call between that entry and entry `j` was handed it. */
  ghost predicate Intact(log: seq<Entry>, c: nat, j: nat)
    requires c < |log| && log[c].Called? && j <= |log|
  {
    log[c].isNew && log[c].result.VObj? ==>
      forall k :: c < k < j && log[k].Handed? ==> log[c].result.id !in log[k].objs
  }

  /** Entry `j`, an assertion, checks the untouched result of the call at entry `c`, made for request `r`. */
  ghost predicate ChecksIntact(r: Request, log: seq<Entry>, j: nat, c: nat)
    requires j < |log| && log[j].Checked?
  {
    IsCallOf(r, log, c) && ChecksResult(log, j, log[j].span, c) && Intact(log, c, j)
  }

  /** Wherever the run reached an attributed assertion, it checked a response that nothing else was handed. */
  ghost predicate Undisturbed(requests: seq<Request>, log: seq<Entry>) {
    forall i, j :: 0 <= i < |requests| && 0 <= j < |log| && log[j].Checked? && log[j].span in requests[i].assertions ==>
      exists c: nat :: ChecksIntact(requests[i], log, j, c)
  }

  lemma UndisturbedIsAttributed(requests: seq<Request>, log: seq<Entry>)
    requires Undisturbed(requests, log)
    ensures Attributed(requests, log)
  {
    forall i, j | 0 <= i < |requests| && 0 <= j < |log| && log[j].Checked? && log[j].span in requests[i].assertions
      ensures exists c: nat :: IsCallOf(requests[i], log, c) && ChecksResult(log, j, log[j].span, c)
    {
      var c: nat :| ChecksIntact(requests[i], log, j, c);
    }
  }

  lemma MoreUndisturbed(rs: seq<Request>, rs': seq<Request>, spans: set<Span>, log: seq<Entry>)
    requires Undisturbed(rs, log) && Grows(rs, rs', spans)
    requires forall j :: 0 <= j < |log| && log[j].Checked? ==> log[j].span !in spans
    ensures Undisturbed(rs', log)
  {
    forall i, j | 0 <= i < |rs'| && 0 <= j < |log| && log[j].Checked? && log[j].span in rs'[i].assertions
      ensures exists c: nat :: ChecksIntact(rs'[i], log, j, c)
    {
      assert SameRequest(rs[i], rs'[i], spans);
      var c: nat :| ChecksIntact(rs[i], log, j, c);
      assert ChecksIntact(rs'[i], log, j, c);
    }
  }

  lemma LongerUndisturbed(rs: seq<Request>, log: seq<Entry>, log': seq<Entry>, spans: set<Span>)
    requires Undisturbed(rs, log) && log <= log'
    requires forall j :: |log| <= j < |log'| && log'[j].Checked? ==> log'[j].span in spans
    requires forall i, a :: 0 <= i < |rs| && a in rs[i].assertions ==> a !in spans
    ensures Undisturbed(rs, log')
  {
    forall i, j | 0 <= i < |rs| && 0 <= j < |log'| && log'[j].Checked? && log'[j].span in rs[i].assertions
      ensures exists c: nat :: ChecksIntact(rs[i], log', j, c)
    {
      assert j < |log| && log[j] == log'[j];
      var c: nat :| ChecksIntact(rs[i], log, j, c);
      assert log[c] == log'[c] && forall k :: c < k < j ==> log'[k] == log[k];
      assert ChecksIntact(rs[i], log', j, c);
    }
  }

  // ----- The invariant -----

  /** The names that are known to be able to reach a response. */
  function Holders(t: Tables): set<string> {
    t.tainted + t.responses.Keys
  }

  ghost predicate IsNew(log: seq<Entry>, c: nat) {
    c < |log| && log[c].Called? && log[c].isNew && log[c].result.VObj?
  }

  /** Only tainted names and names of the same response hold what the call of request `i` returned, and no
      call has been handed it. */
  ghost predicate Guarded(t: Tables, s: State, at: seq<nat>, i: nat)
    requires i < |at|
  {
    IsNew(s.log, at[i]) ==>
      var o := s.log[at[i]].result.id;
      && o in s.issued && Intact(s.log, at[i], |s.log|)
      && forall n :: n in s.env && o in Objs(s.env[n]) ==> n in t.tainted || (n in t.responses && t.responses[n] == i)
  }

  /** The name is bound to what the call of its request returned. */
  ghost predicate BoundTo(t: Tables, s: State, at: seq<nat>, b: string)
    requires b in t.responses
  {
    var i := t.responses[b];
    i < |at| && at[i] < |s.log| && s.log[at[i]].Called? && b in s.env && s.env[b] == s.log[at[i]].result
  }

  ghost predicate Separate(t: Tables) {
    t.clients !! Holders(t) && t.tainted !! t.responses.Keys
  }

  ghost predicate Guards(t: Tables, s: State, at: seq<nat>) {
    && Separate(t)
    && forall b :: b in t.responses ==> BoundTo(t, s, at, b) && Guarded(t, s, at, t.responses[b])
  }

  /** What holds a guarded response is a holder. */
  lemma HeldByHolder(t: Tables, s: State, at: seq<nat>, b: string, names: iset<string>)
    requires Guards(t, s, at) && b in t.responses && IsNew(s.log, at[t.responses[b]])
    requires s.log[at[t.responses[b]]].result.id in ObjsOf(names, s.env)
    ensures !Clear(names, Holders(t))
    ensures exists n :: n in names && (n in t.tainted || (n in t.responses && t.responses[n] == t.responses[b]))
  {
    var i := t.responses[b];
    assert Guarded(t, s, at, i);
    var n :| n in names && n in s.env && s.log[at[i]].result.id in Objs(s.env[n]);
    assert n in Holders(t);
  }

  /** Calls that receive nothing from a holder change nothing. */
  lemma ToldGuards(t: Tables, s: State, s': State, at: seq<nat>, e: Expr, k: Sight, ctx: Context)
    requires Guards(t, s, at) && s' == Told(s, e, ctx) && Sees(k, s, ctx) && Clear(Given(e, k, ctx.world), Holders(t))
    ensures Guards(t, s', at)
  {
    GivenFew(e, k, s, ctx);
    forall b | b in t.responses ensures BoundTo(t, s', at, b) && Guarded(t, s', at, t.responses[b]) {
      assert BoundTo(t, s, at, b) && Guarded(t, s, at, t.responses[b]);
      if IsNew(s.log, at[t.responses[b]]) {
        var names := Given(e, SightOf(s, ctx), ctx.world);
        if s.log[at[t.responses[b]]].result.id in ObjsOf(names, s.env) {
          HeldByHolder(t, s, at, b, names);
        }
      }
    }
  }

  // ----- What is known of functions -----

  ghost predicate Clear(names: iset<string>, holders: set<string>) {
    forall n :: n in holders ==> n !in names
  }

  /** What leads to what in the state, and what has escaped in it, is known. */
  ghost predicate Sees(k: Sight, s: State, ctx: Context) {
    FewerLinks(LinksOf(s.env, ctx.world), k.links) && s.escaped <= k.loose
  }

  /** Nothing is missing: functions lead to what they mention, targets to what the values assigned to them capture,
      and what functions given to calls read is loose. */
  ghost predicate Complete(stmts: seq<Stmt>, k: Sight, ctx: Context)
    decreases stmts, 1
  {
    forall i :: 0 <= i < |stmts| ==> CompleteIn(stmts[i], k, ctx)
  }

  ghost predicate CompleteIn(stmt: Stmt, k: Sight, ctx: Context)
    decreases stmt, 0
  {
    match stmt
    case Assign(target, value, _, _) =>
      && Freed(value, k, ctx.world) <= k.loose
      && forall n :: n in Late(value, k.links, ctx.world) ==> n in k.links(target)
    case Do(e) => Freed(e, k, ctx.world) <= k.loose
    case Check(test, _) => Freed(test, k, ctx.world) <= k.loose
    case If(test, body, orelse) =>
      Freed(test, k, ctx.world) <= k.loose && Complete(body, k, ctx) && Complete(orelse, k, ctx)
    case _ => true
  }

  lemma {:induction false} ExposesMonotone(e: Expr, few: Links, many: Links, w: Setting, n: string)
    requires FewerLinks(few, many)
    ensures Exposes(e, few, w, n) ==> Exposes(e, many, w, n)
    ensures Frees(e, few, w, n) ==> Frees(e, many, w, n)
    decreases e
  {
    ValsMonotone(e, few, many, w);
    LateMonotone(e, few, many, w);
    forall i | 0 <= i < |Evaluated(e)|
      ensures Exposes(Evaluated(e)[i], few, w, n) ==> Exposes(Evaluated(e)[i], many, w, n)
      ensures Frees(Evaluated(e)[i], few, w, n) ==> Frees(Evaluated(e)[i], many, w, n)
    {
      ExposesMonotone(Evaluated(e)[i], few, many, w, n);
    }
  }

  lemma GivenFew(e: Expr, k: Sight, s: State, ctx: Context)
    requires Sees(k, s, ctx)
    ensures Given(e, SightOf(s, ctx), ctx.world) <= Given(e, k, ctx.world)
    ensures Freed(e, SightOf(s, ctx), ctx.world) <= Freed(e, k, ctx.world)
  {
    var links := LinksOf(s.env, ctx.world);
    forall n | Exposes(e, links, ctx.world, n) || Frees(e, links, ctx.world, n)
      ensures Exposes(e, links, ctx.world, n) ==> Exposes(e, k.links, ctx.world, n)
      ensures Frees(e, links, ctx.world, n) ==> Frees(e, k.links, ctx.world, n)
    {
      ExposesMonotone(e, links, k.links, ctx.world, n);
    }
    ReachMonotone(links, k.links, s.escaped, k.loose);
  }

  lemma ToldSeen(e: Expr, k: Sight, s: State, ctx: Context)
    requires Sees(k, s, ctx) && Freed(e, k, ctx.world) <= k.loose
    ensures Sees(k, Told(s, e, ctx), ctx)
  {
    GivenFew(e, k, s, ctx);
  }

  lemma AssignSeen(target: string, value: Expr, span: Span, annotated: bool, k: Sight, ctx: Context, s: State,
                   s': State)
    requires Sees(k, s, ctx) && CompleteIn(Assign(target, value, span, annotated), k, ctx)
    requires ExecAssign(target, value, span, ctx, s, s')
    ensures Sees(k, s', ctx)
  {
    var v := AssignedValue(target, value, span, ctx, s, s');
    var links, links' := LinksOf(s.env, ctx.world), LinksOf(s'.env, ctx.world);
    GivenFew(value, k, s, ctx);
    AssignFrees(target, value, span, ctx, s, s');
    LateMonotone(value, links, k.links, ctx.world);
    if !FreshResult(v, s.env) {
      FlowSound(value, s.env, s.issued, ctx.world, v);
    }
    forall n ensures links'(n) <= k.links(n) {
      assert links(n) <= k.links(n);
      assert n != target ==> links'(n) == links(n);
      assert links'(target) == Captures(v);
    }
  }

  lemma AssignFrees(target: string, value: Expr, span: Span, ctx: Context, s: State, s': State)
    requires ExecAssign(target, value, span, ctx, s, s')
    ensures s'.escaped == s.escaped + Freed(value, SightOf(s, ctx), ctx.world)
  {
    if RequestShaped(value) {
      var args, v :| ExecRequest(target, value, span, ctx, s, s', args, v);
    }
  }

  // ----- The least that must be known -----

  ghost predicate Enough(k: Sight, body: seq<Stmt>, s: State, ctx: Context) {
    Sees(k, s, ctx) && Complete(body, k, ctx)
  }

  ghost predicate Narrower(j: Sight, k: Sight) {
    FewerLinks(j.links, k.links) && j.loose <= k.loose
  }

  ghost predicate Leads(body: seq<Stmt>, s: State, ctx: Context, n: string, m: string) {
    forall k: Sight :: Enough(k, body, s, ctx) ==> m in k.links(n)
  }

  ghost predicate IsLoose(body: seq<Stmt>, s: State, ctx: Context, n: string) {
    forall k: Sight :: Enough(k, body, s, ctx) ==> n in k.loose
  }

  /** What every sight that has enough of the body agrees on. */
  ghost function Overview(body: seq<Stmt>, s: State, ctx: Context): Sight {
    Sight((n: string) => set m | m in Spelled(body, s, ctx) && Leads(body, s, ctx, n, m),
          iset n | IsLoose(body, s, ctx, n))
  }

  ghost function Bound(s: State): set<string> {
    set n, m | n in s.env && m in Captures(s.env[n]) :: m
  }

  ghost function Functions(ctx: Context): set<string> {
    set h, n | h in ctx.world.functions && n in ctx.world.functions[h] :: n
  }

  /** The names in the values assigned under the statements. */
  function Spoken(stmts: seq<Stmt>): set<string>
    decreases stmts, 1
  {
    set i, n | 0 <= i < |stmts| && n in SpokenIn(stmts[i]) :: n
  }

  function SpokenIn(stmt: Stmt): set<string>
    decreases stmt, 0
  {
    match stmt
    case Assign(_, value, _, _) => Names(value)
    case If(_, body, orelse) => Spoken(body) + Spoken(orelse)
    case _ => {}
  }

  ghost function Spelled(body: seq<Stmt>, s: State, ctx: Context): set<string> {
    Spoken(body) + Bound(s) + Functions(ctx)
  }

  lemma {:induction false} LateSpelled(e: Expr, links: Links, w: Setting, names: set<string>)
    requires Names(e) <= names && forall n :: links(n) <= names
    ensures forall n :: n in Late(e, links, w) ==> n in names
    decreases e
  {
    forall n | n in AllLate(e, Parts(e, w), links, w) ensures n in names {
      assert AnyLate(e, Parts(e, w), links, w, n);
      var i :| 0 <= i < |Parts(e, w)| && n in Late(Parts(e, w)[i], links, w);
      forall m | m in Names(Parts(e, w)[i]) ensures m in names {
        PartNamed(e, i, w, m);
      }
      LateSpelled(Parts(e, w)[i], links, w, names);
    }
    if e.Lambda? {
      ResultNamed(e);
    } else if Draws(e, w) {
      PartsLate(e, links, w);
      ReachLeast(links, AllLate(e, Parts(e, w), links, w), iset n | n in names);
    }
  }

  lemma ResultNamed(e: Expr)
    requires e.Lambda?
    ensures FreeNames(e.result) <= Names(e)
  {
    FreeNamed(e.result);
    assert Children(e)[|e.defaults|] == e.result;
  }

  lemma FreeIn(e: Expr, n: string) returns (i: nat)
    requires n in FreeNames(e) && !e.Name?
    ensures i < |Children(e)| && n in FreeNames(Children(e)[i])
  {
    if e.Lambda? {
      if n in FreeNames(e.result) {
        i := |e.defaults|;
      } else {
        i :| i < |e.defaults| && n in FreeNames(e.defaults[i]);
      }
      assert Children(e)[i] == if i < |e.defaults| then e.defaults[i] else e.result;
    } else {
      i :| 0 <= i < |Children(e)| && n in FreeNames(Children(e)[i]);
    }
  }

  lemma {:induction false} FreeNamed(e: Expr)
    ensures FreeNames(e) <= Names(e)
    decreases e
  {
    forall n | n in FreeNames(e) && !e.Name? ensures n in Names(e) {
      var i := FreeIn(e, n);
      FreeNamed(Children(e)[i]);
    }
  }

  lemma SpokenAt(stmts: seq<Stmt>, i: nat)
    requires i < |stmts|
    ensures SpokenIn(stmts[i]) <= Spoken(stmts)
  {
  }

  /** There is a least sight that has enough. */
  lemma OverviewLeast(body: seq<Stmt>, s: State, ctx: Context)
    ensures Enough(Overview(body, s, ctx), body, s, ctx)
    ensures forall k: Sight :: Enough(k, body, s, ctx) ==> Narrower(Overview(body, s, ctx), k)
  {
    var all := Overview(body, s, ctx);
    forall k: Sight | Enough(k, body, s, ctx) ensures Narrower(all, k) {
      OverviewBelow(body, s, ctx, k);
    }
    forall n, m | m in LinksOf(s.env, ctx.world)(n) ensures m in all.links(n) {
      assert m in Spelled(body, s, ctx);
    }
    OverviewComplete(body, body, s, ctx);
  }

  lemma OverviewBelow(body: seq<Stmt>, s: State, ctx: Context, k: Sight)
    requires Enough(k, body, s, ctx)
    ensures Narrower(Overview(body, s, ctx), k)
  {
  }

  lemma {:induction false} OverviewComplete(stmts: seq<Stmt>, body: seq<Stmt>, s: State, ctx: Context)
    requires Spoken(stmts) <= Spoken(body)
    requires forall k: Sight :: Enough(k, body, s, ctx) ==> Complete(stmts, k, ctx)
    ensures Complete(stmts, Overview(body, s, ctx), ctx)
    decreases stmts, 1
  {
    forall i | 0 <= i < |stmts| ensures CompleteIn(stmts[i], Overview(body, s, ctx), ctx) {
      SpokenAt(stmts, i);
      forall k: Sight | Enough(k, body, s, ctx) ensures CompleteIn(stmts[i], k, ctx) {
      }
      OverviewCompleteIn(stmts[i], body, s, ctx);
    }
  }

  lemma {:induction false} OverviewCompleteIn(stmt: Stmt, body: seq<Stmt>, s: State, ctx: Context)
    requires SpokenIn(stmt) <= Spoken(body)
    requires forall k: Sight :: Enough(k, body, s, ctx) ==> CompleteIn(stmt, k, ctx)
    ensures CompleteIn(stmt, Overview(body, s, ctx), ctx)
    decreases stmt, 0
  {
    match stmt
    case Assign(_, value, _, _) =>
      OverviewFrees(value, body, s, ctx);
      OverviewLinks(stmt, body, s, ctx);
    case Do(e) => OverviewFrees(e, body, s, ctx);
    case Check(test, _) => OverviewFrees(test, body, s, ctx);
    case If(test, one, other) =>
      OverviewFrees(test, body, s, ctx);
      OverviewComplete(one, body, s, ctx);
      OverviewComplete(other, body, s, ctx);
    case _ =>
  }

  lemma OverviewFrees(e: Expr, body: seq<Stmt>, s: State, ctx: Context)
    requires forall k: Sight :: Enough(k, body, s, ctx) ==> Freed(e, k, ctx.world) <= k.loose
    ensures Freed(e, Overview(body, s, ctx), ctx.world) <= Overview(body, s, ctx).loose
  {
    var all := Overview(body, s, ctx);
    forall n, k: Sight | Frees(e, all.links, ctx.world, n) && Enough(k, body, s, ctx) ensures n in k.loose {
      OverviewBelow(body, s, ctx, k);
      ExposesMonotone(e, all.links, k.links, ctx.world, n);
    }
  }

  lemma OverviewLinks(stmt: Stmt, body: seq<Stmt>, s: State, ctx: Context)
    requires stmt.Assign? && Names(stmt.value) <= Spoken(body)
    requires forall k: Sight :: Enough(k, body, s, ctx) ==> CompleteIn(stmt, k, ctx)
    ensures var all := Overview(body, s, ctx);
      forall n :: n in Late(stmt.value, all.links, ctx.world) ==> n in all.links(stmt.target)
  {
    var all := Overview(body, s, ctx);
    LateSpelled(stmt.value, all.links, ctx.world, Spelled(body, s, ctx));
    forall n, k: Sight | n in Late(stmt.value, all.links, ctx.world) && Enough(k, body, s, ctx)
      ensures n in k.links(stmt.target)
    {
      OverviewBelow(body, s, ctx, k);
      LateMonotone(stmt.value, all.links, k.links, ctx.world);
    }
  }

  // ----- Where the analyser can see what it must see -----

  /** A value that a holder flows into makes its target a holder, and no call under it receives from one. */
  ghost predicate TrackedAssign(value: Expr, t: Tables, k: Sight, ctx: Context) {
    && Clear(Given(value, k, ctx.world), Holders(t))
    && (CallRequest(value, t.values, t.clients).None? && !Clear(Vals(value, k.links, ctx.world), Holders(t)) ==>
          AliasRoots(value) * t.Watched() != {})
  }

  /** A bare expression whose names the walk does not look at. */
  predicate Overlooked(e: Expr, t: Tables) {
    var call := StripAwait(e);
    !call.Call? || CallRequest(call, t.values, t.clients).Some? || SafeClientCleanup(e, t.clients)
  }

  /** The names in the helper that the analyser takes a call to be of. */
  function Captured(call: Expr, ctx: Context): set<string>
    requires call.Call?
  {
    var name := DottedName(call.func);
    if name.Some? && name.value in ctx.helpers then ctx.helpers[name.value].names else {}
  }

  /** The names that a bare call mentions outside lambdas, or the helper that it calls. */
  function Mentioned(e: Expr, ctx: Context): set<string>
    requires StripAwait(e).Call?
  {
    ExecNames(StripAwait(e)) + Captured(StripAwait(e), ctx)
  }

  /** The names in `names`, and the other names of their responses. */
  function Akin(t: Tables, names: set<string>): set<string> {
    names + set n, m | m in names && m in t.responses && n in t.responses && t.responses[n] == t.responses[m] :: n
  }

  /** What a bare call receives from holders, it mentions by some name. */
  ghost predicate TrackedDo(e: Expr, t: Tables, k: Sight, ctx: Context) {
    if Overlooked(e, t) then Clear(Given(e, k, ctx.world), Holders(t))
    else forall n :: n in Given(e, k, ctx.world) && n in Holders(t) ==> n in Akin(t, Mentioned(e, ctx))
  }

  // ----- Assignments -----

  /** The value assigned holds a guarded response only if a holder flows into it. */
  lemma ValueFromHolder(value: Expr, t: Tables, k: Sight, ctx: Context, s: State, at: seq<nat>, v: Val, b: string)
    requires Guards(t, s, at) && b in t.responses && IsNew(s.log, at[t.responses[b]]) && Sees(k, s, ctx)
    requires FreshResult(v, s.env) || Evaluates(value, s.env, s.issued, ctx.world, v)
    requires s.log[at[t.responses[b]]].result.id in Objs(v)
    ensures FlowsFrom(value, t, k, ctx, t.responses[b])
    ensures !Clear(Vals(value, k.links, ctx.world), Holders(t))
  {
    var o, links := s.log[at[t.responses[b]]].result.id, LinksOf(s.env, ctx.world);
    assert BoundTo(t, s, at, b) && Guarded(t, s, at, t.responses[b]);
    assert o in Objs(s.env[b]);
    assert Held(s.env, o);
    assert Evaluates(value, s.env, s.issued, ctx.world, v);
    FlowSound(value, s.env, s.issued, ctx.world, v);
    ValsMonotone(value, links, k.links, ctx.world);
    HeldByHolder(t, s, at, b, Vals(value, links, ctx.world));
  }

  /** What flows into a request-shaped call, the call receives. */
  lemma RequestReceives(value: Expr, k: Sight, ctx: Context)
    requires RequestShaped(value)
    ensures Vals(value, k.links, ctx.world) <= Given(value, k, ctx.world)
  {
    var call := StripAwait(value);
    assert !IsJsonCall(call);
    assert Hands(value);
  }

  /** The entries added hand nobody anything but what `names` hold. */
  ghost predicate OnlyHands(log: seq<Entry>, log': seq<Entry>, objs: set<nat>) {
    log <= log' && forall k :: |log| <= k < |log'| && log'[k].Handed? ==> log'[k].objs == objs
  }

  /** Names other than the target stay as they were. */
  ghost predicate KeepsOthers(t: Tables, t': Tables, target: string) {
    && (forall n :: n in t.tainted && n != target ==> n in t'.tainted)
    && forall n :: n in t.responses && n != target ==> n in t'.responses && t'.responses[n] == t.responses[n]
  }

  /** A response named before an assignment stays guarded if the target becomes a holder where it must. */
  lemma StaysGuarded(t: Tables, t': Tables, s: State, s': State, at: seq<nat>, at': seq<nat>, target: string, v: Val,
                     names: iset<string>, b: string)
    requires Guards(t, s, at) && b in t.responses && at <= at' && KeepsOthers(t, t', target)
    requires s'.env == s.env[target := v] && s.issued <= s'.issued && OnlyHands(s.log, s'.log, ObjsOf(names, s.env))
    requires Clear(names, Holders(t))
    requires IsNew(s.log, at[t.responses[b]]) && s.log[at[t.responses[b]]].result.id in Objs(v) ==>
      target in t'.tainted || (target in t'.responses && t'.responses[target] == t.responses[b])
    ensures Guarded(t', s', at', t.responses[b])
  {
    var i := t.responses[b];
    assert BoundTo(t, s, at, b) && Guarded(t, s, at, i);
    assert at'[i] == at[i] && s'.log[at[i]] == s.log[at[i]];
    if IsNew(s.log, at[i]) {
      var o := s.log[at[i]].result.id;
      if o in ObjsOf(names, s.env) {
        HeldByHolder(t, s, at, b, names);
      }
      forall k | at[i] < k < |s'.log| && s'.log[k].Handed? ensures o !in s'.log[k].objs {
        if k < |s.log| {
          assert s'.log[k] == s.log[k];
        }
      }
    }
  }

  lemma AssignSeparate(target: string, value: Expr, span: Span, t: Tables, ctx: Context)
    requires Separate(t) && target !in t.Watched()
    ensures Separate(WalkAssign(target, value, span, t, ctx).0)
    ensures KeepsOthers(t, WalkAssign(target, value, span, t, ctx).0, target)
  {
  }

  /** What a request-shaped call leaves behind. */
  lemma RequestEffects(target: string, value: Expr, span: Span, ctx: Context, s: State, s': State) returns (v: Val)
    requires RequestShaped(value) && ExecAssign(target, value, span, ctx, s, s')
    ensures s'.env == s.env[target := v] && s'.issued == s.issued + Objs(v)
    ensures FreshResult(v, s.env) || Evaluates(value, s.env, s.issued, ctx.world, v)
    ensures |s.log| < |s'.log| && s'.log[|s.log|].Called? && s'.log[|s.log|].result == v
    ensures s'.log[|s.log|].isNew == FreshResult(v, s.env)
    ensures OnlyHands(s.log, s'.log, ObjsOf(Given(value, SightOf(s, ctx), ctx.world), s.env))
  {
    var args;
    args, v :| ExecRequest(target, value, span, ctx, s, s', args, v);
    var entry, told := CallEntry(value, span, s.env, args, v), HandOver(value, s, ctx);
    assert s'.log == s.log + [entry] + told;
  }

  /** Recording a request: its response is held by its target alone, the others stay guarded. */
  lemma RequestGuards(target: string, value: Expr, span: Span, t: Tables, k: Sight, ctx: Context, s: State, s': State,
                      at: seq<nat>)
    requires Guards(t, s, at) && |at| == |t.requests| && ExecAssign(target, value, span, ctx, s, s')
    requires target !in t.Watched() && CallRequest(value, t.values, t.clients).Some?
    requires Sees(k, s, ctx) && TrackedAssign(value, t, k, ctx)
    ensures Guards(WalkAssign(target, value, span, t, ctx).0, s', at + [|s.log|])
  {
    var t', at' := WalkAssign(target, value, span, t, ctx).0, at + [|s.log|];
    var v := RequestEffects(target, value, span, ctx, s, s');
    AssignSeparate(target, value, span, t, ctx);
    RequestReceives(value, k, ctx);
    assert t'.responses == t.responses[target := |t.requests|];
    NewGuarded(t', s, s', at', target, v, Given(value, SightOf(s, ctx), ctx.world));
    forall b | b in t.responses ensures b != target && BoundTo(t', s', at', b) && Guarded(t', s', at', t.responses[b]) {
      OldGuarded(target, value, t, t', k, ctx, s, s', at, at', v, b);
    }
  }

  lemma OldGuarded(target: string, value: Expr, t: Tables, t': Tables, k: Sight, ctx: Context, s: State, s': State,
                   at: seq<nat>, at': seq<nat>, v: Val, b: string)
    requires Guards(t, s, at) && b in t.responses && b != target && at <= at' && KeepsOthers(t, t', target)
    requires s'.env == s.env[target := v] && s.issued <= s'.issued && Sees(k, s, ctx)
    requires OnlyHands(s.log, s'.log, ObjsOf(Given(value, SightOf(s, ctx), ctx.world), s.env))
    requires FreshResult(v, s.env) || Evaluates(value, s.env, s.issued, ctx.world, v)
    requires Clear(Given(value, k, ctx.world), Holders(t))
    requires Clear(Vals(value, k.links, ctx.world), Holders(t))
    ensures BoundTo(t', s', at', b) && Guarded(t', s', at', t.responses[b])
  {
    assert BoundTo(t, s, at, b);
    if IsNew(s.log, at[t.responses[b]]) && s.log[at[t.responses[b]]].result.id in Objs(v) {
      ValueFromHolder(value, t, k, ctx, s, at, v, b);
    }
    GivenFew(value, k, s, ctx);
    StaysGuarded(t, t', s, s', at, at', target, v, Given(value, SightOf(s, ctx), ctx.world), b);
  }

  lemma NewGuarded(t': Tables, s: State, s': State, at': seq<nat>, target: string, v: Val, names: iset<string>)
    requires target in t'.responses && t'.responses[target] < |at'| && at'[t'.responses[target]] == |s.log|
    requires s'.env == s.env[target := v] && s'.issued == s.issued + Objs(v)
    requires |s.log| < |s'.log| && s'.log[|s.log|].Called? && s'.log[|s.log|].result == v
    requires s'.log[|s.log|].isNew == FreshResult(v, s.env) && OnlyHands(s.log, s'.log, ObjsOf(names, s.env))
    ensures Guarded(t', s', at', t'.responses[target])
  {
    if FreshResult(v, s.env) {
      assert forall n :: n in s.env ==> v.id !in Objs(s.env[n]);
    }
  }

  lemma OtherGuards(target: string, value: Expr, span: Span, t: Tables, k: Sight, ctx: Context, s: State, s': State,
                    at: seq<nat>)
    requires Guards(t, s, at) && ExecAssign(target, value, span, ctx, s, s') && Sees(k, s, ctx)
    requires target !in t.Watched() && CallRequest(value, t.values, t.clients).None?
    requires TrackedAssign(value, t, k, ctx)
    ensures Guards(WalkAssign(target, value, span, t, ctx).0, s', at)
  {
    var t' := WalkAssign(target, value, span, t, ctx).0;
    var v := AssignSets(target, value, span, ctx, s, s');
    AssignSeparate(target, value, span, t, ctx);
    forall b | b in t'.responses ensures NamedBy(target, value, t, t', b) {
      OtherOrigin(target, value, span, t, ctx, b);
    }
    forall i: nat | FlowsFrom(value, t, k, ctx, i) ensures Holds(t', target, i) {
      TargetHolds(target, value, span, t, k, ctx, i);
    }
    OtherKeeps(target, value, t, t', k, ctx, s, s', at, v);
  }

  /** The run of an assignment that gives the target the value `v`. */
  ghost predicate Sets(target: string, value: Expr, v: Val, ctx: Context, s: State, s': State) {
    && s'.env == s.env[target := v] && s.issued <= s'.issued
    && OnlyHands(s.log, s'.log, ObjsOf(Given(value, SightOf(s, ctx), ctx.world), s.env))
    && (FreshResult(v, s.env) || Evaluates(value, s.env, s.issued, ctx.world, v))
    && (RequestShaped(value) || Evaluates(value, s.env, s.issued, ctx.world, v))
  }

  lemma AssignSets(target: string, value: Expr, span: Span, ctx: Context, s: State, s': State) returns (v: Val)
    requires ExecAssign(target, value, span, ctx, s, s')
    ensures Sets(target, value, v, ctx, s, s')
  {
    v := AssignedValue(target, value, span, ctx, s, s');
    AssignHands(target, value, span, ctx, s, s');
  }

  /** A holder of response `i` flows into the value. */
  ghost predicate FlowsFrom(value: Expr, t: Tables, k: Sight, ctx: Context, i: nat) {
    exists n :: n in Vals(value, k.links, ctx.world) && Holds(t, n, i)
  }

  predicate Holds(t: Tables, n: string, i: nat) {
    n in t.tainted || (n in t.responses && t.responses[n] == i)
  }

  /** The name `b` had its response before, or is the target of a name that had it. */
  predicate NamedBy(target: string, value: Expr, t: Tables, t': Tables, b: string)
    requires b in t'.responses
  {
    if b == target then
      value.Name? && !RequestShaped(value) && value.id in t.responses && t.responses[value.id] == t'.responses[b]
    else b in t.responses && t.responses[b] == t'.responses[b]
  }

  /** An assignment after which the tables name responses as before or by the name assigned, and show what flows. */
  lemma OtherKeeps(target: string, value: Expr, t: Tables, t': Tables, k: Sight, ctx: Context, s: State, s': State,
                   at: seq<nat>, v: Val)
    requires Guards(t, s, at) && Sets(target, value, v, ctx, s, s') && Sees(k, s, ctx)
    requires Clear(Given(value, k, ctx.world), Holders(t)) && KeepsOthers(t, t', target) && Separate(t')
    requires forall b :: b in t'.responses ==> NamedBy(target, value, t, t', b)
    requires forall i: nat :: FlowsFrom(value, t, k, ctx, i) ==> Holds(t', target, i)
    ensures Guards(t', s', at)
  {
    GivenFew(value, k, s, ctx);
    forall b | b in t'.responses ensures BoundTo(t', s', at, b) && Guarded(t', s', at, t'.responses[b]) {
      assert NamedBy(target, value, t, t', b);
      var b0 := if b == target then value.id else b;
      OtherGuarded(target, value, t, t', k, ctx, s, s', at, v, b0);
      OtherBound(target, value, t, t', ctx, s, s', at, v, b, b0);
    }
  }

  lemma OtherBound(target: string, value: Expr, t: Tables, t': Tables, ctx: Context, s: State, s': State,
                   at: seq<nat>, v: Val, b: string, b0: string)
    requires b in t'.responses && NamedBy(target, value, t, t', b) && Sets(target, value, v, ctx, s, s')
    requires b0 == (if b == target then value.id else b) && BoundTo(t, s, at, b0)
    ensures BoundTo(t', s', at, b)
  {
  }

  lemma OtherGuarded(target: string, value: Expr, t: Tables, t': Tables, k: Sight, ctx: Context, s: State, s': State,
                     at: seq<nat>, v: Val, b: string)
    requires Guards(t, s, at) && b in t.responses && KeepsOthers(t, t', target) && Sees(k, s, ctx)
    requires Sets(target, value, v, ctx, s, s') && Clear(Given(value, SightOf(s, ctx), ctx.world), Holders(t))
    requires FlowsFrom(value, t, k, ctx, t.responses[b]) ==> Holds(t', target, t.responses[b])
    ensures BoundTo(t, s, at, b) && Guarded(t', s', at, t.responses[b])
  {
    assert BoundTo(t, s, at, b);
    if IsNew(s.log, at[t.responses[b]]) && s.log[at[t.responses[b]]].result.id in Objs(v) {
      ValueFromHolder(value, t, k, ctx, s, at, v, b);
    }
    StaysGuarded(t, t', s, s', at, at, target, v, Given(value, SightOf(s, ctx), ctx.world), b);
  }

  /** Where a response name comes from when no request is recorded. */
  lemma OtherOrigin(target: string, value: Expr, span: Span, t: Tables, ctx: Context, b: string)
    requires target !in t.Watched() && CallRequest(value, t.values, t.clients).None?
    requires b in WalkAssign(target, value, span, t, ctx).0.responses
    ensures b == target ==> value.Name? && !RequestShaped(value)
    ensures var b0 := if b == target then value.id else b;
      b0 in t.responses && t.responses[b0] == WalkAssign(target, value, span, t, ctx).0.responses[b]
  {
  }

  lemma AssignHands(target: string, value: Expr, span: Span, ctx: Context, s: State, s': State)
    requires ExecAssign(target, value, span, ctx, s, s')
    ensures s.issued <= s'.issued
    ensures OnlyHands(s.log, s'.log, ObjsOf(Given(value, SightOf(s, ctx), ctx.world), s.env))
  {
    if RequestShaped(value) {
      var v := RequestEffects(target, value, span, ctx, s, s');
    } else {
      assert s'.log == s.log + HandOver(value, s, ctx);
    }
  }

  /** The target of a value that a holder of response `i` flows into holds it in the tables too. */
  lemma TargetHolds(target: string, value: Expr, span: Span, t: Tables, k: Sight, ctx: Context, i: nat)
    requires Separate(t) && target !in t.Watched() && CallRequest(value, t.values, t.clients).None?
    requires TrackedAssign(value, t, k, ctx)
    requires FlowsFrom(value, t, k, ctx, i)
    ensures Holds(WalkAssign(target, value, span, t, ctx).0, target, i)
  {
    var n :| n in Vals(value, k.links, ctx.world) && Holds(t, n, i);
    assert n in Holders(t);
    NameVals(value, k, ctx);
  }

  lemma NameVals(e: Expr, k: Sight, ctx: Context)
    ensures e.Name? ==> Vals(e, k.links, ctx.world) == iset{e.id}
  {
  }

  // ----- Bare calls -----

  /** Dropping the events of names leaves no name of those events. */
  lemma DropsEvent(responses: map<string, nat>, names: set<string>, n: string, event: nat)
    requires (n in names && n in responses && responses[n] == event) || event !in responses.Values
    ensures forall b :: b in DropEvents(responses, names) ==> DropEvents(responses, names)[b] != event
  {
  }

  /** A bare call that does not stop the walk names no tainted name, and forgets the responses that it names
      and that its callee captures. */
  lemma BareCallForgets(e: Expr, t: Tables, ctx: Context, n: string)
    requires !WalkDo(e, t, ctx).1 && !Overlooked(e, t)
    requires n in Mentioned(e, ctx)
    ensures n !in t.tainted
    ensures n in t.responses ==>
      forall b :: b in WalkDo(e, t, ctx).0.responses ==> WalkDo(e, t, ctx).0.responses[b] != t.responses[n]
  {
    var call, names := StripAwait(e), ExecNames(StripAwait(e));
    var captured := Captured(call, ctx);
    assert n in names ==> n !in t.tainted by {
      assert n in names && n in t.tainted ==> n in names * t.tainted;
    }
    assert n in captured ==> n !in t.tainted by {
      assert n in captured && n in t.tainted ==> n in captured * t.tainted;
    }
    if n in t.responses {
      var event := t.responses[n];
      if n in captured {
        DropsEvent(t.responses, captured, n, event);
        DropsEvent(DropEvents(t.responses, captured), names, n, event);
      } else {
        DropsEvent(t.responses, names, n, event);
        DropsEvent(DropEvents(t.responses, captured), names, n, event);
      }
    }
  }

  lemma DoGuards(e: Expr, t: Tables, k: Sight, ctx: Context, s: State, s': State, at: seq<nat>)
    requires Guards(t, s, at) && s' == Told(s, e, ctx) && !WalkDo(e, t, ctx).1
    requires Sees(k, s, ctx) && TrackedDo(e, t, k, ctx)
    ensures Guards(WalkDo(e, t, ctx).0, s', at)
  {
    var t' := WalkDo(e, t, ctx).0;
    DoForgets(e, t, ctx);
    if Overlooked(e, t) {
      OverlookedKeeps(e, t, ctx);
      ToldGuards(t, s, s', at, e, k, ctx);
    } else {
      forall b | b in t'.responses ensures BoundTo(t', s', at, b) && Guarded(t', s', at, t'.responses[b]) {
        assert BoundTo(t, s, at, b) && Guarded(t, s, at, t.responses[b]);
        if IsNew(s.log, at[t.responses[b]]) {
          CallMisses(e, t, k, ctx, s, at, b);
          ForgottenGuarded(e, t, ctx, s, s', at, b);
        }
      }
    }
  }

  lemma OverlookedKeeps(e: Expr, t: Tables, ctx: Context)
    requires Overlooked(e, t) && !WalkDo(e, t, ctx).1
    ensures WalkDo(e, t, ctx).0 == t
  {
  }

  /** What the call receives is not a response that stays. */
  lemma CallMisses(e: Expr, t: Tables, k: Sight, ctx: Context, s: State, at: seq<nat>, b: string)
    requires Guards(t, s, at) && !WalkDo(e, t, ctx).1 && !Overlooked(e, t)
    requires Sees(k, s, ctx) && TrackedDo(e, t, k, ctx)
    requires b in WalkDo(e, t, ctx).0.responses && b in t.responses
    requires WalkDo(e, t, ctx).0.responses[b] == t.responses[b] && IsNew(s.log, at[t.responses[b]])
    ensures s.log[at[t.responses[b]]].result.id !in ObjsOf(Given(e, SightOf(s, ctx), ctx.world), s.env)
  {
    var names := Given(e, SightOf(s, ctx), ctx.world);
    GivenFew(e, k, s, ctx);
    if s.log[at[t.responses[b]]].result.id in ObjsOf(names, s.env) {
      HeldByHolder(t, s, at, b, names);
      var n :| n in names && (n in t.tainted || (n in t.responses && t.responses[n] == t.responses[b]));
      assert n in Holders(t);
      if n in Mentioned(e, ctx) {
        BareCallForgets(e, t, ctx, n);
      } else {
        var m :| m in Mentioned(e, ctx) && m in t.responses && n in t.responses && t.responses[n] == t.responses[m];
        BareCallForgets(e, t, ctx, m);
      }
    }
  }

  lemma ForgottenGuarded(e: Expr, t: Tables, ctx: Context, s: State, s': State, at: seq<nat>, b: string)
    requires Guards(t, s, at) && s' == Told(s, e, ctx) && !WalkDo(e, t, ctx).1 && !Overlooked(e, t)
    requires b in t.responses && b in WalkDo(e, t, ctx).0.responses && IsNew(s.log, at[t.responses[b]])
    requires s.log[at[t.responses[b]]].result.id !in ObjsOf(Given(e, SightOf(s, ctx), ctx.world), s.env)
    ensures Guarded(WalkDo(e, t, ctx).0, s', at, t.responses[b])
  {
    var t', i := WalkDo(e, t, ctx).0, t.responses[b];
    DoForgets(e, t, ctx);
    assert Guarded(t, s, at, i);
    forall n | n in t.responses && t.responses[n] == i ensures n in t'.responses {
      StaysTogether(e, t, ctx, b, n);
    }
  }

  /** Names of one response are forgotten together. */
  lemma StaysTogether(e: Expr, t: Tables, ctx: Context, b: string, n: string)
    requires b in t.responses && n in t.responses && t.responses[n] == t.responses[b]
    requires b in WalkDo(e, t, ctx).0.responses
    ensures n in WalkDo(e, t, ctx).0.responses
  {
  }

  // ----- Branches the walk cannot decide -----

  /** The variables whose objects the value of an expression can be or hold though it does not name them. */
  ghost predicate Veiled(e: Expr, links: Links, w: Setting, n: string)
    decreases e
  {
    || (Draws(e, w) && n in Late(e, links, w))
    || exists i :: 0 <= i < |Parts(e, w)| && Veiled(Parts(e, w)[i], links, w, n)
  }

  /** What the control-flow check does not see a call receive: what is behind functions, what is awaited, and what
      calls in the defaults of a lambda receive. */
  ghost predicate Unspoken(e: Expr, links: Links, w: Setting, n: string)
    decreases e
  {
    || (e.Lambda? && Exposes(e, links, w, n))
    || (Hands(e) && if e.Call? then Veiled(e, links, w, n) else n in Vals(e, links, w))
    || exists i :: 0 <= i < |Evaluated(e)| && Unspoken(Evaluated(e)[i], links, w, n)
  }

  ghost function Unheard(e: Expr, k: Sight, w: Setting): iset<string> {
    if Calls(e) then (iset n | Unspoken(e, k.links, w, n)) + Reach(k.links, k.loose) else iset{}
  }

  /** What the control-flow check does not look at: values of annotated assignments, what functions lead to, and what
      is awaited. */
  ghost predicate Unseen(stmts: seq<Stmt>, holders: set<string>, k: Sight, ctx: Context)
    decreases stmts, 1
  {
    forall i :: 0 <= i < |stmts| ==> UnseenIn(stmts[i], holders, k, ctx)
  }

  ghost predicate UnseenIn(stmt: Stmt, holders: set<string>, k: Sight, ctx: Context)
    decreases stmt, 0
  {
    match stmt
    case Assign(_, value, _, annotated) =>
      && Clear(Unheard(value, k, ctx.world), holders)
      && (if annotated then Clear(Vals(value, k.links, ctx.world), holders)
          else forall n :: n in holders ==> !Veiled(value, k.links, ctx.world, n))
    case Do(e) => Clear(Unheard(e, k, ctx.world), holders)
    case Check(test, _) => Clear(Unheard(test, k, ctx.world), holders)
    case If(test, body, orelse) =>
      Clear(Unheard(test, k, ctx.world), holders) && Unseen(body, holders, k, ctx) && Unseen(orelse, holders, k, ctx)
    case _ => true
  }

  /** What flows into a value, it names, or is behind functions. */
  lemma {:induction false} ValsNamed(e: Expr, links: Links, w: Setting, n: string)
    requires n in Vals(e, links, w)
    ensures n in Names(e) || Veiled(e, links, w, n)
    decreases e
  {
    if !e.Name? && !(Draws(e, w) && n in Late(e, links, w)) {
      assert AnyVals(e, Parts(e, w), links, w, n);
      var i :| 0 <= i < |Parts(e, w)| && n in Vals(Parts(e, w)[i], links, w);
      ValsNamed(Parts(e, w)[i], links, w, n);
      if n in Names(Parts(e, w)[i]) {
        PartNamed(e, i, w, n);
      }
    }
  }

  lemma PartNamed(e: Expr, i: nat, w: Setting, n: string)
    requires i < |Parts(e, w)| && n in Names(Parts(e, w)[i])
    ensures n in Names(e)
  {
    if e.Call? {
      SourceNamed(e, i, n);
    } else if e.IfExp? {
      assert Children(e)[i + 1] == Parts(e, w)[i];
    } else {
      assert Children(e)[i] == Parts(e, w)[i];
    }
  }

  lemma SourceNamed(e: Expr, i: nat, n: string)
    requires e.Call? && i < |Sources(e)| && n in Names(Sources(e)[i])
    ensures n in Names(e)
  {
    if i == 0 && e.func.Attr? {
      ChildNamed(e.func, 0, n);
      ChildNamed(e, 0, n);
    } else {
      assert Children(e)[i] == Sources(e)[i];
      ChildNamed(e, i, n);
    }
  }

  lemma ChildNamed(e: Expr, i: nat, n: string)
    requires i < |Children(e)| && n in Names(Children(e)[i])
    ensures n in Names(e)
  {
  }

  /** What calls receive by name, the control-flow check sees. */
  lemma {:induction false} ExposedSeen(e: Expr, links: Links, w: Setting, watched: set<string>, n: string)
    requires Exposes(e, links, w, n) && n in watched
    ensures Unspoken(e, links, w, n) || MentionsInCall(e, watched)
    decreases e
  {
    if e.Lambda? || (e.Await? && n in Vals(e, links, w)) {
    } else if Hands(e) && n in Vals(e, links, w) {
      ValsNamed(e, links, w, n);
      assert n in Names(e) ==> n in Names(e) * watched;
    } else {
      var i :| 0 <= i < |Evaluated(e)| && Exposes(Evaluated(e)[i], links, w, n);
      ExposedSeen(Evaluated(e)[i], links, w, watched, n);
    }
  }

  lemma ExposedApart(e: Expr, t: Tables, k: Sight, ctx: Context)
    requires !MentionsInCall(e, t.Watched()) && Clear(Unheard(e, k, ctx.world), Holders(t))
    ensures Clear(Given(e, k, ctx.world), Holders(t))
  {
    forall n | n in Given(e, k, ctx.world) ensures n !in Holders(t) {
      if n in Holders(t) && Exposes(e, k.links, ctx.world, n) {
        ExposedSeen(e, k.links, ctx.world, t.Watched(), n);
      }
    }
  }

  /** A statement that passes the control-flow check leaves every response guarded, under the same tables. */
  lemma {:induction false} StmtKeeps(stmt: Stmt, t: Tables, k: Sight, ctx: Context, s: State, s': State, out: Outcome,
                                     at: seq<nat>)
    requires Guards(t, s, at) && ExecStmt(stmt, ctx, s, s', out) && Sees(k, s, ctx) && CompleteIn(stmt, k, ctx)
    requires !AffectsOne(stmt, t.Watched()) && UnseenIn(stmt, Holders(t), k, ctx)
    ensures Guards(t, s', at) && Sees(k, s', ctx)
    decreases stmt, 0
  {
    if !(out == Raised && s' == s) {
      match stmt
      case Pass =>
      case Assign(target, value, span, annotated) =>
        BranchAssignKeeps(target, value, span, annotated, t, k, ctx, s, s', at);
        AssignSeen(target, value, span, annotated, k, ctx, s, s');
      case Do(e) =>
        ExposedApart(e, t, k, ctx);
        ToldGuards(t, s, s', at, e, k, ctx);
        ToldSeen(e, k, s, ctx);
      case Check(test, span) =>
        var m := s.(log := s.log + [Checked(span, test, s.env)]);
        ExposedApart(test, t, k, ctx);
        CheckedGuards(test, span, t, s, at);
        ToldGuards(t, m, s', at, test, k, ctx);
        ToldSeen(test, k, m, ctx);
      case If(test, body, orelse) =>
        var m := Told(s, test, ctx);
        ExposedApart(test, t, k, ctx);
        ToldGuards(t, s, m, at, test, k, ctx);
        ToldSeen(test, k, s, ctx);
        var v, truth :| Evaluates(test, s.env, s.issued, ctx.world, v) && TruthIs(v, truth) &&
          ExecBlock(if truth then body else orelse, ctx, m, s', out);
        BlockKeeps(if truth then body else orelse, t, k, ctx, m, s', out, at);
    }
  }

  lemma CheckedGuards(test: Expr, span: Span, t: Tables, s: State, at: seq<nat>)
    requires Guards(t, s, at)
    ensures Guards(t, s.(log := s.log + [Checked(span, test, s.env)]), at)
  {
    var s' := s.(log := s.log + [Checked(span, test, s.env)]);
    forall b | b in t.responses ensures BoundTo(t, s', at, b) && Guarded(t, s', at, t.responses[b]) {
      assert BoundTo(t, s, at, b) && Guarded(t, s, at, t.responses[b]);
    }
  }

  lemma BranchAssignKeeps(target: string, value: Expr, span: Span, annotated: bool, t: Tables, k: Sight, ctx: Context,
                          s: State, s': State, at: seq<nat>)
    requires Guards(t, s, at) && ExecAssign(target, value, span, ctx, s, s') && Sees(k, s, ctx)
    requires !AffectsOne(Assign(target, value, span, annotated), t.Watched())
    requires UnseenIn(Assign(target, value, span, annotated), Holders(t), k, ctx)
    ensures Guards(t, s', at)
  {
    ExposedApart(value, t, k, ctx);
    forall n | n in Vals(value, k.links, ctx.world) ensures n !in Holders(t) {
      ValsNamed(value, k.links, ctx.world, n);
      assert n in Names(value) && n in Holders(t) ==> n in Names(value) * t.Watched();
    }
    BlindAssignKeeps(target, value, span, t, k, ctx, s, s', at);
  }

  /** An assignment of something that no holder flows into, and of which no call receives from one. */
  lemma BlindAssignKeeps(target: string, value: Expr, span: Span, t: Tables, k: Sight, ctx: Context, s: State,
                         s': State, at: seq<nat>)
    requires Guards(t, s, at) && ExecAssign(target, value, span, ctx, s, s') && target !in t.Watched()
    requires Sees(k, s, ctx) && Clear(Given(value, k, ctx.world), Holders(t))
    requires Clear(Vals(value, k.links, ctx.world), Holders(t))
    ensures Guards(t, s', at)
  {
    var v := AssignSets(target, value, span, ctx, s, s');
    OtherKeeps(target, value, t, t, k, ctx, s, s', at, v);
  }

  lemma {:induction false} BlockKeeps(stmts: seq<Stmt>, t: Tables, k: Sight, ctx: Context, s: State, s': State,
                                      out: Outcome, at: seq<nat>)
    requires Guards(t, s, at) && ExecBlock(stmts, ctx, s, s', out) && Sees(k, s, ctx) && Complete(stmts, k, ctx)
    requires !Affects(stmts, t.Watched()) && Unseen(stmts, Holders(t), k, ctx)
    ensures Guards(t, s', at) && Sees(k, s', ctx)
    decreases stmts, 1
  {
    if |stmts| > 0 {
      var m, o :| ExecStmt(stmts[0], ctx, s, m, o) &&
        if o == Fell then ExecBlock(stmts[1..], ctx, m, s', out) else s' == m && out == o;
      assert !AffectsOne(stmts[0], t.Watched()) && UnseenIn(stmts[0], Holders(t), k, ctx);
      StmtKeeps(stmts[0], t, k, ctx, s, m, o, at);
      if o == Fell {
        AffectsTail(stmts, t.Watched());
        BlockKeeps(stmts[1..], t, k, ctx, m, s', out, at);
      }
    }
  }

  // ----- The condition on a body -----

  /** A branch walked on copies: it neither forgets a response, nor taints a name, nor names a response anew. */
  ghost predicate SameCustody(t: Tables, b: Tables) {
    b.tainted <= t.tainted && forall n :: n in t.responses ==>
      {} != NamesOf(b, t.responses[n]) <= NamesOf(t, t.responses[n])
  }

  /** The names of the response of request `i`. */
  function NamesOf(t: Tables, i: nat): set<string> {
    set n | n in t.responses && t.responses[n] == i
  }

  /** As far as the walk goes, it sees every way in which a response can reach another name or a call. */
  ghost predicate Tracked(stmts: seq<Stmt>, t: Tables, k: Sight, ctx: Context)
    decreases stmts, 1
  {
    |stmts| > 0 ==>
      && TrackedStmt(stmts[0], t, k, ctx)
      && (!WalkStmt(stmts[0], t, ctx).1 ==> Tracked(stmts[1..], WalkStmt(stmts[0], t, ctx).0, k, ctx))
  }

  ghost predicate TrackedStmt(stmt: Stmt, t: Tables, k: Sight, ctx: Context)
    decreases stmt, 0
  {
    match stmt
    case Assign(_, value, _, _) => WalkStmt(stmt, t, ctx).1 || TrackedAssign(value, t, k, ctx)
    case Do(e) => WalkStmt(stmt, t, ctx).1 || TrackedDo(e, t, k, ctx)
    case Check(test, _) => Clear(Given(test, k, ctx.world), Holders(t))
    case If(test, body, orelse) =>
      && Clear(Given(test, k, ctx.world), Holders(t))
      && (match StaticTruth(test, t.values)
          case Some(truth) =>
            var branch := if truth then body else orelse;
            Tracked(branch, t, k, ctx) && (WalkStmt(stmt, t, ctx).1 || SameCustody(t, WalkBlock(branch, t, ctx).0))
          case None =>
            || WalkStmt(stmt, t, ctx).1
            || (Unseen(body, Holders(t), k, ctx) && Unseen(orelse, Holders(t), k, ctx)))
    case _ => true
  }

  // ----- The least sight tracks most -----

  lemma GivenNarrower(e: Expr, j: Sight, k: Sight, w: Setting)
    requires Narrower(j, k)
    ensures Given(e, j, w) <= Given(e, k, w)
  {
    forall n | Exposes(e, j.links, w, n) ensures Exposes(e, k.links, w, n) {
      ExposesMonotone(e, j.links, k.links, w, n);
    }
    ReachMonotone(j.links, k.links, j.loose, k.loose);
  }

  lemma {:induction false} VeiledMonotone(e: Expr, few: Links, many: Links, w: Setting, n: string)
    requires FewerLinks(few, many) && Veiled(e, few, w, n)
    ensures Veiled(e, many, w, n)
    decreases e
  {
    LateMonotone(e, few, many, w);
    if !(Draws(e, w) && n in Late(e, few, w)) {
      var i :| 0 <= i < |Parts(e, w)| && Veiled(Parts(e, w)[i], few, w, n);
      VeiledMonotone(Parts(e, w)[i], few, many, w, n);
    }
  }

  lemma {:induction false} UnspokenMonotone(e: Expr, few: Links, many: Links, w: Setting, n: string)
    requires FewerLinks(few, many) && Unspoken(e, few, w, n)
    ensures Unspoken(e, many, w, n)
    decreases e
  {
    ExposesMonotone(e, few, many, w, n);
    ValsMonotone(e, few, many, w);
    if e.Call? && Hands(e) && Veiled(e, few, w, n) {
      VeiledMonotone(e, few, many, w, n);
    } else if !(e.Lambda? && Exposes(e, few, w, n)) && !(e.Await? && n in Vals(e, few, w)) {
      var i :| 0 <= i < |Evaluated(e)| && Unspoken(Evaluated(e)[i], few, w, n);
      UnspokenMonotone(Evaluated(e)[i], few, many, w, n);
    }
  }

  lemma UnheardNarrower(e: Expr, j: Sight, k: Sight, w: Setting)
    requires Narrower(j, k)
    ensures Unheard(e, j, w) <= Unheard(e, k, w)
  {
    forall n | Unspoken(e, j.links, w, n) ensures Unspoken(e, k.links, w, n) {
      UnspokenMonotone(e, j.links, k.links, w, n);
    }
    ReachMonotone(j.links, k.links, j.loose, k.loose);
  }

  lemma {:induction false} UnseenNarrower(stmts: seq<Stmt>, holders: set<string>, j: Sight, k: Sight, ctx: Context)
    requires Narrower(j, k) && Unseen(stmts, holders, k, ctx)
    ensures Unseen(stmts, holders, j, ctx)
    decreases stmts, 1
  {
    forall i | 0 <= i < |stmts| ensures UnseenIn(stmts[i], holders, j, ctx) {
      UnseenInNarrower(stmts[i], holders, j, k, ctx);
    }
  }

  lemma {:induction false} UnseenInNarrower(stmt: Stmt, holders: set<string>, j: Sight, k: Sight, ctx: Context)
    requires Narrower(j, k) && UnseenIn(stmt, holders, k, ctx)
    ensures UnseenIn(stmt, holders, j, ctx)
    decreases stmt, 0
  {
    match stmt
    case Assign(_, value, _, _) =>
      UnheardNarrower(value, j, k, ctx.world);
      ValsMonotone(value, j.links, k.links, ctx.world);
      forall n | Veiled(value, j.links, ctx.world, n) ensures Veiled(value, k.links, ctx.world, n) {
        VeiledMonotone(value, j.links, k.links, ctx.world, n);
      }
    case Do(e) => UnheardNarrower(e, j, k, ctx.world);
    case Check(test, _) => UnheardNarrower(test, j, k, ctx.world);
    case If(test, body, orelse) =>
      UnheardNarrower(test, j, k, ctx.world);
      UnseenNarrower(body, holders, j, k, ctx);
      UnseenNarrower(orelse, holders, j, k, ctx);
    case _ =>
  }

  lemma {:induction false} TrackedNarrower(stmts: seq<Stmt>, t: Tables, j: Sight, k: Sight, ctx: Context)
    requires Narrower(j, k) && Tracked(stmts, t, k, ctx)
    ensures Tracked(stmts, t, j, ctx)
    decreases stmts, 1
  {
    if |stmts| > 0 {
      TrackedStmtNarrower(stmts[0], t, j, k, ctx);
      if !WalkStmt(stmts[0], t, ctx).1 {
        TrackedNarrower(stmts[1..], WalkStmt(stmts[0], t, ctx).0, j, k, ctx);
      }
    }
  }

  lemma {:induction false} TrackedStmtNarrower(stmt: Stmt, t: Tables, j: Sight, k: Sight, ctx: Context)
    requires Narrower(j, k) && TrackedStmt(stmt, t, k, ctx)
    ensures TrackedStmt(stmt, t, j, ctx)
    decreases stmt, 0
  {
    match stmt
    case Assign(_, value, _, _) =>
      GivenNarrower(value, j, k, ctx.world);
      ValsMonotone(value, j.links, k.links, ctx.world);
    case Do(e) => GivenNarrower(e, j, k, ctx.world);
    case Check(test, _) => GivenNarrower(test, j, k, ctx.world);
    case If(test, body, orelse) =>
      GivenNarrower(test, j, k, ctx.world);
      if StaticTruth(test, t.values).Some? {
        TrackedNarrower(if StaticTruth(test, t.values).value then body else orelse, t, j, k, ctx);
      } else if !WalkStmt(stmt, t, ctx).1 {
        UnseenNarrower(body, Holders(t), j, k, ctx);
        UnseenNarrower(orelse, Holders(t), j, k, ctx);
      }
    case _ =>
  }

  /** A body is tracked under some sight that has enough exactly when it is tracked under the least one. */
  lemma TrackedByLeast(body: seq<Stmt>, t: Tables, s: State, ctx: Context)
    ensures (exists k: Sight :: Enough(k, body, s, ctx) && Tracked(body, t, k, ctx)) <==>
            Tracked(body, t, Overview(body, s, ctx), ctx)
  {
    OverviewLeast(body, s, ctx);
    forall k: Sight | Enough(k, body, s, ctx) && Tracked(body, t, k, ctx)
      ensures Tracked(body, t, Overview(body, s, ctx), ctx)
    {
      TrackedNarrower(body, t, Overview(body, s, ctx), k, ctx);
    }
  }

  // ----- Whole blocks -----

  ghost predicate Kept(t': Tables, stopped: bool, k: Sight, ctx: Context, s': State, out: Outcome, at: seq<nat>) {
    Undisturbed(t'.requests, s'.log) && (out == Fell && !stopped ==> Guards(t', s', at) && Sees(k, s', ctx))
  }

  /** An assertion: the response that the walk attributes it to is intact. */
  lemma CheckUndisturbed(test: Expr, span: Span, t: Tables, s: State, s': State, at: seq<nat>)
    requires Describes(t, s, at) && Undisturbed(t.requests, s.log) && Guards(t, s, at)
    requires Apart(t.requests, s.log, {span}) && s'.env == s.env && s.log + [Checked(span, test, s.env)] <= s'.log
    requires forall j :: |s.log| < j < |s'.log| ==> !s'.log[j].Checked?
    ensures Undisturbed(WalkCheck(test, span, t).requests, s'.log)
  {
    var t', last := WalkCheck(test, span, t), |s.log|;
    LongerUndisturbed(t.requests, s.log, s'.log, {span});
    forall i, j | 0 <= i < |t'.requests| && 0 <= j < |s'.log| && s'.log[j].Checked? &&
                  s'.log[j].span in t'.requests[i].assertions
      ensures exists c: nat :: ChecksIntact(t'.requests[i], s'.log, j, c)
    {
      if j < last {
        assert s'.log[j] == s.log[j] && s.log[j].span != span;
        var c: nat :| ChecksIntact(t.requests[i], s'.log, j, c);
        assert ChecksIntact(t'.requests[i], s'.log, j, c);
      } else {
        CheckIntact(test, span, t, s, s', at, i);
      }
    }
  }

  lemma CheckIntact(test: Expr, span: Span, t: Tables, s: State, s': State, at: seq<nat>, i: nat)
    requires Describes(t, s, at) && Guards(t, s, at) && Apart(t.requests, s.log, {span})
    requires s'.env == s.env && s.log + [Checked(span, test, s.env)] <= s'.log
    requires i < |t.requests| && span in WalkCheck(test, span, t).requests[i].assertions
    ensures ChecksIntact(WalkCheck(test, span, t).requests[i], s'.log, |s.log|, at[i])
  {
    assert Attributable(test, span, t, i);
    var b :| b in t.responses && t.responses[b] == i && b in Names(test) && Direct(test, b);
    assert IsCallOf(t.requests[i], s.log, at[i]);
    assert Guarded(t, s, at, i) && s'.log[|s.log|] == Checked(span, test, s.env);
    assert forall k :: 0 <= k < |s.log| ==> s'.log[k] == s.log[k];
    assert s'.log[|s.log|].env[b] == s'.log[at[i]].result;
  }

  lemma PoisonGuards(t: Tables, names: set<string>, s: State, at: seq<nat>)
    requires Guards(t, s, at) && names !! t.Watched()
    ensures Guards(Poison(t, names), s, at)
  {
    var t' := Poison(t, names);
    assert t'.responses == t.responses;
    forall b | b in t'.responses ensures BoundTo(t', s, at, b) && Guarded(t', s, at, t'.responses[b]) {
      assert BoundTo(t, s, at, b) && Guarded(t, s, at, t.responses[b]);
    }
  }

  lemma DescribesBinds(t: Tables, s: State, at: seq<nat>, b: string)
    requires Describes(t, s, at) && b in t.responses
    ensures BoundTo(t, s, at, b)
  {
    assert IsCallOf(t.requests[t.responses[b]], s.log, at[t.responses[b]]);
  }

  /** After a decided branch that keeps custody, the enclosing tables guard what they guarded. */
  lemma CopiesGuard(t: Tables, b: Tables, s: State, at: seq<nat>)
    requires Guards(b, s, at) && SameCustody(t, b) && Separate(t)
    requires forall n :: n in t.responses ==> BoundTo(t, s, at, n)
    ensures Guards(t, s, at)
  {
    forall n | n in t.responses ensures Guarded(t, s, at, t.responses[n]) {
      var m :| m in NamesOf(b, t.responses[n]);
      assert BoundTo(b, s, at, m) && Guarded(b, s, at, b.responses[m]);
      CopyGuarded(t, b, s, at, t.responses[n]);
    }
  }

  lemma CopyGuarded(t: Tables, b: Tables, s: State, at: seq<nat>, i: nat)
    requires b.tainted <= t.tainted && NamesOf(b, i) <= NamesOf(t, i) && i < |at| && Guarded(b, s, at, i)
    ensures Guarded(t, s, at, i)
  {
    forall n | n in b.responses && b.responses[n] == i ensures n in t.responses && t.responses[n] == i {
      assert n in NamesOf(b, i);
    }
  }

  lemma RenamedGuards(t: Tables, requests: seq<Request>, s: State, at: seq<nat>)
    requires Guards(t, s, at)
    ensures Guards(t.(requests := requests), s, at)
  {
    var t' := t.(requests := requests);
    forall b | b in t'.responses ensures BoundTo(t', s, at, b) && Guarded(t', s, at, t'.responses[b]) {
      assert BoundTo(t, s, at, b) && Guarded(t, s, at, t.responses[b]);
    }
  }

  lemma {:induction false} StmtCustody(stmt: Stmt, t: Tables, k: Sight, ctx: Context, s: State, s': State, out: Outcome,
                                       at: seq<nat>)
      returns (at': seq<nat>)
    requires Describes(t, s, at) && Undisturbed(t.requests, s.log) && Guards(t, s, at)
    requires ExecStmt(stmt, ctx, s, s', out) && DistinctIn(stmt) && Apart(t.requests, s.log, SpansOf(stmt))
    requires SettledStmt(stmt, t, ctx) && TrackedStmt(stmt, t, k, ctx)
    requires Sees(k, s, ctx) && CompleteIn(stmt, k, ctx)
    ensures at <= at'
    ensures var w := WalkStmt(stmt, t, ctx); Sound(w.0, w.1, s', out, at') && Kept(w.0, w.1, k, ctx, s', out, at')
    decreases stmt, 1
  {
    at' := at;
    if out == Raised && s' == s {
      RaisedCustody(stmt, t, k, ctx, s, at);
    } else {
      match stmt
      case Pass => UndisturbedIsAttributed(t.requests, s.log);
      case Return => UndisturbedIsAttributed(t.requests, s.log);
      case Assign(target, value, span, annotated) =>
        AssignSeen(target, value, span, annotated, k, ctx, s, s');
        at' := AssignCustody(target, value, span, t, k, ctx, s, s', at);
      case Do(e) => DoCustody(e, t, k, ctx, s, s', at);
      case Check(test, span) => CheckCustody(test, span, t, k, ctx, s, s', at);
      case If(test, body, orelse) => at' := IfCustody(stmt, t, k, ctx, s, s', out, at);
    }
  }

  lemma RaisedCustody(stmt: Stmt, t: Tables, k: Sight, ctx: Context, s: State, at: seq<nat>)
    requires Undisturbed(t.requests, s.log) && Apart(t.requests, s.log, SpansOf(stmt))
    ensures var w := WalkStmt(stmt, t, ctx); Sound(w.0, w.1, s, Raised, at) && Kept(w.0, w.1, k, ctx, s, Raised, at)
  {
    UndisturbedIsAttributed(t.requests, s.log);
    StmtGrows(stmt, t, ctx);
    MoreRequests(t.requests, WalkStmt(stmt, t, ctx).0.requests, SpansOf(stmt), s.log);
    MoreUndisturbed(t.requests, WalkStmt(stmt, t, ctx).0.requests, SpansOf(stmt), s.log);
  }

  lemma DoCustody(e: Expr, t: Tables, k: Sight, ctx: Context, s: State, s': State, at: seq<nat>)
    requires Describes(t, s, at) && Undisturbed(t.requests, s.log) && Guards(t, s, at)
    requires s' == Told(s, e, ctx) && (WalkDo(e, t, ctx).1 || TrackedDo(e, t, k, ctx))
    requires Sees(k, s, ctx) && Freed(e, k, ctx.world) <= k.loose
    ensures var w := WalkDo(e, t, ctx); Sound(w.0, w.1, s', Fell, at) && Kept(w.0, w.1, k, ctx, s', Fell, at)
  {
    UndisturbedIsAttributed(t.requests, s.log);
    DoSound(e, t, ctx, s, s', at);
    DoForgets(e, t, ctx);
    LongerUndisturbed(t.requests, s.log, s'.log, {});
    ToldSeen(e, k, s, ctx);
    if !WalkDo(e, t, ctx).1 {
      DoGuards(e, t, k, ctx, s, s', at);
    }
  }

  lemma AssignCustody(target: string, value: Expr, span: Span, t: Tables, k: Sight, ctx: Context, s: State, s': State,
                      at: seq<nat>)
      returns (at': seq<nat>)
    requires Describes(t, s, at) && Undisturbed(t.requests, s.log) && Guards(t, s, at)
    requires ExecAssign(target, value, span, ctx, s, s')
    requires WalkAssign(target, value, span, t, ctx).1 || TrackedAssign(value, t, k, ctx)
    requires Sees(k, s, ctx) && Sees(k, s', ctx)
    ensures at <= at'
    ensures var w := WalkAssign(target, value, span, t, ctx);
      Sound(w.0, w.1, s', Fell, at') && Kept(w.0, w.1, k, ctx, s', Fell, at')
  {
    UndisturbedIsAttributed(t.requests, s.log);
    at' := AssignSound(target, value, span, t, ctx, s, s', at);
    var v := AssignedValue(target, value, span, ctx, s, s');
    LongerUndisturbed(t.requests, s.log, s'.log, {});
    AssignGrows(target, value, span, t, ctx);
    MoreUndisturbed(t.requests, WalkAssign(target, value, span, t, ctx).0.requests, {}, s'.log);
    if target !in t.Watched() {
      if CallRequest(value, t.values, t.clients).Some? {
        RequestGuards(target, value, span, t, k, ctx, s, s', at);
      } else {
        OtherGuards(target, value, span, t, k, ctx, s, s', at);
      }
    }
  }

  lemma AssignGrows(target: string, value: Expr, span: Span, t: Tables, ctx: Context)
    ensures Grows(t.requests, WalkAssign(target, value, span, t, ctx).0.requests, {})
  {
  }

  lemma CheckCustody(test: Expr, span: Span, t: Tables, k: Sight, ctx: Context, s: State, s': State, at: seq<nat>)
    requires Describes(t, s, at) && Undisturbed(t.requests, s.log) && Guards(t, s, at) &&
      Apart(t.requests, s.log, {span})
    requires s' == Told(s.(log := s.log + [Checked(span, test, s.env)]), test, ctx)
    requires Clear(Given(test, k, ctx.world), Holders(t)) && Sees(k, s, ctx) && Freed(test, k, ctx.world) <= k.loose
    ensures var t' := WalkCheck(test, span, t); Sound(t', false, s', Fell, at) && Kept(t', false, k, ctx, s', Fell, at)
  {
    UndisturbedIsAttributed(t.requests, s.log);
    CheckSound(test, span, t, s, s', at);
    CheckUndisturbed(test, span, t, s, s', at);
    var m := s.(log := s.log + [Checked(span, test, s.env)]);
    CheckedGuards(test, span, t, s, at);
    ToldGuards(t, m, s', at, test, k, ctx);
    ToldSeen(test, k, m, ctx);
    RenamedGuards(t, WalkCheck(test, span, t).requests, s', at);
  }

  lemma {:induction false} IfCustody(stmt: Stmt, t: Tables, k: Sight, ctx: Context, s: State, s': State, out: Outcome,
                                     at: seq<nat>)
      returns (at': seq<nat>)
    requires stmt.If? && Describes(t, s, at) && Undisturbed(t.requests, s.log) && Guards(t, s, at)
    requires ExecStmt(stmt, ctx, s, s', out) && !(out == Raised && s' == s)
    requires DistinctIn(stmt) && Apart(t.requests, s.log, SpansOf(stmt))
    requires SettledStmt(stmt, t, ctx) && TrackedStmt(stmt, t, k, ctx)
    requires Sees(k, s, ctx) && CompleteIn(stmt, k, ctx)
    ensures at <= at'
    ensures var w := WalkStmt(stmt, t, ctx); Sound(w.0, w.1, s', out, at') && Kept(w.0, w.1, k, ctx, s', out, at')
    decreases stmt, 0
  {
    var m := Told(s, stmt.test, ctx);
    var v, truth :| Evaluates(stmt.test, s.env, s.issued, ctx.world, v) && TruthIs(v, truth) &&
      ExecBlock(if truth then stmt.body else stmt.orelse, ctx, m, s', out);
    var branch := if truth then stmt.body else stmt.orelse;
    TestCustody(stmt.test, t, k, ctx, s, m, at);
    if StaticTruth(stmt.test, t.values).Some? {
      TruthDecided(stmt.test, t, ctx, s, at, v, truth);
      at' := DecidedCustody(stmt, branch, t, k, ctx, m, s', out, at);
    } else {
      at' := at;
      UndecidedCustody(stmt, branch, t, k, ctx, m, s', out, at);
    }
  }

  /** The calls of a condition leave everything as it was known. */
  lemma TestCustody(test: Expr, t: Tables, k: Sight, ctx: Context, s: State, m: State, at: seq<nat>)
    requires Describes(t, s, at) && Undisturbed(t.requests, s.log) && Guards(t, s, at) && m == Told(s, test, ctx)
    requires Sees(k, s, ctx) && Clear(Given(test, k, ctx.world), Holders(t)) && Freed(test, k, ctx.world) <= k.loose
    ensures Describes(t, m, at) && Undisturbed(t.requests, m.log) && Guards(t, m, at) && Sees(k, m, ctx)
    ensures forall spans :: Apart(t.requests, s.log, spans) ==> Apart(t.requests, m.log, spans)
  {
    LongerUndisturbed(t.requests, s.log, m.log, {});
    UndisturbedIsAttributed(t.requests, m.log);
    FewerResponses(t, t.responses, s, m, at);
    ToldGuards(t, s, m, at, test, k, ctx);
    ToldSeen(test, k, s, ctx);
  }

  lemma UndecidedCustody(stmt: Stmt, taken: seq<Stmt>, t: Tables, k: Sight, ctx: Context, s: State, s': State,
                         out: Outcome,
                         at: seq<nat>)
    requires stmt.If? && StaticTruth(stmt.test, t.values).None? && (taken == stmt.body || taken == stmt.orelse)
    requires Describes(t, s, at) && Undisturbed(t.requests, s.log) && Guards(t, s, at)
    requires ExecBlock(taken, ctx, s, s', out) && Apart(t.requests, s.log, SpansOf(stmt)) &&
      TrackedStmt(stmt, t, k, ctx)
    requires Sees(k, s, ctx) && CompleteIn(stmt, k, ctx)
    ensures var w := WalkStmt(stmt, t, ctx); Sound(w.0, w.1, s', out, at) && Kept(w.0, w.1, k, ctx, s', out, at)
  {
    UndisturbedIsAttributed(t.requests, s.log);
    UndecidedSound(stmt.body, stmt.orelse, taken, t, ctx, s, s', out, at);
    BlockFrame(taken, ctx, s, s', out);
    LongerUndisturbed(t.requests, s.log, s'.log, Spans(taken));
    if !Affects(stmt.body, t.Watched()) && !Affects(stmt.orelse, t.Watched()) {
      BlockKeeps(taken, t, k, ctx, s, s', out, at);
      UnaffectedNames(stmt.body, t.Watched());
      UnaffectedNames(stmt.orelse, t.Watched());
      PoisonGuards(t, Assigned(stmt.body) + Assigned(stmt.orelse), s', at);
    }
  }

  lemma {:induction false} DecidedCustody(stmt: Stmt, branch: seq<Stmt>, t: Tables, k: Sight, ctx: Context, s: State,
                                          s': State,
                                          out: Outcome, at: seq<nat>)
      returns (at': seq<nat>)
    requires stmt.If? && StaticTruth(stmt.test, t.values).Some?
    requires branch == if StaticTruth(stmt.test, t.values).value then stmt.body else stmt.orelse
    requires Describes(t, s, at) && Undisturbed(t.requests, s.log) && Guards(t, s, at)
    requires ExecBlock(branch, ctx, s, s', out) && DistinctIn(stmt) && Apart(t.requests, s.log, SpansOf(stmt))
    requires SettledStmt(stmt, t, ctx) && TrackedStmt(stmt, t, k, ctx)
    requires Sees(k, s, ctx) && CompleteIn(stmt, k, ctx)
    ensures at <= at'
    ensures var w := WalkStmt(stmt, t, ctx); Sound(w.0, w.1, s', out, at') && Kept(w.0, w.1, k, ctx, s', out, at')
    decreases branch, 2
  {
    at' := BlockCustody(branch, t, k, ctx, s, s', out, at);
    var (b, stopped) := WalkBlock(branch, t, ctx);
    if out == Fell && !stopped {
      DecidedDescribes(branch, ctx, t, b, s, s', out, at, at');
      var t' := t.(requests := b.requests);
      forall n | n in t.responses ensures BoundTo(t, s', at', n) {
        DescribesBinds(t', s', at', n);
      }
      CopiesGuard(t, b, s', at');
      RenamedGuards(t, b.requests, s', at');
    }
  }

  lemma {:induction false} BlockCustody(stmts: seq<Stmt>, t: Tables, k: Sight, ctx: Context, s: State, s': State,
                                        out: Outcome,
                                        at: seq<nat>)
      returns (at': seq<nat>)
    requires Describes(t, s, at) && Undisturbed(t.requests, s.log) && Guards(t, s, at)
    requires ExecBlock(stmts, ctx, s, s', out) && DistinctSpans(stmts) && Apart(t.requests, s.log, Spans(stmts))
    requires Settled(stmts, t, ctx) && Tracked(stmts, t, k, ctx) && Sees(k, s, ctx) && Complete(stmts, k, ctx)
    ensures at <= at'
    ensures var w := WalkBlock(stmts, t, ctx); Sound(w.0, w.1, s', out, at') && Kept(w.0, w.1, k, ctx, s', out, at')
    decreases stmts, 1
  {
    at' := at;
    UndisturbedIsAttributed(t.requests, s.log);
    if |stmts| > 0 {
      var m, o :| ExecStmt(stmts[0], ctx, s, m, o) &&
        if o == Fell then ExecBlock(stmts[1..], ctx, m, s', out) else s' == m && out == o;
      var (t1, stopped) := WalkStmt(stmts[0], t, ctx);
      at' := StmtCustody(stmts[0], t, k, ctx, s, m, o, at);
      StillApart(stmts, t, ctx, s, m, o);
      if o != Fell || stopped {
        CutShort(stmts, t, k, ctx, m, s', o, out, at');
      } else {
        at' := BlockCustody(stmts[1..], t1, k, ctx, m, s', out, at');
      }
    }
  }

  /** The run or the walk ends with the first statement: the rest adds no claim, or nothing that is claimed. */
  lemma CutShort(stmts: seq<Stmt>, t: Tables, k: Sight, ctx: Context, m: State, s': State, o: Outcome, out: Outcome,
                 at: seq<nat>)
    requires |stmts| > 0
    requires var w := WalkStmt(stmts[0], t, ctx);
      && Sound(w.0, w.1, m, o, at) && Kept(w.0, w.1, k, ctx, m, o, at) && Apart(w.0.requests, m.log, Spans(stmts[1..]))
      && (o != Fell || w.1)
    requires if o == Fell then ExecBlock(stmts[1..], ctx, m, s', out) else s' == m && out == o
    ensures var w := WalkBlock(stmts, t, ctx); Sound(w.0, w.1, s', out, at) && Kept(w.0, w.1, k, ctx, s', out, at)
  {
    var (t1, stopped) := WalkStmt(stmts[0], t, ctx);
    if o != Fell {
      if !stopped {
        BlockGrows(stmts[1..], t1, ctx);
        MoreRequests(t1.requests, WalkBlock(stmts[1..], t1, ctx).0.requests, Spans(stmts[1..]), m.log);
        MoreUndisturbed(t1.requests, WalkBlock(stmts[1..], t1, ctx).0.requests, Spans(stmts[1..]), m.log);
      }
    } else {
      BlockFrame(stmts[1..], ctx, m, s', out);
      LongerLog(t1.requests, m.log, s'.log, Spans(stmts[1..]));
      LongerUndisturbed(t1.requests, m.log, s'.log, Spans(stmts[1..]));
      StillPerformed(t1.requests, m.log, s'.log, at);
    }
  }

  // ----- The theorem -----

  /** On every run of a body in which the walk can follow the responses: an assertion that the analyser
      attributes to a request checks an object that nothing was handed since the call returned it. */
  lemma CustodyKept(body: seq<Stmt>, t: Tables, k: Sight, ctx: Context, s: State, s': State, out: Outcome)
    requires Initial(t, s) && DistinctSpans(body) && Settled(body, t, ctx) && Tracked(body, t, k, ctx)
    requires Enough(k, body, s, ctx) && ExecBlock(body, ctx, s, s', out)
    ensures Undisturbed(WalkBlock(body, t, ctx).0.requests, s'.log)
  {
    InitialDescribes(t, s);
    var at := BlockCustody(body, t, k, ctx, s, s', out, []);
  }

  // ----- How far the condition is needed -----

  /** The variable `n` holds the response that `b` names. */
  ghost predicate HoldsOf(t: Tables, s: State, at: seq<nat>, n: string, b: string) {
    && b in t.responses && BoundTo(t, s, at, b) && IsNew(s.log, at[t.responses[b]])
    && n in s.env && s.log[at[t.responses[b]]].result.id in Objs(s.env[n])
  }

  /** Responses are new objects, and no name is tainted for nothing: it holds one that is among `kept`. */
  ghost predicate Busy(t: Tables, kept: map<string, nat>, s: State, at: seq<nat>) {
    && (forall b :: b in t.responses ==> BoundTo(t, s, at, b) && IsNew(s.log, at[t.responses[b]]))
    && forall n :: n in t.tainted ==> exists b :: b in kept && HoldsOf(t, s, at, n, b)
  }

  lemma HolderHolds(t: Tables, kept: map<string, nat>, s: State, at: seq<nat>, n: string) returns (b: string)
    requires Busy(t, kept, s, at) && n in Holders(t) && (n in t.responses ==> n in kept)
    ensures b in kept && HoldsOf(t, s, at, n, b)
  {
    if n in t.tainted {
      b :| b in kept && HoldsOf(t, s, at, n, b);
    } else {
      b := n;
      assert BoundTo(t, s, at, b);
    }
  }

  /** The calls of `e` were made after `s`. */
  ghost predicate After(s: State, s': State, e: Expr, ctx: Context) {
    var handed := Handed(ObjsOf(Given(e, SightOf(s, ctx), ctx.world), s.env));
    s.log <= s'.log && exists k :: |s.log| <= k < |s'.log| && s'.log[k] == handed
  }

  /** A call that receives a response by some variable breaks custody of it. */
  lemma ExposureBreaks(t: Tables, t': Tables, s: State, s': State, at: seq<nat>, at': seq<nat>, e: Expr, ctx: Context,
                       n: string, b: string)
    requires HoldsOf(t, s, at, n, b) && n in Given(e, SightOf(s, ctx), ctx.world) && After(s, s', e, ctx) && at <= at'
    requires b in t'.responses && t'.responses[b] == t.responses[b]
    ensures !Intact(s'.log, at[t.responses[b]], |s'.log|) && !Guards(t', s', at')
  {
    var c := at[t.responses[b]];
    var k :| |s.log| <= k < |s'.log| && s'.log[k] == Handed(ObjsOf(Given(e, SightOf(s, ctx), ctx.world), s.env));
    assert s'.log[c] == s.log[c] && s.log[c].result.id in s'.log[k].objs;
    assert !Guarded(t', s', at', t.responses[b]);
  }

  lemma ToldAfter(s: State, e: Expr, ctx: Context)
    requires Calls(e)
    ensures After(s, Told(s, e, ctx), e, ctx)
  {
    assert Told(s, e, ctx).log[|s.log|] == Handed(ObjsOf(Given(e, SightOf(s, ctx), ctx.world), s.env));
  }

  /** The condition of an `if`: evaluating it keeps custody exactly when no call in it receives from a holder. */
  lemma TestExact(test: Expr, t: Tables, ctx: Context, s: State, at: seq<nat>)
    requires Guards(t, s, at) && Busy(t, t.responses, s, at)
    ensures Guards(t, Told(s, test, ctx), at) <==> Clear(Given(test, SightOf(s, ctx), ctx.world), Holders(t))
  {
    var given := Given(test, SightOf(s, ctx), ctx.world);
    if Clear(given, Holders(t)) {
      ToldGuards(t, s, Told(s, test, ctx), at, test, SightOf(s, ctx), ctx);
    } else {
      var n :| n in given && n in Holders(t);
      var b := HolderHolds(t, t.responses, s, at, n);
      ToldAfter(s, test, ctx);
      ExposureBreaks(t, t, s, Told(s, test, ctx), at, at, test, ctx, n, b);
    }
  }

  /** An assertion: what comes after it finds the responses guarded exactly under the same condition. */
  lemma CheckExact(test: Expr, span: Span, t: Tables, ctx: Context, s: State, at: seq<nat>)
    requires Guards(t, s, at) && Busy(t, t.responses, s, at)
    ensures Guards(WalkCheck(test, span, t), Told(s.(log := s.log + [Checked(span, test, s.env)]), test, ctx), at) <==>
            Clear(Given(test, SightOf(s, ctx), ctx.world), Holders(t))
  {
    var m := s.(log := s.log + [Checked(span, test, s.env)]);
    var t' := WalkCheck(test, span, t);
    CheckedGuards(test, span, t, s, at);
    var given := Given(test, SightOf(s, ctx), ctx.world);
    if Clear(given, Holders(t)) {
      ToldGuards(t, m, Told(m, test, ctx), at, test, SightOf(m, ctx), ctx);
      RenamedGuards(t, t'.requests, Told(m, test, ctx), at);
    } else {
      var n :| n in given && n in Holders(t);
      var b := HolderHolds(t, t.responses, s, at, n);
      assert m.log[at[t.responses[b]]] == s.log[at[t.responses[b]]];
      assert HoldsOf(t, m, at, n, b);
      ToldAfter(m, test, ctx);
      ExposureBreaks(t, t', m, Told(m, test, ctx), at, at, test, ctx, n, b);
    }
  }

  /** A bare expression that does not stop the walk keeps custody of the responses that are left exactly when
      what it receives from holders, it mentions by some name. */
  lemma DoExact(e: Expr, t: Tables, ctx: Context, s: State, at: seq<nat>)
    requires Guards(t, s, at) && !WalkDo(e, t, ctx).1 && Busy(t, WalkDo(e, t, ctx).0.responses, s, at)
    ensures Guards(WalkDo(e, t, ctx).0, Told(s, e, ctx), at) <==> TrackedDo(e, t, SightOf(s, ctx), ctx)
  {
    var t', s' := WalkDo(e, t, ctx).0, Told(s, e, ctx);
    if TrackedDo(e, t, SightOf(s, ctx), ctx) {
      DoGuards(e, t, SightOf(s, ctx), ctx, s, s', at);
    } else {
      var n := UnmentionedHolder(e, t, SightOf(s, ctx), ctx);
      var b := HolderHolds(t, t'.responses, s, at, n);
      DoForgets(e, t, ctx);
      ToldAfter(s, e, ctx);
      ExposureBreaks(t, t', s, s', at, at, e, ctx, n, b);
    }
  }

  /** A holder that the call receives from and the walk overlooks; a response among them stays. */
  lemma UnmentionedHolder(e: Expr, t: Tables, k: Sight, ctx: Context) returns (n: string)
    requires !WalkDo(e, t, ctx).1 && !TrackedDo(e, t, k, ctx)
    ensures n in Given(e, k, ctx.world) && n in Holders(t)
    ensures n in t.responses ==> n in WalkDo(e, t, ctx).0.responses
  {
    if Overlooked(e, t) {
      OverlookedKeeps(e, t, ctx);
      n :| n in Given(e, k, ctx.world) && n in Holders(t);
    } else {
      n :| n in Given(e, k, ctx.world) && n in Holders(t) && n !in Akin(t, Mentioned(e, ctx));
      if n in t.responses {
        UnmentionedStays(e, t, ctx, n);
      }
    }
  }

  /** A bare call forgets no more than the responses that it mentions. */
  lemma UnmentionedStays(e: Expr, t: Tables, ctx: Context, n: string)
    requires !WalkDo(e, t, ctx).1 && !Overlooked(e, t) && n in t.responses && n !in Akin(t, Mentioned(e, ctx))
    ensures n in WalkDo(e, t, ctx).0.responses
  {
    var call, names := StripAwait(e), ExecNames(StripAwait(e));
    var captured := Captured(call, ctx);
    NotDropped(t, t.responses, captured, n);
    NotDropped(t, t.responses, names, n);
    NotDropped(t, DropEvents(t.responses, captured), names, n);
  }

  lemma NotDropped(t: Tables, responses: map<string, nat>, names: set<string>, n: string)
    requires n in responses && n in t.responses && n !in Akin(t, names)
    requires forall m :: m in responses ==> m in t.responses && responses[m] == t.responses[m]
    ensures n in DropEvents(responses, names)
    ensures forall m :: m in DropEvents(responses, names) ==>
      m in t.responses && DropEvents(responses, names)[m] == t.responses[m]
  {
  }

  // ----- Assignments, exactly -----

  /** The run of an assignment that gives the target the value `v`. */
  ghost function RunOf(target: string, value: Expr, ctx: Context, s: State, v: Val): State {
    Told(s, value, ctx).(env := s.env[target := v])
  }

  /** Every assignment can be made. */
  lemma SomeRun(target: string, value: Expr, span: Span, ctx: Context, s: State) returns (s': State)
    ensures ExecAssign(target, value, span, ctx, s, s')
    ensures Calls(value) ==> After(s, s', value, ctx)
  {
    var v := SomeValue(value, s.env, s.issued, ctx.world);
    if RequestShaped(value) {
      var call := StripAwait(value);
      var args := SomeValues(call, call.args, s.env, s.issued, ctx.world);
      var entry := CallEntry(value, span, s.env, args, v);
      s' := State(s.env[target := v], s.issued + Objs(v), s.log + [entry] + HandOver(value, s, ctx),
                  Told(s, value, ctx).escaped);
      assert ExecRequest(target, value, span, ctx, s, s', args, v);
      if Calls(value) {
        assert s'.log[|s.log| + 1] == Handed(ObjsOf(Given(value, SightOf(s, ctx), ctx.world), s.env));
      }
    } else {
      s' := RunOf(target, value, ctx, s, v);
      if Calls(value) {
        ToldAfter(s, value, ctx);
      }
    }
  }

  /** What a holder hands a call of the value, or what flows unseen into the target, breaks custody in some run. */
  lemma ExposedRun(target: string, value: Expr, span: Span, t: Tables, t': Tables, ctx: Context, s: State, at: seq<nat>,
                   at': seq<nat>)
      returns (s': State)
    requires Busy(t, t.responses, s, at) && KeepsOthers(t, t', target) && target !in t.responses && at <= at'
    requires !Clear(Given(value, SightOf(s, ctx), ctx.world), Holders(t))
    ensures ExecAssign(target, value, span, ctx, s, s') && !Guards(t', s', at')
  {
    var n :| n in Given(value, SightOf(s, ctx), ctx.world) && n in Holders(t);
    var b := HolderHolds(t, t.responses, s, at, n);
    s' := SomeRun(target, value, span, ctx, s);
    ExposureBreaks(t, t', s, s', at, at', value, ctx, n, b);
  }

  lemma FlowRun(target: string, value: Expr, span: Span, t: Tables, t': Tables, ctx: Context, s: State, at: seq<nat>)
      returns (s': State)
    requires Busy(t, t.responses, s, at) && KeepsOthers(t, t', target) && !RequestShaped(value)
    requires target !in t.responses && target !in t'.tainted && target !in t'.responses
    requires !Clear(Vals(value, LinksOf(s.env, ctx.world), ctx.world), Holders(t))
    ensures ExecAssign(target, value, span, ctx, s, s') && !Guards(t', s', at)
  {
    var n :| n in Vals(value, LinksOf(s.env, ctx.world), ctx.world) && n in Holders(t);
    var b := HolderHolds(t, t.responses, s, at, n);
    var i := t.responses[b];
    var o := s.log[at[i]].result.id;
    var v := FlowComplete(value, s.env, s.issued, ctx.world, n, o);
    s' := RunOf(target, value, ctx, s, v);
    assert s'.log[at[i]] == s.log[at[i]];
    assert target in s'.env && o in Objs(s'.env[target]);
    assert !Guarded(t', s', at, i);
  }

  /** Where the calls of the runs are: the walk and the run record a request together. */
  function AtAfter(value: Expr, t: Tables, s: State, at: seq<nat>): seq<nat> {
    if CallRequest(value, t.values, t.clients).Some? then at + [|s.log|] else at
  }

  /** An assignment keeps custody on every run exactly when the walk can see what it does. */
  lemma AssignExact(target: string, value: Expr, span: Span, t: Tables, ctx: Context, s: State, at: seq<nat>)
    requires Guards(t, s, at) && |at| == |t.requests| && target !in t.Watched() && Busy(t, t.responses, s, at)
    ensures (forall s' :: ExecAssign(target, value, span, ctx, s, s') ==>
              Guards(WalkAssign(target, value, span, t, ctx).0, s', AtAfter(value, t, s, at))) <==>
            TrackedAssign(value, t, SightOf(s, ctx), ctx)
  {
    if TrackedAssign(value, t, SightOf(s, ctx), ctx) {
      forall s' | ExecAssign(target, value, span, ctx, s, s')
        ensures Guards(WalkAssign(target, value, span, t, ctx).0, s', AtAfter(value, t, s, at))
      {
        if CallRequest(value, t.values, t.clients).Some? {
          RequestGuards(target, value, span, t, SightOf(s, ctx), ctx, s, s', at);
        } else {
          OtherGuards(target, value, span, t, SightOf(s, ctx), ctx, s, s', at);
        }
      }
    } else {
      var s' := UntrackedRun(target, value, span, t, ctx, s, at);
    }
  }

  lemma UntrackedRun(target: string, value: Expr, span: Span, t: Tables, ctx: Context, s: State, at: seq<nat>)
      returns (s': State)
    requires Guards(t, s, at) && target !in t.Watched() && Busy(t, t.responses, s, at)
    requires !TrackedAssign(value, t, SightOf(s, ctx), ctx)
    ensures ExecAssign(target, value, span, ctx, s, s')
    ensures !Guards(WalkAssign(target, value, span, t, ctx).0, s', AtAfter(value, t, s, at))
  {
    var t' := WalkAssign(target, value, span, t, ctx).0;
    AssignSeparate(target, value, span, t, ctx);
    if Clear(Given(value, SightOf(s, ctx), ctx.world), Holders(t)) {
      if RequestShaped(value) {
        RequestReceives(value, SightOf(s, ctx), ctx);
      }
      Unwatched(target, value, span, t, ctx);
      s' := FlowRun(target, value, span, t, t', ctx, s, at);
    } else {
      s' := ExposedRun(target, value, span, t, t', ctx, s, at, AtAfter(value, t, s, at));
    }
  }

  lemma Unwatched(target: string, value: Expr, span: Span, t: Tables, ctx: Context)
    requires target !in t.Watched() && CallRequest(value, t.values, t.clients).None?
    requires AliasRoots(value) * t.Watched() == {}
    ensures var t' := WalkAssign(target, value, span, t, ctx).0;
      t'.responses == t.responses && target !in t'.tainted && target !in t'.responses
  {
    if value.Name? {
      assert AliasRoots(value) == {value.id};
    }
    assert t.responses - {target} == t.responses;
  }

  // ----- Branches, exactly -----

  lemma {:induction false} VeiledVals(e: Expr, links: Links, w: Setting, n: string)
    requires Veiled(e, links, w, n)
    ensures n in Vals(e, links, w)
    decreases e
  {
    if !(Draws(e, w) && n in Late(e, links, w)) {
      var i :| 0 <= i < |Parts(e, w)| && Veiled(Parts(e, w)[i], links, w, n);
      VeiledVals(Parts(e, w)[i], links, w, n);
      assert AnyVals(e, Parts(e, w), links, w, n);
    }
  }

  lemma {:induction false} UnspokenExposed(e: Expr, links: Links, w: Setting, n: string)
    requires Unspoken(e, links, w, n)
    ensures Exposes(e, links, w, n)
    decreases e
  {
    if e.Call? && Hands(e) && Veiled(e, links, w, n) {
      VeiledVals(e, links, w, n);
    } else if !(e.Lambda? && Exposes(e, links, w, n)) && !(e.Await? && n in Vals(e, links, w)) {
      var i :| 0 <= i < |Evaluated(e)| && Unspoken(Evaluated(e)[i], links, w, n);
      UnspokenExposed(Evaluated(e)[i], links, w, n);
    }
  }

  lemma UnheardGiven(e: Expr, k: Sight, w: Setting)
    ensures Unheard(e, k, w) <= Given(e, k, w)
  {
    forall n | n in Unheard(e, k, w) ensures n in Given(e, k, w) {
      if Unspoken(e, k.links, w, n) {
        UnspokenExposed(e, k.links, w, n);
      }
    }
  }

  /** An assignment that leaves the tables as they are, as those of a branch the walk does not decide. */
  lemma BlindAssignExact(target: string, value: Expr, span: Span, t: Tables, ctx: Context, s: State, at: seq<nat>)
    requires Guards(t, s, at) && target !in t.Watched() && Busy(t, t.responses, s, at)
    ensures (forall s' :: ExecAssign(target, value, span, ctx, s, s') ==> Guards(t, s', at)) <==>
            && Clear(Given(value, SightOf(s, ctx), ctx.world), Holders(t))
            && Clear(Vals(value, LinksOf(s.env, ctx.world), ctx.world), Holders(t))
  {
    var k := SightOf(s, ctx);
    if Clear(Given(value, k, ctx.world), Holders(t)) && Clear(Vals(value, k.links, ctx.world), Holders(t)) {
      forall s' | ExecAssign(target, value, span, ctx, s, s') ensures Guards(t, s', at) {
        BlindAssignKeeps(target, value, span, t, k, ctx, s, s', at);
      }
    } else if Clear(Given(value, k, ctx.world), Holders(t)) {
      if RequestShaped(value) {
        RequestReceives(value, k, ctx);
      }
      var s' := FlowRun(target, value, span, t, t, ctx, s, at);
    } else {
      var s' := ExposedRun(target, value, span, t, t, ctx, s, at, at);
    }
  }

  /** A statement, other than an `if`, that passes the control-flow check keeps custody on every run exactly when
      nothing reaches it in the ways that the check does not look at. */
  lemma BranchExact(stmt: Stmt, t: Tables, ctx: Context, s: State, at: seq<nat>)
    requires Guards(t, s, at) && Busy(t, t.responses, s, at) && !stmt.If? && !AffectsOne(stmt, t.Watched())
    ensures EveryRunKeeps(stmt, t, ctx, s, at) <==> UnseenIn(stmt, Holders(t), SightOf(s, ctx), ctx)
  {
    if UnseenIn(stmt, Holders(t), SightOf(s, ctx), ctx) {
      BranchKeeps(stmt, t, ctx, s, at);
    } else {
      var s' := BranchBreaks(stmt, t, ctx, s, at);
    }
  }

  lemma BranchKeeps(stmt: Stmt, t: Tables, ctx: Context, s: State, at: seq<nat>)
    requires Guards(t, s, at) && !stmt.If? && !AffectsOne(stmt, t.Watched())
    requires UnseenIn(stmt, Holders(t), SightOf(s, ctx), ctx)
    ensures EveryRunKeeps(stmt, t, ctx, s, at)
  {
    forall s', out | ExecStmt(stmt, ctx, s, s', out) ensures Guards(t, s', at) {
      if !(out == Raised && s' == s) {
        BranchKeepsOne(stmt, t, ctx, s, s', at);
      }
    }
  }

  lemma BranchKeepsOne(stmt: Stmt, t: Tables, ctx: Context, s: State, s': State, at: seq<nat>)
    requires Guards(t, s, at) && !stmt.If? && !AffectsOne(stmt, t.Watched()) && ExecStmt(stmt, ctx, s, s', Fell)
    requires UnseenIn(stmt, Holders(t), SightOf(s, ctx), ctx)
    ensures Guards(t, s', at)
  {
    var k := SightOf(s, ctx);
    match stmt
    case Pass =>
    case Assign(target, value, span, annotated) =>
      BranchAssignKeeps(target, value, span, annotated, t, k, ctx, s, s', at);
    case Do(e) =>
      ExposedApart(e, t, k, ctx);
      ToldGuards(t, s, s', at, e, k, ctx);
    case Check(test, span) =>
      ExposedApart(test, t, k, ctx);
      CheckedGuards(test, span, t, s, at);
      ToldGuards(t, s.(log := s.log + [Checked(span, test, s.env)]), s', at, test, k, ctx);
  }

  lemma BranchBreaks(stmt: Stmt, t: Tables, ctx: Context, s: State, at: seq<nat>) returns (s': State)
    requires Guards(t, s, at) && Busy(t, t.responses, s, at) && !stmt.If? && !AffectsOne(stmt, t.Watched())
    requires !UnseenIn(stmt, Holders(t), SightOf(s, ctx), ctx)
    ensures ExecStmt(stmt, ctx, s, s', Fell) && !Guards(t, s', at)
  {
    var k := SightOf(s, ctx);
    match stmt
    case Assign(target, value, span, annotated) =>
      UnheardGiven(value, k, ctx.world);
      forall n | Veiled(value, k.links, ctx.world, n) ensures n in Vals(value, k.links, ctx.world) {
        VeiledVals(value, k.links, ctx.world, n);
      }
      BlindAssignExact(target, value, span, t, ctx, s, at);
      s' :| ExecAssign(target, value, span, ctx, s, s') && !Guards(t, s', at);
    case Do(e) =>
      UnheardGiven(e, k, ctx.world);
      TestExact(e, t, ctx, s, at);
      s' := Told(s, e, ctx);
    case Check(test, span) =>
      UnheardGiven(test, k, ctx.world);
      CheckExact(test, span, t, ctx, s, at);
      s' := Told(s.(log := s.log + [Checked(span, test, s.env)]), test, ctx);
      if Guards(t, s', at) {
        RenamedGuards(t, WalkCheck(test, span, t).requests, s', at);
      }
  }

  ghost predicate EveryRunKeeps(stmt: Stmt, t: Tables, ctx: Context, s: State, at: seq<nat>) {
    forall s', out :: ExecStmt(stmt, ctx, s, s', out) ==> Guards(t, s', at)
  }
}
