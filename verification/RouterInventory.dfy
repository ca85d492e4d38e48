/** The static router inventory of `platform_contract_inventory.py`: alias resolution across modules and
    a path-sensitive walk of the include graph, which may be cyclic. */
module RouterInventory {
  import opened Text
  import opened PyAst

  /** A router symbol: the module that names it and the name. */
  datatype Ref = Ref(path: string, name: string)

  /** `prefix` and `include_in_schema` are None when they are not statically known. */
  datatype RouterSpec = RouterSpec(prefix: Option<string>, schema: Option<bool>)

  /** `receiver` is what the decorated expression refers to in its module, if anything. */
  datatype Route = Route(receiver: Option<Ref>, verb: string, path: Option<string>, schema: Option<bool>)

  datatype Argument = NoArgument | Argument(ref: Option<Ref>)

  /** An `include_router` call; `onApp` when its receiver is the bare name `app`. */
  datatype Include = Include(onApp: bool, receiver: Option<Ref>, child: Argument, prefix: Option<string>,
                             schema: Option<bool>)

  /** An analysed module, its routes and includes in source order. */
  datatype Module = Module(
    routers: map<string, RouterSpec>, bindings: map<string, Ref>, routes: seq<Route>, includes: seq<Include>)

  /** The modules that can be read and parsed. */
  type World = map<string, Module>

  datatype Error =
    | Unreadable(path: string)
    | AliasCycle(ref: Ref)
    | Unresolvable(ref: Ref)
    | IncludeCycle(ref: Ref)
    | BadPrefix(prefix: Option<string>)
    | UnknownSchema
    | UnsupportedVerb(verb: string)
    | UnknownPath
    | InvalidRoute(key: string)
    | Duplicate(key: string)
    | MissingArgument
    | UnresolvedArgument

  /** Where a call or a decorator stands: its module and its position there. */
  datatype Place = Place(path: string, index: nat)

  /** A record of the inventory: where the route is declared, and the include calls that lead to its router, of
      which the source keeps no trace. */
  datatype Record = Record(isHidden: bool, via: seq<Place>, at: Place)

  datatype State = State(records: map<string, Record>, errors: seq<Error>) {
    function Fail(error: Error): State {
      State(records, errors + [error])
    }
  }

  const ROUTE_METHODS: set<string> := {"get", "post", "put", "patch", "delete"}

  // ----- Alias resolution -----

  ghost function AllBindings(world: World): set<Ref> {
    set p, n | p in world && n in world[p].bindings :: world[p].bindings[n]
  }

  predicate IsRouter(world: World, ref: Ref) {
    ref.path in world && ref.name in world[ref.path].routers
  }

  predicate IsAlias(world: World, ref: Ref) {
    ref.path in world && ref.name !in world[ref.path].routers && ref.name in world[ref.path].bindings
  }

  /** `_canonical_route_router`: the router a reference stands for, and the errors met on the way. */
  function Canonical(world: World, ref: Ref, active: set<Ref>): (Option<Ref>, seq<Error>)
    decreases (AllBindings(world) + {ref}) - active
  {
    if ref in active then (None, [AliasCycle(ref)])
    else if ref.path !in world then (None, [Unreadable(ref.path)])
    else if IsRouter(world, ref) then (Some(ref), [])
    else if IsAlias(world, ref) then
      var binding := world[ref.path].bindings[ref.name];
      assert binding in AllBindings(world);
      assert ref in (AllBindings(world) + {ref}) - active;
      Canonical(world, binding, active + {ref})
    else (None, [])
  }

  function Resolved(world: World, ref: Option<Ref>): Option<Ref> {
    if ref.None? then None else Canonical(world, ref.value, {}).0
  }

  function ResolveErrors(world: World, ref: Option<Ref>): seq<Error> {
    if ref.None? then [] else Canonical(world, ref.value, {}).1
  }

  /** A chain of aliases that ends in a router. */
  ghost predicate AliasChain(world: World, chain: seq<Ref>) {
    && |chain| > 0
    && IsRouter(world, chain[|chain| - 1])
    && forall i :: 0 <= i < |chain| - 1 ==>
         IsAlias(world, chain[i]) && world[chain[i].path].bindings[chain[i].name] == chain[i + 1]
  }

  ghost predicate StandsFor(world: World, ref: Ref, router: Ref) {
    exists chain :: AliasChain(world, chain) && chain[0] == ref && chain[|chain| - 1] == router
  }

  lemma {:induction false} ChainTail(world: World, chain: seq<Ref>)
    requires AliasChain(world, chain) && |chain| > 1
    ensures AliasChain(world, chain[1..])
  {
    var rest := chain[1..];
    forall i | 0 <= i < |rest| - 1
      ensures IsAlias(world, rest[i]) && world[rest[i].path].bindings[rest[i].name] == rest[i + 1]
    {
      assert rest[i] == chain[i + 1] && rest[i + 1] == chain[i + 2];
    }
  }

  /** Aliases leave no choice: two chains from one reference are the same. */
  lemma {:induction false} ChainUnique(world: World, c1: seq<Ref>, c2: seq<Ref>)
    requires AliasChain(world, c1) && AliasChain(world, c2) && c1[0] == c2[0]
    ensures c1 == c2
    decreases |c1|
  {
    if |c1| > 1 {
      assert IsAlias(world, c1[0]);
      assert |c2| > 1;
      ChainTail(world, c1);
      ChainTail(world, c2);
      ChainUnique(world, c1[1..], c2[1..]);
      assert c1 == [c1[0]] + c1[1..] && c2 == [c2[0]] + c2[1..];
    } else {
      assert |c2| > 1 ==> IsAlias(world, c2[0]);
    }
  }

  lemma {:induction false} CanonicalSound(world: World, ref: Ref, active: set<Ref>) returns (chain: seq<Ref>)
    requires Canonical(world, ref, active).0.Some?
    ensures AliasChain(world, chain) && chain[0] == ref && chain[|chain| - 1] == Canonical(world, ref, active).0.value
    ensures IsRouter(world, Canonical(world, ref, active).0.value)
    decreases (AllBindings(world) + {ref}) - active
  {
    if IsRouter(world, ref) {
      chain := [ref];
    } else {
      var binding := world[ref.path].bindings[ref.name];
      assert binding in AllBindings(world);
      assert ref in (AllBindings(world) + {ref}) - active;
      var rest := CanonicalSound(world, binding, active + {ref});
      chain := [ref] + rest;
      forall i | 0 <= i < |chain| - 1
        ensures IsAlias(world, chain[i]) && world[chain[i].path].bindings[chain[i].name] == chain[i + 1]
      {
        if i > 0 {
          assert chain[i] == rest[i - 1] && chain[i + 1] == rest[i];
        }
      }
    }
  }

  /** References met earlier have longer chains, so a chain that ends never meets one again. */
  lemma {:induction false} CanonicalComplete(world: World, chain: seq<Ref>, active: set<Ref>)
    requires AliasChain(world, chain)
    requires forall a :: a in active ==> exists c :: AliasChain(world, c) && c[0] == a && |c| > |chain|
    ensures Canonical(world, chain[0], active) == (Some(chain[|chain| - 1]), [])
    decreases |chain|
  {
    if chain[0] in active {
      var c :| AliasChain(world, c) && c[0] == chain[0] && |c| > |chain|;
      ChainUnique(world, c, chain);
      assert false;
    }
    if |chain| > 1 {
      assert IsAlias(world, chain[0]);
      ChainTail(world, chain);
      var rest := chain[1..];
      forall a | a in active + {chain[0]} ensures exists c :: AliasChain(world, c) && c[0] == a && |c| > |rest| {
        if a in active {
          var c :| AliasChain(world, c) && c[0] == a && |c| > |chain|;
          assert AliasChain(world, c) && c[0] == a && |c| > |rest|;
        } else {
          assert AliasChain(world, chain) && chain[0] == a && |chain| > |rest|;
        }
      }
      CanonicalComplete(world, rest, active + {chain[0]});
    }
  }

  /** Resolution finds exactly the router at the end of the alias chain, and then reports no error. */
  lemma CanonicalExact(world: World, ref: Ref, router: Ref)
    ensures Canonical(world, ref, {}).0 == Some(router) <==> StandsFor(world, ref, router)
    ensures StandsFor(world, ref, router) ==> Canonical(world, ref, {}).1 == []
  {
    if Canonical(world, ref, {}).0 == Some(router) {
      var chain := CanonicalSound(world, ref, {});
    }
    if StandsFor(world, ref, router) {
      var chain :| AliasChain(world, chain) && chain[0] == ref && chain[|chain| - 1] == router;
      CanonicalComplete(world, chain, {});
    }
  }

  // ----- The walk -----

  ghost function AllRouters(world: World): set<Ref> {
    set p, n | p in world && n in world[p].routers :: Ref(p, n)
  }

  predicate PrefixOk(prefix: Option<string>) {
    prefix.Some? && (|prefix.value| == 0 || (prefix.value[0] == '/' && prefix.value[|prefix.value| - 1] != '/'))
  }

  /** `ROUTE_RE`: a slash and at least one more character, without line breaks. */
  predicate PathOk(path: string) {
    |path| >= 2 && path[0] == '/' && '\n' !in path
  }

  function Key(verb: string, path: string): string {
    AsciiUpper(verb) + " " + path
  }

  /** `_route_record` */
  function PutRecord(st: State, key: string, record: Record): State {
    State(st.records[key := record], if key in st.records then st.errors + [Duplicate(key)] else st.errors)
  }

  function CollectRoute(world: World, router: Ref, base: string, isHidden: bool, via: seq<Place>, k: nat,
                        st: State): State
    requires IsRouter(world, router) && k < |world[router.path].routes|
  {
    var route := world[router.path].routes[k];
    var st1 := State(st.records, st.errors + ResolveErrors(world, route.receiver));
    if Resolved(world, route.receiver) != Some(router) then st1
    else if route.verb !in ROUTE_METHODS then st1.Fail(UnsupportedVerb(route.verb))
    else if route.path.None? then st1.Fail(UnknownPath)
    else if route.schema.None? then st1.Fail(UnknownSchema)
    else
      var path := base + route.path.value;
      if !PathOk(path) then st1.Fail(InvalidRoute(Key(route.verb, path)))
      else PutRecord(st1, Key(route.verb, path), Record(isHidden || !route.schema.value, via, Place(router.path, k)))
  }

  function CollectRoutes(world: World, router: Ref, base: string, isHidden: bool, via: seq<Place>, count: nat,
                         st: State): State
    requires IsRouter(world, router) && count <= |world[router.path].routes|
  {
    if count == 0 then st
    else CollectRoute(world, router, base, isHidden, via, count - 1,
      CollectRoutes(world, router, base, isHidden, via, count - 1, st))
  }

  function CollectInclude(world: World, router: Ref, base: string, isHidden: bool, active: set<Ref>, via: seq<Place>,
                          k: nat, st: State): State
    requires IsRouter(world, router) && router !in active && k < |world[router.path].includes|
    decreases AllRouters(world) - active, 1, k, 0
  {
    var inc := world[router.path].includes[k];
    var st1 := State(st.records, st.errors + ResolveErrors(world, inc.receiver));
    if Resolved(world, inc.receiver) != Some(router) then st1
    else if inc.child.NoArgument? then st1.Fail(MissingArgument)
    else
      var st2 := State(st1.records, st1.errors + ResolveErrors(world, inc.child.ref));
      var child := Resolved(world, inc.child.ref);
      if child.None? then st2.Fail(UnresolvedArgument)
      else if !PrefixOk(inc.prefix) then
        (if inc.schema.None? then st2.Fail(BadPrefix(inc.prefix)).Fail(UnknownSchema)
          else st2.Fail(BadPrefix(inc.prefix)))
      else if inc.schema.None? then st2.Fail(UnknownSchema)
      else
        assert router in AllRouters(world) - active;
        Collect(world, child.value, base + inc.prefix.value, isHidden ||
          !inc.schema.value, active + {router}, via + [Place(router.path, k)], st2)
  }

  function CollectIncludes(world: World, router: Ref, base: string, isHidden: bool, active: set<Ref>, via: seq<Place>,
                           count: nat, st: State): State
    requires IsRouter(world, router) && router !in active && count <= |world[router.path].includes|
    decreases AllRouters(world) - active, 1, count, 1
  {
    if count == 0 then st
    else
      CollectInclude(world, router, base, isHidden, active, via, count - 1,
                     CollectIncludes(world, router, base, isHidden, active, via, count - 1, st))
  }

  /** `_collect_router_routes` */
  function Collect(world: World, ref: Ref, base: string, isHidden: bool, active: set<Ref>, via: seq<Place>,
                   st: State): State
    decreases AllRouters(world) - active, 2, 0, 0
  {
    var (router, errors) := Canonical(world, ref, {});
    var st1 := State(st.records, st.errors + errors);
    if router.None? then st1.Fail(Unresolvable(ref))
    else if router.value in active then st1.Fail(IncludeCycle(router.value))
    else
      ResolvedIsRouter(world, ref);
      var r := router.value;
      var spec := world[r.path].routers[r.name];
      if !PrefixOk(spec.prefix) then
        (if spec.schema.None? then st1.Fail(BadPrefix(spec.prefix)).Fail(UnknownSchema)
          else st1.Fail(BadPrefix(spec.prefix)))
      else if spec.schema.None? then st1.Fail(UnknownSchema)
      else
        var prefix, dark := base + spec.prefix.value, isHidden || !spec.schema.value;
        var st2 := CollectRoutes(world, r, prefix, dark, via, |world[r.path].routes|, st1);
        CollectIncludes(world, r, prefix, dark, active, via, |world[r.path].includes|, st2)
  }

  lemma ResolvedIsRouter(world: World, ref: Ref)
    ensures Canonical(world, ref, {}).0.Some? ==> IsRouter(world, Canonical(world, ref, {}).0.value)
  {
    if Canonical(world, ref, {}).0.Some? {
      var chain := CanonicalSound(world, ref, {});
    }
  }

  // ----- The inventory as a set of include paths -----

  predicate OwnsRoute(world: World, router: Ref, k: nat) {
    IsRouter(world, router) && k < |world[router.path].routes| &&
    Resolved(world, world[router.path].routes[k].receiver) == Some(router)
  }

  /** Include call `i` in the router's module mounts a child on it. */
  predicate OwnsInclude(world: World, router: Ref, i: nat) {
    && IsRouter(world, router) && i < |world[router.path].includes|
    && (var inc := world[router.path].includes[i];
        Resolved(world, inc.receiver) == Some(router) && inc.child.Argument? && Resolved(world, inc.child.ref).Some?)
  }

  function ChildOf(world: World, router: Ref, i: nat): Ref
    requires OwnsInclude(world, router, i)
  {
    Resolved(world, world[router.path].includes[i].child.ref).value
  }

  /** Following the include calls `via`, each in the module of the router reached so far. */
  ghost predicate IncludePath(world: World, router: Ref, via: seq<Place>)
    decreases |via|
  {
    |via| > 0 ==>
      && via[0].path == router.path && OwnsInclude(world, router, via[0].index)
      && IncludePath(world, ChildOf(world, router, via[0].index), via[1..])
  }

  ghost function EndOf(world: World, router: Ref, via: seq<Place>): Ref
    requires IncludePath(world, router, via)
    decreases |via|
  {
    if |via| == 0 then router else EndOf(world, ChildOf(world, router, via[0].index), via[1..])
  }

  function OrEmpty(s: Option<string>): string {
    if s.Some? then s.value else ""
  }

  /** The router's own prefix, then that of each include and of the router it mounts. */
  ghost function PrefixAlong(world: World, router: Ref, via: seq<Place>): string
    requires IsRouter(world, router) && IncludePath(world, router, via)
    decreases |via|
  {
    var own := OrEmpty(world[router.path].routers[router.name].prefix);
    if |via| == 0 then own
    else
      ChildIsRouter(world, router, via[0].index);
      own + OrEmpty(world[router.path].includes[via[0].index].prefix) +
        PrefixAlong(world, ChildOf(world, router, via[0].index), via[1..])
  }

  /** Some `include_in_schema=False` on the way. */
  ghost predicate HiddenAlong(world: World, router: Ref, via: seq<Place>)
    requires IsRouter(world, router) && IncludePath(world, router, via)
    decreases |via|
  {
    || world[router.path].routers[router.name].schema == Some(false)
    || (|via| > 0 &&
        (ChildIsRouter(world, router, via[0].index);
         world[router.path].includes[via[0].index].schema == Some(false)
         || HiddenAlong(world, ChildOf(world, router, via[0].index), via[1..])))
  }

  lemma ChildIsRouter(world: World, router: Ref, i: nat)
    requires OwnsInclude(world, router, i)
    ensures IsRouter(world, ChildOf(world, router, i))
  {
    ResolvedIsRouter(world, world[router.path].includes[i].child.ref.value);
  }

  lemma {:induction false} EndIsRouter(world: World, router: Ref, via: seq<Place>)
    requires IsRouter(world, router) && IncludePath(world, router, via)
    ensures IsRouter(world, EndOf(world, router, via))
    decreases |via|
  {
    if |via| > 0 {
      ChildIsRouter(world, router, via[0].index);
      EndIsRouter(world, ChildOf(world, router, via[0].index), via[1..]);
    }
  }

  /** Route `k` of the router that `via` leads to, as the application serves it. */
  ghost predicate Serves(world: World, router: Ref, base: string, isHidden: bool, start: seq<Place>, via: seq<Place>,
                         k: nat,
                         key: string, record: Record)
  {
    && IsRouter(world, router) && IncludePath(world, router, via)
    && (EndIsRouter(world, router, via);
        var end := EndOf(world, router, via);
        && OwnsRoute(world, end, k)
        && (var route := world[end.path].routes[k];
            && key == Key(route.verb, base + PrefixAlong(world, router, via) + OrEmpty(route.path))
            && record == Record(isHidden || HiddenAlong(world, router, via) ||
              route.schema == Some(false), start + via, Place(end.path, k))))
  }

  // ----- What a silent walk has done -----

  type Served = iset<(string, Record)>

  /** Records were only added, and exactly those in `served`. */
  ghost predicate Adds(st: State, st': State, served: Served) {
    && (forall key :: key in st.records ==> key in st'.records && st'.records[key] == st.records[key])
    && (forall key :: key in st'.records && key !in st.records ==> (key, st'.records[key]) in served)
    && forall e :: e in served ==> e.0 !in st.records && e.0 in st'.records && st'.records[e.0] == e.1
  }

  lemma AddsBoth(st: State, st1: State, st2: State, s1: Served, s2: Served)
    requires Adds(st, st1, s1) && Adds(st1, st2, s2)
    ensures Adds(st, st2, s1 + s2)
  {
  }

  ghost predicate RouteServed(world: World, router: Ref, base: string, isHidden: bool, via: seq<Place>, k: nat,
                              e: (string, Record)) {
    && OwnsRoute(world, router, k)
    && (var route := world[router.path].routes[k];
        && e.0 == Key(route.verb, base + OrEmpty(route.path))
        && e.1 == Record(isHidden || route.schema == Some(false), via, Place(router.path, k)))
  }

  ghost function OneServed(world: World, router: Ref, base: string, isHidden: bool, via: seq<Place>, k: nat): Served {
    iset e: (string, Record) | RouteServed(world, router, base, isHidden, via, k, e)
  }

  /** The router's own first `count` routes, under the full prefix `base`. */
  ghost function RoutesServed(world: World, router: Ref, base: string, isHidden: bool, via: seq<Place>,
                              count: nat): Served {
    iset e: (string, Record) | AmongRoutes(world, router, base, isHidden, via, count, e)
  }

  ghost predicate AmongRoutes(world: World, router: Ref, base: string, isHidden: bool, via: seq<Place>, count: nat,
                              e: (string, Record)) {
    exists k :: 0 <= k < count && RouteServed(world, router, base, isHidden, via, k, e)
  }

  /** Everything that the application serves through the router. */
  ghost function TreeServed(world: World, router: Ref, base: string, isHidden: bool, start: seq<Place>): Served {
    iset e: (string, Record) | exists via, k :: Serves(world, router, base, isHidden, start, via, k, e.0, e.1)
  }

  /** Everything served through include call `i` of the router whose full prefix is `base`. */
  ghost function IncludeServed(world: World, router: Ref, base: string, isHidden: bool, start: seq<Place>,
                               i: nat): Served {
    if OwnsInclude(world, router, i) then
      var inc := world[router.path].includes[i];
      TreeServed(world, ChildOf(world, router, i), base + OrEmpty(inc.prefix), isHidden ||
        inc.schema == Some(false), start + [Place(router.path, i)])
    else iset{}
  }

  ghost function IncludesServed(world: World, router: Ref, base: string, isHidden: bool, start: seq<Place>,
                                count: nat): Served {
    iset e: (string, Record) | AmongIncludes(world, router, base, isHidden, start, count, e)
  }

  ghost predicate AmongIncludes(world: World, router: Ref, base: string, isHidden: bool, start: seq<Place>, count: nat,
                                e: (string, Record)) {
    exists i :: 0 <= i < count && e in IncludeServed(world, router, base, isHidden, start, i)
  }

  lemma ServesHere(world: World, router: Ref, base: string, isHidden: bool, start: seq<Place>, k: nat,
                   e: (string, Record))
    requires IsRouter(world, router)
    ensures var spec := world[router.path].routers[router.name];
      Serves(world, router, base, isHidden, start, [], k, e.0, e.1) <==>
      RouteServed(world, router, base + OrEmpty(spec.prefix), isHidden || spec.schema == Some(false), start, k, e)
  {
    assert start + [] == start;
  }

  /** A longer include path is one include, and then a path from the child. */
  lemma ServesBelow(world: World, router: Ref, base: string, isHidden: bool, start: seq<Place>, via: seq<Place>, k: nat,
                    e: (string, Record))
    requires IsRouter(world, router) && |via| > 0 && via[0].path == router.path &&
      OwnsInclude(world, router, via[0].index)
    ensures var spec, inc := world[router.path].routers[router.name], world[router.path].includes[via[0].index];
      Serves(world, router, base, isHidden, start, via, k, e.0, e.1) <==>
      Serves(world, ChildOf(world, router, via[0].index), base + OrEmpty(spec.prefix) + OrEmpty(inc.prefix),
             isHidden || spec.schema == Some(false) ||
               inc.schema == Some(false), start + [via[0]], via[1..], k, e.0, e.1)
  {
    ChildIsRouter(world, router, via[0].index);
    assert start + via == (start + [via[0]]) + via[1..];
    if IncludePath(world, router, via) {
      EndIsRouter(world, router, via);
      var end, child := EndOf(world, router, via), ChildOf(world, router, via[0].index);
      if OwnsRoute(world, end, k) {
        var own, mount := OrEmpty(world[router.path].routers[router.name].prefix),
          OrEmpty(world[router.path].includes[via[0].index].prefix);
        Reassociate(base, own, mount, PrefixAlong(world, child, via[1..]), OrEmpty(world[end.path].routes[k].path));
      }
    }
  }

  lemma Reassociate(a: string, b: string, c: string, d: string, e: string)
    ensures a + (b + c + d) + e == (a + b + c) + d + e
  {
  }

  lemma TreeSplit(world: World, router: Ref, base: string, isHidden: bool, start: seq<Place>)
    requires IsRouter(world, router)
    ensures var here, spec := world[router.path], world[router.path].routers[router.name];
      var full, dark := base + OrEmpty(spec.prefix), isHidden || spec.schema == Some(false);
      TreeServed(world, router, base, isHidden, start) ==
      RoutesServed(world, router, full, dark, start, |here.routes|) +
      IncludesServed(world, router, full, dark, start, |here.includes|)
  {
    var here, spec := world[router.path], world[router.path].routers[router.name];
    var full, dark := base + OrEmpty(spec.prefix), isHidden || spec.schema == Some(false);
    var own := RoutesServed(world, router, full, dark, start, |here.routes|);
    var below := IncludesServed(world, router, full, dark, start, |here.includes|);
    forall e: (string, Record) ensures e in TreeServed(world, router, base, isHidden, start) <==> e in own + below {
      if e in TreeServed(world, router, base, isHidden, start) {
        var via, k :| Serves(world, router, base, isHidden, start, via, k, e.0, e.1);
        ServedIsSplit(world, router, base, isHidden, start, via, k, e);
      }
      if e in own {
        var k :| 0 <= k < |here.routes| && RouteServed(world, router, full, dark, start, k, e);
        ServesHere(world, router, base, isHidden, start, k, e);
      } else if e in below {
        var i :| 0 <= i < |here.includes| && e in IncludeServed(world, router, full, dark, start, i);
        SplitIsServed(world, router, base, isHidden, start, i, e);
      }
    }
  }

  lemma ServedIsSplit(world: World, router: Ref, base: string, isHidden: bool, start: seq<Place>, via: seq<Place>,
                      k: nat,
                      e: (string, Record))
    requires IsRouter(world, router) && Serves(world, router, base, isHidden, start, via, k, e.0, e.1)
    ensures var here, spec := world[router.path], world[router.path].routers[router.name];
      var full, dark := base + OrEmpty(spec.prefix), isHidden || spec.schema == Some(false);
      || e in RoutesServed(world, router, full, dark, start, |here.routes|)
      || e in IncludesServed(world, router, full, dark, start, |here.includes|)
  {
    if |via| == 0 {
      assert via == [];
      ServesHere(world, router, base, isHidden, start, k, e);
    } else {
      ServesBelow(world, router, base, isHidden, start, via, k, e);
      var spec := world[router.path].routers[router.name];
      assert e in IncludeServed(world, router, base + OrEmpty(spec.prefix), isHidden ||
        spec.schema == Some(false), start, via[0].index);
    }
  }

  lemma SplitIsServed(world: World, router: Ref, base: string, isHidden: bool, start: seq<Place>, i: nat,
                      e: (string, Record))
    requires IsRouter(world, router)
    requires var spec := world[router.path].routers[router.name];
      e in IncludeServed(world, router, base + OrEmpty(spec.prefix), isHidden || spec.schema == Some(false), start, i)
    ensures e in TreeServed(world, router, base, isHidden, start)
  {
    var spec, inc := world[router.path].routers[router.name], world[router.path].includes[i];
    var rest, k :| Serves(world, ChildOf(world, router, i), base + OrEmpty(spec.prefix) + OrEmpty(inc.prefix),
                          isHidden || spec.schema == Some(false) ||
                            inc.schema == Some(false), start + [Place(router.path, i)], rest, k, e.0, e.1);
    var via := [Place(router.path, i)] + rest;
    assert via[1..] == rest;
    ServesBelow(world, router, base, isHidden, start, via, k, e);
  }

  // ----- Errors only accumulate -----

  lemma {:induction false} RoutesErrors(world: World, router: Ref, base: string, isHidden: bool, via: seq<Place>,
                                        count: nat, st: State)
    requires IsRouter(world, router) && count <= |world[router.path].routes|
    ensures st.errors <= CollectRoutes(world, router, base, isHidden, via, count, st).errors
  {
    if count > 0 {
      RoutesErrors(world, router, base, isHidden, via, count - 1, st);
    }
  }

  lemma {:induction false} IncludesErrors(world: World, router: Ref, base: string, isHidden: bool, active: set<Ref>,
                                          via: seq<Place>, count: nat, st: State)
    requires IsRouter(world, router) && router !in active && count <= |world[router.path].includes|
    ensures st.errors <= CollectIncludes(world, router, base, isHidden, active, via, count, st).errors
    decreases AllRouters(world) - active, 1, count, 1
  {
    if count > 0 {
      IncludesErrors(world, router, base, isHidden, active, via, count - 1, st);
      IncludeErrors(world, router, base, isHidden, active, via, count - 1,
                    CollectIncludes(world, router, base, isHidden, active, via, count - 1, st));
    }
  }

  lemma {:induction false} IncludeErrors(world: World, router: Ref, base: string, isHidden: bool, active: set<Ref>,
                                         via: seq<Place>, k: nat, st: State)
    requires IsRouter(world, router) && router !in active && k < |world[router.path].includes|
    ensures st.errors <= CollectInclude(world, router, base, isHidden, active, via, k, st).errors
    decreases AllRouters(world) - active, 1, k, 0
  {
    var inc := world[router.path].includes[k];
    if OwnsInclude(world, router, k) && PrefixOk(inc.prefix) && inc.schema.Some? {
      assert router in AllRouters(world) - active;
      CollectErrors(world, ChildOf(world, router, k), base + inc.prefix.value, isHidden ||
        !inc.schema.value, active + {router}, via + [Place(router.path, k)],
                    State(st.records, st.errors + ResolveErrors(world, inc.receiver) +
                      ResolveErrors(world, inc.child.ref)));
    }
  }

  lemma {:induction false} CollectErrors(world: World, ref: Ref, base: string, isHidden: bool, active: set<Ref>,
                                         via: seq<Place>, st: State)
    ensures st.errors <= Collect(world, ref, base, isHidden, active, via, st).errors
    decreases AllRouters(world) - active, 2, 0, 0
  {
    var (router, errors) := Canonical(world, ref, {});
    if router.Some? && router.value !in active {
      ResolvedIsRouter(world, ref);
      var r := router.value;
      var spec, st1 := world[r.path].routers[r.name], State(st.records, st.errors + errors);
      if PrefixOk(spec.prefix) && spec.schema.Some? {
        var full, dark := base + spec.prefix.value, isHidden || !spec.schema.value;
        RoutesErrors(world, r, full, dark, via, |world[r.path].routes|, st1);
        IncludesErrors(world, r, full, dark, active, via, |world[r.path].includes|,
                       CollectRoutes(world, r, full, dark, via, |world[r.path].routes|, st1));
      }
    }
  }

  // ----- A walk that reports nothing -----

  ghost predicate Avoids(world: World, router: Ref, active: set<Ref>) {
    forall via :: IncludePath(world, router, via) ==> EndOf(world, router, via) !in active
  }

  /** No include path from the router meets the same router twice. */
  ghost predicate Acyclic(world: World, router: Ref) {
    forall via, n: nat :: n < |via| && IncludePath(world, router, via) && IncludePath(world, router, via[..n]) ==>
      EndOf(world, router, via[..n]) != EndOf(world, router, via)
  }

  lemma RouteSilent(world: World, router: Ref, base: string, isHidden: bool, via: seq<Place>, k: nat, st: State)
    requires IsRouter(world, router) && k < |world[router.path].routes|
    requires |CollectRoute(world, router, base, isHidden, via, k, st).errors| <= |st.errors|
    ensures Adds(st, CollectRoute(world, router, base, isHidden, via, k, st),
                 OneServed(world, router, base, isHidden, via, k))
  {
  }

  lemma {:induction false} RoutesSilent(world: World, router: Ref, base: string, isHidden: bool, via: seq<Place>,
                                        count: nat, st: State)
    requires IsRouter(world, router) && count <= |world[router.path].routes|
    requires |CollectRoutes(world, router, base, isHidden, via, count, st).errors| <= |st.errors|
    ensures Adds(st, CollectRoutes(world, router, base, isHidden, via, count, st),
                 RoutesServed(world, router, base, isHidden, via, count))
  {
    if count > 0 {
      var st1 := CollectRoutes(world, router, base, isHidden, via, count - 1, st);
      RoutesErrors(world, router, base, isHidden, via, count - 1, st);
      RoutesSilent(world, router, base, isHidden, via, count - 1, st);
      RouteSilent(world, router, base, isHidden, via, count - 1, st1);
      var last := OneServed(world, router, base, isHidden, via, count - 1);
      AddsBoth(st, st1, CollectRoute(world, router, base, isHidden, via, count - 1, st1),
               RoutesServed(world, router, base, isHidden, via, count - 1), last);
      OneMoreRoute(world, router, base, isHidden, via, count);
    }
  }

  lemma OneMoreRoute(world: World, router: Ref, base: string, isHidden: bool, via: seq<Place>, count: nat)
    requires count > 0
    ensures RoutesServed(world, router, base, isHidden, via, count) ==
            RoutesServed(world, router, base, isHidden, via, count - 1) +
            OneServed(world, router, base, isHidden, via, count - 1)
  {
    forall e: (string, Record)
      ensures AmongRoutes(world, router, base, isHidden, via, count, e) <==>
        AmongRoutes(world, router, base, isHidden, via, count - 1, e) ||
        RouteServed(world, router, base, isHidden, via, count - 1, e)
    {
    }
  }

  ghost predicate SafeBelow(world: World, router: Ref, active: set<Ref>, i: nat) {
    OwnsInclude(world, router, i) ==>
      Avoids(world, ChildOf(world, router, i), active + {router}) && Acyclic(world, ChildOf(world, router, i))
  }

  lemma ReachesBelow(world: World, router: Ref, via: seq<Place>)
    requires |via| > 0 && IncludePath(world, router, via)
    ensures OwnsInclude(world, router, via[0].index) &&
      IncludePath(world, ChildOf(world, router, via[0].index), via[1..])
    ensures EndOf(world, router, via) == EndOf(world, ChildOf(world, router, via[0].index), via[1..])
  {
  }

  /** What holds of every child that is mounted, with the router itself now active, holds of the router. */
  lemma AcyclicUp(world: World, router: Ref, active: set<Ref>)
    requires router !in active
    requires forall i: nat :: OwnsInclude(world, router, i) ==> SafeBelow(world, router, active, i)
    ensures Avoids(world, router, active) && Acyclic(world, router)
  {
    forall via | IncludePath(world, router, via) ensures EndOf(world, router, via) !in active {
      if |via| > 0 {
        ReachesBelow(world, router, via);
      }
    }
    forall via, n: nat | n < |via| && IncludePath(world, router, via) && IncludePath(world, router, via[..n])
      ensures EndOf(world, router, via[..n]) != EndOf(world, router, via)
    {
      ReachesBelow(world, router, via);
      if n > 0 {
        ReachesBelow(world, router, via[..n]);
        assert via[..n][1..] == via[1..][..n - 1];
      }
    }
  }

  lemma {:induction false} CollectSilent(world: World, ref: Ref, base: string, isHidden: bool, active: set<Ref>,
                                         via: seq<Place>, st: State)
    requires |Collect(world, ref, base, isHidden, active, via, st).errors| <= |st.errors|
    ensures var router := Canonical(world, ref, {}).0;
      && router.Some?
      && Adds(st, Collect(world, ref, base, isHidden, active, via, st),
        TreeServed(world, router.value, base, isHidden, via))
      && Avoids(world, router.value, active) && Acyclic(world, router.value)
    decreases AllRouters(world) - active, 2, 0, 0
  {
    ResolvedIsRouter(world, ref);
    var (router, errors) := Canonical(world, ref, {});
    var r := router.value;
    var here, spec, st1 := world[r.path], world[r.path].routers[r.name], State(st.records, st.errors + errors);
    var full, dark := base + spec.prefix.value, isHidden || !spec.schema.value;
    var st2 := CollectRoutes(world, r, full, dark, via, |here.routes|, st1);
    RoutesErrors(world, r, full, dark, via, |here.routes|, st1);
    IncludesErrors(world, r, full, dark, active, via, |here.includes|, st2);
    RoutesSilent(world, r, full, dark, via, |here.routes|, st1);
    IncludesSilent(world, r, full, dark, active, via, |here.includes|, st2);
    AddsBoth(st1, st2, CollectIncludes(world, r, full, dark, active, via, |here.includes|, st2),
             RoutesServed(world, r, full, dark, via, |here.routes|),
               IncludesServed(world, r, full, dark, via, |here.includes|));
    TreeSplit(world, r, base, isHidden, via);
    AcyclicUp(world, r, active);
  }

  lemma OneMoreInclude(world: World, router: Ref, base: string, isHidden: bool, via: seq<Place>, count: nat)
    requires count > 0
    ensures IncludesServed(world, router, base, isHidden, via, count) ==
      IncludesServed(world, router, base, isHidden, via, count - 1) +
        IncludeServed(world, router, base, isHidden, via, count - 1)
  {
    var before, last := IncludesServed(world, router, base, isHidden, via, count - 1),
      IncludeServed(world, router, base, isHidden, via, count - 1);
    forall e: (string, Record)
      ensures e in IncludesServed(world, router, base, isHidden, via, count) <==> e in before + last {
    }
  }

  lemma {:induction false} IncludesSilent(world: World, router: Ref, base: string, isHidden: bool, active: set<Ref>,
                                          via: seq<Place>, count: nat, st: State)
    requires IsRouter(world, router) && router !in active && count <= |world[router.path].includes|
    requires |CollectIncludes(world, router, base, isHidden, active, via, count, st).errors| <= |st.errors|
    ensures Adds(st, CollectIncludes(world, router, base, isHidden, active, via, count, st),
                 IncludesServed(world, router, base, isHidden, via, count))
    ensures forall i: nat :: i < count ==> SafeBelow(world, router, active, i)
    decreases AllRouters(world) - active, 1, count, 1
  {
    if count > 0 {
      var st1 := CollectIncludes(world, router, base, isHidden, active, via, count - 1, st);
      IncludesErrors(world, router, base, isHidden, active, via, count - 1, st);
      IncludeErrors(world, router, base, isHidden, active, via, count - 1, st1);
      IncludesSilent(world, router, base, isHidden, active, via, count - 1, st);
      IncludeSilent(world, router, base, isHidden, active, via, count - 1, st1);
      var before, last := IncludesServed(world, router, base, isHidden, via, count - 1),
        IncludeServed(world, router, base, isHidden, via, count - 1);
      AddsBoth(st, st1, CollectInclude(world, router, base, isHidden, active, via, count - 1, st1), before, last);
      OneMoreInclude(world, router, base, isHidden, via, count);
    }
  }

  lemma {:induction false} IncludeSilent(world: World, router: Ref, base: string, isHidden: bool, active: set<Ref>,
                                         via: seq<Place>, k: nat, st: State)
    requires IsRouter(world, router) && router !in active && k < |world[router.path].includes|
    requires |CollectInclude(world, router, base, isHidden, active, via, k, st).errors| <= |st.errors|
    ensures Adds(st, CollectInclude(world, router, base, isHidden, active, via, k, st),
                 IncludeServed(world, router, base, isHidden, via, k))
    ensures SafeBelow(world, router, active, k)
    decreases AllRouters(world) - active, 1, k, 0
  {
    var inc := world[router.path].includes[k];
    if OwnsInclude(world, router, k) {
      assert router in AllRouters(world) - active;
      var child := ChildOf(world, router, k);
      ChildIsRouter(world, router, k);
      CollectErrors(world, child, base + inc.prefix.value, isHidden ||
        !inc.schema.value, active + {router}, via + [Place(router.path, k)],
                    State(st.records, st.errors + ResolveErrors(world, inc.receiver) +
                      ResolveErrors(world, inc.child.ref)));
      CollectSilent(world, child, base + inc.prefix.value, isHidden ||
        !inc.schema.value, active + {router}, via + [Place(router.path, k)],
                    State(st.records, st.errors + ResolveErrors(world, inc.receiver) +
                      ResolveErrors(world, inc.child.ref)));
    }
  }
}
