/** When the router inventory reports nothing: exactly on applications whose include paths are well formed, whose
    include graph is acyclic below every mount, and whose routes all have different keys. */
module RouterSilence {
  import opened Text
  import opened RouterInventory
  import opened RouterWalker

  // ----- Well-formed modules -----

  /** Route `k` of the router's module draws no complaint, the full prefix of the router being `full`. */
  predicate RouteClean(world: World, router: Ref, full: string, k: nat)
    requires IsRouter(world, router) && k < |world[router.path].routes|
  {
    var route := world[router.path].routes[k];
    && ResolveErrors(world, route.receiver) == []
    && (OwnsRoute(world, router, k) ==>
          route.verb in ROUTE_METHODS && route.path.Some? && route.schema.Some? && PathOk(full + route.path.value))
  }

  predicate IncludeClean(world: World, router: Ref, i: nat)
    requires IsRouter(world, router) && i < |world[router.path].includes|
  {
    var inc := world[router.path].includes[i];
    && ResolveErrors(world, inc.receiver) == []
    && (Resolved(world, inc.receiver) == Some(router) ==> MountClean(world, inc))
  }

  /** What every include call must have, whatever it is called on. */
  predicate MountClean(world: World, inc: Include) {
    && inc.child.Argument? && ResolveErrors(world, inc.child.ref) == [] && Resolved(world, inc.child.ref).Some?
    && PrefixOk(inc.prefix) && inc.schema.Some?
  }

  ghost predicate RoutesClean(world: World, router: Ref, full: string, count: nat)
    requires IsRouter(world, router) && count <= |world[router.path].routes|
  {
    forall k :: 0 <= k < count ==> RouteClean(world, router, full, k)
  }

  ghost predicate IncludesClean(world: World, router: Ref, count: nat)
    requires IsRouter(world, router) && count <= |world[router.path].includes|
  {
    forall i :: 0 <= i < count ==> IncludeClean(world, router, i)
  }

  ghost predicate RouterClean(world: World, router: Ref, full: string)
    requires IsRouter(world, router)
  {
    var here, spec := world[router.path], world[router.path].routers[router.name];
    && PrefixOk(spec.prefix) && spec.schema.Some?
    && RoutesClean(world, router, full, |here.routes|) && IncludesClean(world, router, |here.includes|)
  }

  /** Every router that an include path leads to is clean under the prefix that the path gives it. */
  ghost predicate TreeClean(world: World, router: Ref, base: string)
    requires IsRouter(world, router)
  {
    forall via :: IncludePath(world, router, via) ==> EndClean(world, router, base, via)
  }

  ghost predicate EndClean(world: World, router: Ref, base: string, via: seq<Place>)
    requires IsRouter(world, router) && IncludePath(world, router, via)
  {
    EndIsRouter(world, router, via);
    RouterClean(world, EndOf(world, router, via), base + PrefixAlong(world, router, via))
  }

  lemma TreeCleanHere(world: World, router: Ref, base: string)
    requires IsRouter(world, router) && TreeClean(world, router, base)
    ensures RouterClean(world, router, base + OrEmpty(world[router.path].routers[router.name].prefix))
  {
    assert IncludePath(world, router, []);
    assert EndClean(world, router, base, []);
  }

  function MountPrefix(world: World, router: Ref, i: nat): string
    requires OwnsInclude(world, router, i)
  {
    OrEmpty(world[router.path].routers[router.name].prefix) + OrEmpty(world[router.path].includes[i].prefix)
  }

  lemma TreeCleanBelow(world: World, router: Ref, base: string, i: nat)
    requires TreeIsClean(world, router, base) && OwnsInclude(world, router, i)
    ensures TreeIsClean(world, ChildOf(world, router, i), base + MountPrefix(world, router, i))
  {
    ChildIsRouter(world, router, i);
    var child := ChildOf(world, router, i);
    forall via | IncludePath(world, child, via)
      ensures EndClean(world, child, base + MountPrefix(world, router, i), via) {
      var longer := [Place(router.path, i)] + via;
      assert longer[1..] == via && IncludePath(world, router, longer);
      assert EndClean(world, router, base, longer);
      SplitPrefix(world, router, base, longer);
    }
  }

  ghost predicate TreeIsClean(world: World, router: Ref, base: string) {
    IsRouter(world, router) && TreeClean(world, router, base)
  }

  lemma SplitPrefix(world: World, router: Ref, base: string, via: seq<Place>)
    requires IsRouter(world, router) && IncludePath(world, router, via) && |via| > 0
    ensures OwnsInclude(world, router, via[0].index) && IsRouter(world, ChildOf(world, router, via[0].index))
    ensures base + PrefixAlong(world, router, via) ==
      base + MountPrefix(world, router, via[0].index) + PrefixAlong(world, ChildOf(world, router, via[0].index),
        via[1..])
  {
    ChildIsRouter(world, router, via[0].index);
  }

  lemma TreeCleanUp(world: World, router: Ref, base: string)
    requires IsRouter(world, router)
    requires RouterClean(world, router, base + OrEmpty(world[router.path].routers[router.name].prefix))
    requires forall i: nat :: OwnsInclude(world, router, i) ==>
      TreeIsClean(world, ChildOf(world, router, i), base + MountPrefix(world, router, i))
    ensures TreeClean(world, router, base)
  {
    forall via: seq<Place> | IncludePath(world, router, via) ensures EndClean(world, router, base, via) {
      if |via| > 0 {
        SplitPrefix(world, router, base, via);
        var child := ChildOf(world, router, via[0].index);
        assert IncludePath(world, child, via[1..]);
        assert EndClean(world, child, base + MountPrefix(world, router, via[0].index), via[1..]);
      } else {
        assert via == [];
      }
    }
  }

  // ----- A silent walk met nothing to complain about -----

  lemma {:induction false} SilentRoutes(world: World, router: Ref, full: string, dark: bool, via: seq<Place>,
                                        count: nat,
                                        st: State)
    requires IsRouter(world, router) && count <= |world[router.path].routes|
    requires |CollectRoutes(world, router, full, dark, via, count, st).errors| <= |st.errors|
    ensures RoutesClean(world, router, full, count)
  {
    if count > 0 {
      RoutesErrors(world, router, full, dark, via, count - 1, st);
      SilentRoutes(world, router, full, dark, via, count - 1, st);
    }
  }

  /** The child of a clean include is clean under its prefix. */
  ghost predicate ChildClean(world: World, router: Ref, full: string, i: nat)
    requires IsRouter(world, router) && i < |world[router.path].includes|
  {
    && IncludeClean(world, router, i)
    && (OwnsInclude(world, router, i) ==>
          TreeIsClean(world, ChildOf(world, router, i), full + OrEmpty(world[router.path].includes[i].prefix)))
  }

  lemma {:induction false} SilentCollect(world: World, ref: Ref, base: string, dark: bool, active: set<Ref>,
                                         via: seq<Place>, st: State)
    requires |Collect(world, ref, base, dark, active, via, st).errors| <= |st.errors|
    ensures Canonical(world, ref, {}).0.Some? && Canonical(world, ref, {}).1 == []
    ensures TreeIsClean(world, Canonical(world, ref, {}).0.value, base)
    decreases AllRouters(world) - active, 2, 0, 0
  {
    ResolvedIsRouter(world, ref);
    CollectErrors(world, ref, base, dark, active, via, st);
    var (router, errors) := Canonical(world, ref, {});
    var r := router.value;
    var here, spec, st1 := world[r.path], world[r.path].routers[r.name], State(st.records, st.errors + errors);
    var full, shade := base + spec.prefix.value, dark || !spec.schema.value;
    var st2 := CollectRoutes(world, r, full, shade, via, |here.routes|, st1);
    RoutesErrors(world, r, full, shade, via, |here.routes|, st1);
    IncludesErrors(world, r, full, shade, active, via, |here.includes|, st2);
    SilentRoutes(world, r, full, shade, via, |here.routes|, st1);
    SilentIncludes(world, r, full, shade, active, via, |here.includes|, st2);
    CleanFromChildren(world, r, base);
  }

  lemma CleanFromChildren(world: World, router: Ref, base: string)
    requires IsRouter(world, router)
    requires var here, spec := world[router.path], world[router.path].routers[router.name];
      && PrefixOk(spec.prefix) && spec.schema.Some? &&
        RoutesClean(world, router, base + spec.prefix.value, |here.routes|)
      && forall i :: 0 <= i < |here.includes| ==> ChildClean(world, router, base + spec.prefix.value, i)
    ensures TreeIsClean(world, router, base)
  {
    var spec := world[router.path].routers[router.name];
    forall i: nat | OwnsInclude(world, router, i)
      ensures TreeIsClean(world, ChildOf(world, router, i), base + MountPrefix(world, router, i))
    {
      assert ChildClean(world, router, base + spec.prefix.value, i);
      var mount := OrEmpty(world[router.path].includes[i].prefix);
      assert base + spec.prefix.value + mount == base + (spec.prefix.value + mount);
    }
    forall i | 0 <= i < |world[router.path].includes| ensures IncludeClean(world, router, i) {
      assert ChildClean(world, router, base + spec.prefix.value, i);
    }
    TreeCleanUp(world, router, base);
  }

  lemma {:induction false} SilentIncludes(world: World, router: Ref, full: string, dark: bool, active: set<Ref>,
                                          via: seq<Place>,
                                          count: nat, st: State)
    requires IsRouter(world, router) && router !in active && count <= |world[router.path].includes|
    requires |CollectIncludes(world, router, full, dark, active, via, count, st).errors| <= |st.errors|
    ensures forall i :: 0 <= i < count ==> ChildClean(world, router, full, i)
    decreases AllRouters(world) - active, 1, count, 1
  {
    if count > 0 {
      var st1 := CollectIncludes(world, router, full, dark, active, via, count - 1, st);
      IncludesErrors(world, router, full, dark, active, via, count - 1, st);
      IncludeErrors(world, router, full, dark, active, via, count - 1, st1);
      SilentIncludes(world, router, full, dark, active, via, count - 1, st);
      SilentInclude(world, router, full, dark, active, via, count - 1, st1);
    }
  }

  lemma {:induction false} SilentInclude(world: World, router: Ref, full: string, dark: bool, active: set<Ref>,
                                         via: seq<Place>, k: nat,
                                         st: State)
    requires IsRouter(world, router) && router !in active && k < |world[router.path].includes|
    requires |CollectInclude(world, router, full, dark, active, via, k, st).errors| <= |st.errors|
    ensures ChildClean(world, router, full, k)
    decreases AllRouters(world) - active, 1, k, 0
  {
    var inc := world[router.path].includes[k];
    if OwnsInclude(world, router, k) && PrefixOk(inc.prefix) && inc.schema.Some? {
      assert router in AllRouters(world) - active;
      var child := ChildOf(world, router, k);
      ChildIsRouter(world, router, k);
      var st1 := State(st.records,
        st.errors + ResolveErrors(world, inc.receiver) + ResolveErrors(world, inc.child.ref));
      CollectErrors(world, child, full + inc.prefix.value, dark ||
        !inc.schema.value, active + {router}, via + [Place(router.path, k)], st1);
      SilentCollect(world, child, full + inc.prefix.value, dark ||
        !inc.schema.value, active + {router}, via + [Place(router.path, k)], st1);
    }
  }

  // ----- A clean tree is walked in silence -----

  /** The records are those of one table. */
  ghost predicate Fits(served: Served, table: imap<string, Record>) {
    forall e :: e in served ==> e.0 in table && table[e.0] == e.1
  }

  /** One record for each key. */
  ghost predicate Unique(served: Served) {
    exists table :: Fits(served, table)
  }

  ghost predicate Free(st: State, served: Served) {
    forall e :: e in served ==> e.0 !in st.records
  }

  /** What was added under other records leaves room for the rest. */
  lemma StillFree(table: imap<string, Record>, st: State, st': State, added: Served, rest: Served, all: Served)
    requires Adds(st, st', added) && Free(st, all) && Fits(all, table) && added <= all && rest <= all && added !! rest
    ensures Free(st', rest)
  {
  }

  /** The same, for two parts of one whole. */
  lemma Room(table: imap<string, Record>, st: State, st': State, all: Served, before: Served, one: Served)
    requires all == before + one && before !! one && Adds(st, st', before) && Free(st, all) && Fits(all, table)
    ensures Free(st', one) && Fits(one, table)
  {
    assert before <= all && one <= all;
    StillFree(table, st, st', before, one, all);
  }

  lemma FreeParts(table: imap<string, Record>, st: State, all: Served, a: Served, b: Served)
    requires all == a + b && Free(st, all) && Fits(all, table)
    ensures a <= all && b <= all && Free(st, a) && Fits(a, table) && Fits(b, table)
  {
  }

  lemma {:induction false} QuietRoutes(table: imap<string, Record>, world: World, router: Ref, full: string,
                                       dark: bool, via: seq<Place>, count: nat, st: State)
    requires IsRouter(world, router) && count <= |world[router.path].routes| && RoutesClean(world, router, full, count)
    requires var all := RoutesServed(world, router, full, dark, via, count); Free(st, all) && Fits(all, table)
    ensures CollectRoutes(world, router, full, dark, via, count, st).errors == st.errors
  {
    if count > 0 {
      var before, all := RoutesServed(world, router, full, dark, via, count - 1),
        RoutesServed(world, router, full, dark, via, count);
      var one := OneServed(world, router, full, dark, via, count - 1);
      assert before <= all && one <= all;
      QuietRoutes(table, world, router, full, dark, via, count - 1, st);
      RoutesSilent(world, router, full, dark, via, count - 1, st);
      var st1 := CollectRoutes(world, router, full, dark, via, count - 1, st);
      StillFree(table, st, st1, before, one, all);
      QuietRoute(world, router, full, dark, via, count - 1, st1);
    }
  }

  lemma QuietRoute(world: World, router: Ref, full: string, dark: bool, via: seq<Place>, k: nat, st: State)
    requires IsRouter(world, router) && k < |world[router.path].routes| && RouteClean(world, router, full, k)
    requires Free(st, OneServed(world, router, full, dark, via, k))
    ensures CollectRoute(world, router, full, dark, via, k, st).errors == st.errors
  {
    var route := world[router.path].routes[k];
    if OwnsRoute(world, router, k) {
      var e := (Key(route.verb, full + route.path.value),
        Record(dark || !route.schema.value, via, Place(router.path, k)));
      assert RouteServed(world, router, full, dark, via, k, e);
      assert e in OneServed(world, router, full, dark, via, k);
    }
  }

  /** What is served through include `i` bears its number. */
  lemma IncludeVia(world: World, router: Ref, full: string, dark: bool, start: seq<Place>, i: nat, e: (string, Record))
    requires e in IncludeServed(world, router, full, dark, start, i)
    ensures |e.1.via| > |start| && e.1.via[|start|] == Place(router.path, i)
  {
    var inc := world[router.path].includes[i];
    var rest, k :| Serves(world, ChildOf(world, router, i), full + OrEmpty(inc.prefix), dark ||
      inc.schema == Some(false),
                          start + [Place(router.path, i)], rest, k, e.0, e.1);
    assert e.1.via == start + [Place(router.path, i)] + rest;
  }

  /** The child of an acyclic router avoids the router too. */
  lemma AcyclicDown(world: World, router: Ref, active: set<Ref>, i: nat)
    requires Avoids(world, router, active) && Acyclic(world, router) && OwnsInclude(world, router, i)
    ensures Avoids(world, ChildOf(world, router, i), active + {router}) && Acyclic(world, ChildOf(world, router, i))
  {
    var child := ChildOf(world, router, i);
    forall via | IncludePath(world, child, via) ensures EndOf(world, child, via) !in active + {router} {
      var longer := [Place(router.path, i)] + via;
      assert longer[1..] == via && IncludePath(world, router, longer);
      assert longer[..0] == [] && IncludePath(world, router, longer[..0]);
      assert EndOf(world, router, longer[..0]) != EndOf(world, router, longer);
    }
    forall via, n: nat | n < |via| && IncludePath(world, child, via) && IncludePath(world, child, via[..n])
      ensures EndOf(world, child, via[..n]) != EndOf(world, child, via)
    {
      var longer := [Place(router.path, i)] + via;
      assert longer[1..] == via && IncludePath(world, router, longer);
      assert longer[..n + 1][1..] == via[..n] && longer[..n + 1][0] == Place(router.path, i) &&
        IncludePath(world, router, longer[..n + 1]);
      assert EndOf(world, router, longer[..n + 1]) != EndOf(world, router, longer);
    }
  }

  lemma {:induction false} QuietCollect(table: imap<string, Record>, world: World, router: Ref, base: string,
                                        dark: bool, active: set<Ref>, via: seq<Place>, st: State)
    requires TreeIsClean(world, router, base) && Avoids(world, router, active) && Acyclic(world, router)
    requires var all := TreeServed(world, router, base, dark, via); Free(st, all) && Fits(all, table)
    ensures Collect(world, router, base, dark, active, via, st).errors == st.errors
    decreases AllRouters(world) - active, 2, 0, 0
  {
    TreeCleanHere(world, router, base);
    assert IncludePath(world, router, []) && EndOf(world, router, []) == router;
    var here, spec := world[router.path], world[router.path].routers[router.name];
    var full, shade := base + spec.prefix.value, dark || !spec.schema.value;
    TreeSplit(world, router, base, dark, via);
    var all := TreeServed(world, router, base, dark, via);
    var own, rest := RoutesServed(world, router, full, shade, via, |here.routes|),
      IncludesServed(world, router, full, shade, via, |here.includes|);
    assert all == own + rest;
    assert st == State(st.records, st.errors + []);
    QuietRoutes(table, world, router, full, shade, via, |here.routes|, st);
    RoutesSilent(world, router, full, shade, via, |here.routes|, st);
    var st2 := CollectRoutes(world, router, full, shade, via, |here.routes|, st);
    OwnApart(world, router, full, shade, via, |here.routes|, |here.includes|);
    StillFree(table, st, st2, own, rest, all);
    QuietIncludes(table, world, router, base, full, shade, active, via, |here.includes|, st2);
  }

  /** A router's own routes and those below it have different records. */
  lemma OwnApart(world: World, router: Ref, full: string, dark: bool, via: seq<Place>, routes: nat, includes: nat)
    ensures RoutesServed(world, router, full, dark, via, routes) !!
      IncludesServed(world, router, full, dark, via, includes)
  {
    forall e: (string, Record) | e in IncludesServed(world, router, full, dark, via, includes)
      ensures e !in RoutesServed(world, router, full, dark, via, routes)
    {
      var i :| 0 <= i < includes && e in IncludeServed(world, router, full, dark, via, i);
      IncludeVia(world, router, full, dark, via, i, e);
    }
  }

  lemma IncludeApart(world: World, router: Ref, full: string, dark: bool, via: seq<Place>, count: nat)
    ensures IncludesServed(world, router, full, dark, via, count) !!
      IncludeServed(world, router, full, dark, via, count)
  {
    forall e: (string, Record) | e in IncludesServed(world, router, full, dark, via, count)
      ensures e !in IncludeServed(world, router, full, dark, via, count)
    {
      var i :| 0 <= i < count && e in IncludeServed(world, router, full, dark, via, i);
      IncludeVia(world, router, full, dark, via, i, e);
      if e in IncludeServed(world, router, full, dark, via, count) {
        IncludeVia(world, router, full, dark, via, count, e);
      }
    }
  }

  lemma {:induction false} QuietIncludes(table: imap<string, Record>, world: World, router: Ref, base: string,
                                         full: string, dark: bool, active: set<Ref>,
                                         via: seq<Place>, count: nat, st: State)
    requires TreeIsClean(world, router, base) && full == base + OrEmpty(world[router.path].routers[router.name].prefix)
    requires Avoids(world, router, active) && Acyclic(world, router) && router !in active
    requires count <= |world[router.path].includes|
    requires var all := IncludesServed(world, router, full, dark, via, count); Free(st, all) && Fits(all, table)
    ensures CollectIncludes(world, router, full, dark, active, via, count, st).errors == st.errors
    decreases AllRouters(world) - active, 1, count, 1
  {
    if count > 0 {
      FewerIncludes(table, world, router, full, dark, via, count, st);
      QuietIncludes(table, world, router, base, full, dark, active, via, count - 1, st);
      LastInclude(table, world, router, full, dark, active, via, count, st);
      QuietInclude(table, world, router, base, full, dark, active, via, count - 1,
                   CollectIncludes(world, router, full, dark, active, via, count - 1, st));
    }
  }

  lemma FewerIncludes(table: imap<string, Record>, world: World, router: Ref, full: string, dark: bool, via: seq<Place>,
                      count: nat, st: State)
    requires count > 0
    requires var all := IncludesServed(world, router, full, dark, via, count); Free(st, all) && Fits(all, table)
    ensures var before := IncludesServed(world, router, full, dark, via, count - 1);
      Free(st, before) && Fits(before, table)
  {
    OneMoreInclude(world, router, full, dark, via, count);
    FreeParts(table, st, IncludesServed(world, router, full, dark, via, count),
      IncludesServed(world, router, full, dark, via, count - 1),
              IncludeServed(world, router, full, dark, via, count - 1));
  }

  lemma IncludesAdd(world: World, router: Ref, full: string, dark: bool, active: set<Ref>, via: seq<Place>, count: nat,
                    st: State)
    requires IsRouter(world, router) && router !in active && count <= |world[router.path].includes|
    requires CollectIncludes(world, router, full, dark, active, via, count, st).errors == st.errors
    ensures Adds(st, CollectIncludes(world, router, full, dark, active, via, count, st),
      IncludesServed(world, router, full, dark, via, count))
  {
    IncludesSilent(world, router, full, dark, active, via, count, st);
  }

  lemma LastInclude(table: imap<string, Record>, world: World, router: Ref, full: string, dark: bool, active: set<Ref>,
                    via: seq<Place>, count: nat, st: State)
    requires IsRouter(world, router) && router !in active && 0 < count <= |world[router.path].includes|
    requires var all := IncludesServed(world, router, full, dark, via, count); Free(st, all) && Fits(all, table)
    requires CollectIncludes(world, router, full, dark, active, via, count - 1, st).errors == st.errors
    ensures var one := IncludeServed(world, router, full, dark, via, count - 1);
      Free(CollectIncludes(world, router, full, dark, active, via, count - 1, st), one) && Fits(one, table)
  {
    IncludeParts(world, router, full, dark, active, via, count, st);
    Room(table, st, CollectIncludes(world, router, full, dark, active, via, count - 1, st),
         IncludesServed(world, router, full, dark, via, count),
           IncludesServed(world, router, full, dark, via, count - 1),
         IncludeServed(world, router, full, dark, via, count - 1));
  }

  lemma IncludeParts(world: World, router: Ref, full: string, dark: bool, active: set<Ref>, via: seq<Place>, count: nat,
                     st: State)
    requires IsRouter(world, router) && router !in active && 0 < count <= |world[router.path].includes|
    requires CollectIncludes(world, router, full, dark, active, via, count - 1, st).errors == st.errors
    ensures var before, one := IncludesServed(world, router, full, dark, via, count - 1),
      IncludeServed(world, router, full, dark, via, count - 1);
      && IncludesServed(world, router, full, dark, via, count) == before + one && before !! one
      && Adds(st, CollectIncludes(world, router, full, dark, active, via, count - 1, st), before)
  {
    OneMoreInclude(world, router, full, dark, via, count);
    IncludeApart(world, router, full, dark, via, count - 1);
    IncludesAdd(world, router, full, dark, active, via, count - 1, st);
  }

  lemma {:induction false} QuietInclude(table: imap<string, Record>, world: World, router: Ref, base: string,
                                        full: string, dark: bool, active: set<Ref>,
                                        via: seq<Place>, k: nat, st: State)
    requires TreeIsClean(world, router, base) && full == base + OrEmpty(world[router.path].routers[router.name].prefix)
    requires Avoids(world, router, active) && Acyclic(world, router) && router !in active
    requires k < |world[router.path].includes|
    requires var all := IncludeServed(world, router, full, dark, via, k); Free(st, all) && Fits(all, table)
    ensures CollectInclude(world, router, full, dark, active, via, k, st).errors == st.errors
    decreases AllRouters(world) - active, 1, k, 0
  {
    TreeCleanHere(world, router, base);
    assert IncludeClean(world, router, k);
    var inc := world[router.path].includes[k];
    if OwnsInclude(world, router, k) {
      assert router in AllRouters(world) - active;
      var child, mount := ChildOf(world, router, k), inc.prefix.value;
      TreeCleanBelow(world, router, base, k);
      assert base + MountPrefix(world, router, k) == full + mount;
      AcyclicDown(world, router, active, k);
      QuietCollect(table, world, child, full + mount, dark ||
        !inc.schema.value, active + {router}, via + [Place(router.path, k)], st);
      assert st == State(st.records, st.errors + [] + []);
    }
  }

  // ----- Whole applications -----

  ghost predicate MountIsClean(world: World, entry: string, i: nat)
    requires entry in world && i < |world[entry].includes|
  {
    var inc := world[entry].includes[i];
    inc.onApp ==>
      && MountClean(world, inc)
      && TreeIsClean(world, Resolved(world, inc.child.ref).value, inc.prefix.value)
      && Acyclic(world, Resolved(world, inc.child.ref).value)
  }

  /** Everything that the application serves. */
  ghost function AllServed(world: World, entry: string, direct: seq<DirectRoute>): Served
    requires entry in world
  {
    DirectServed(entry, direct, |direct|) + MountsServed(world, entry, |world[entry].includes|)
  }

  ghost predicate AppClean(world: World, entry: string, direct: seq<DirectRoute>) {
    && entry in world
    && (forall i :: 0 <= i < |world[entry].includes| ==> MountIsClean(world, entry, i))
    && Unique(AllServed(world, entry, direct))
  }

  lemma {:induction false} QuietDirect(table: imap<string, Record>, entry: string, direct: seq<DirectRoute>, count: nat)
    requires count <= |direct| && Fits(DirectServed(entry, direct, count), table)
    ensures CollectDirect(entry, direct, count).errors == []
  {
    if count > 0 {
      var k := count - 1;
      var before, all := DirectServed(entry, direct, k), DirectServed(entry, direct, count);
      forall e | e in before ensures e in all {
        var j :| 0 <= j < k && DirectServes(entry, direct, j, e);
        assert AmongDirect(entry, direct, count, e);
      }
      QuietDirect(table, entry, direct, k);
      DirectSilent(entry, direct, k);
      if Declares(direct, k) {
        var e := (Key(direct[k].verb, direct[k].path.value), Record(direct[k].isHidden, [], Place(entry, k)));
        assert DirectServes(entry, direct, k, e);
        assert e in all;
        assert e !in before;
      }
    }
  }

  lemma MountVia(world: World, entry: string, i: nat, e: (string, Record))
    requires e in MountServed(world, entry, i)
    ensures |e.1.via| > 0 && e.1.via[0] == Place(entry, i)
  {
    var inc := world[entry].includes[i];
    var via, k :| Serves(world, Mounted(world, entry, i), OrEmpty(inc.prefix), inc.schema == Some(false),
      [Place(entry, i)], via, k,
      e.0, e.1);
    assert e.1.via == [Place(entry, i)] + via;
  }

  lemma MountApart(world: World, entry: string, count: nat)
    ensures MountsServed(world, entry, count) !! MountServed(world, entry, count)
  {
    forall e: (string, Record) | e in MountsServed(world, entry, count) ensures e !in MountServed(world, entry, count) {
      var i :| 0 <= i < count && e in MountServed(world, entry, i);
      MountVia(world, entry, i, e);
      if e in MountServed(world, entry, count) {
        MountVia(world, entry, count, e);
      }
    }
  }

  lemma DirectApart(world: World, entry: string, direct: seq<DirectRoute>, n: nat, count: nat)
    ensures DirectServed(entry, direct, n) !! MountsServed(world, entry, count)
  {
    forall e: (string, Record) | e in MountsServed(world, entry, count) ensures e !in DirectServed(entry, direct, n) {
      var i :| 0 <= i < count && e in MountServed(world, entry, i);
      MountVia(world, entry, i, e);
    }
  }

  lemma {:induction false} QuietMounts(table: imap<string, Record>, world: World, entry: string, count: nat, st: State)
    requires entry in world && count <= |world[entry].includes|
    requires forall i :: 0 <= i < count ==> MountIsClean(world, entry, i)
    requires var all := MountsServed(world, entry, count); Free(st, all) && Fits(all, table)
    ensures CollectMounts(world, entry, count, st).errors == st.errors
  {
    if count > 0 {
      FewerMounts(table, world, entry, count, st);
      QuietMounts(table, world, entry, count - 1, st);
      LastMount(table, world, entry, count, st);
      QuietMount(table, world, entry, count - 1, CollectMounts(world, entry, count - 1, st));
    }
  }

  lemma FewerMounts(table: imap<string, Record>, world: World, entry: string, count: nat, st: State)
    requires count > 0
    requires var all := MountsServed(world, entry, count); Free(st, all) && Fits(all, table)
    ensures var before := MountsServed(world, entry, count - 1); Free(st, before) && Fits(before, table)
  {
    OneMoreMount(world, entry, count);
    FreeParts(table, st, MountsServed(world, entry, count), MountsServed(world, entry, count - 1),
      MountServed(world, entry, count - 1));
  }

  lemma MountsAdd(world: World, entry: string, count: nat, st: State)
    requires entry in world && count <= |world[entry].includes| &&
      CollectMounts(world, entry, count, st).errors == st.errors
    ensures Adds(st, CollectMounts(world, entry, count, st), MountsServed(world, entry, count))
  {
    MountsSilent(world, entry, count, st);
  }

  lemma LastMount(table: imap<string, Record>, world: World, entry: string, count: nat, st: State)
    requires entry in world && 0 < count <= |world[entry].includes|
    requires var all := MountsServed(world, entry, count); Free(st, all) && Fits(all, table)
    requires CollectMounts(world, entry, count - 1, st).errors == st.errors
    ensures var one := MountServed(world, entry, count - 1);
      Free(CollectMounts(world, entry, count - 1, st), one) && Fits(one, table)
  {
    MountParts(world, entry, count, st);
    Room(table, st, CollectMounts(world, entry, count - 1, st), MountsServed(world, entry, count),
      MountsServed(world, entry, count - 1),
         MountServed(world, entry, count - 1));
  }

  lemma MountParts(world: World, entry: string, count: nat, st: State)
    requires entry in world && 0 < count <= |world[entry].includes|
    requires CollectMounts(world, entry, count - 1, st).errors == st.errors
    ensures MountsServed(world, entry, count) == MountsServed(world, entry, count - 1) +
      MountServed(world, entry, count - 1)
    ensures MountsServed(world, entry, count - 1) !! MountServed(world, entry, count - 1)
    ensures Adds(st, CollectMounts(world, entry, count - 1, st), MountsServed(world, entry, count - 1))
  {
    OneMoreMount(world, entry, count);
    MountApart(world, entry, count - 1);
    MountsAdd(world, entry, count - 1, st);
  }

  lemma QuietMount(table: imap<string, Record>, world: World, entry: string, k: nat, st: State)
    requires entry in world && k < |world[entry].includes| && MountIsClean(world, entry, k)
    requires var all := MountServed(world, entry, k); Free(st, all) && Fits(all, table)
    ensures CollectMount(world, entry, k, st).errors == st.errors
  {
    var inc := world[entry].includes[k];
    if inc.onApp {
      var child := Mounted(world, entry, k);
      assert Avoids(world, child, {});
      QuietCollect(table, world, child, inc.prefix.value, !inc.schema.value, {}, [Place(entry, k)], st);
      assert st == State(st.records, st.errors + []);
    }
  }

  lemma {:induction false} SilentMounts(world: World, entry: string, count: nat, st: State)
    requires entry in world && count <= |world[entry].includes|
    requires |CollectMounts(world, entry, count, st).errors| <= |st.errors|
    ensures forall i :: 0 <= i < count ==> MountIsClean(world, entry, i)
  {
    if count > 0 {
      var st1 := CollectMounts(world, entry, count - 1, st);
      MountsErrors(world, entry, count - 1, st);
      MountErrors(world, entry, count - 1, st1);
      SilentMounts(world, entry, count - 1, st);
      SilentMount(world, entry, count - 1, st1);
    }
  }

  lemma SilentMount(world: World, entry: string, k: nat, st: State)
    requires entry in world && k < |world[entry].includes|
    requires |CollectMount(world, entry, k, st).errors| <= |st.errors|
    ensures MountIsClean(world, entry, k)
  {
    var inc := world[entry].includes[k];
    MountSilent(world, entry, k, st);
    if Mounts(world, entry, k) && PrefixOk(inc.prefix) && inc.schema.Some? {
      var st1 := State(st.records, st.errors + ResolveErrors(world, inc.child.ref));
      var child := Mounted(world, entry, k);
      ResolvedIsRouter(world, inc.child.ref.value);
      CollectErrors(world, child, inc.prefix.value, !inc.schema.value, {}, [Place(entry, k)], st1);
      SilentCollect(world, child, inc.prefix.value, !inc.schema.value, {}, [Place(entry, k)], st1);
    }
  }

  lemma AddsUnique(st: State, st': State, served: Served)
    requires Adds(st, st', served)
    ensures Unique(served)
  {
    var table := imap key | key in st'.records :: st'.records[key];
    assert Fits(served, table);
  }

  /** The inventory reports nothing exactly when the application is clean. */
  lemma SilentExactly(world: World, entry: string, direct: seq<DirectRoute>)
    ensures AppInventory(world, entry, direct).errors == [] <==> AppClean(world, entry, direct)
  {
    if AppInventory(world, entry, direct).errors == [] {
      SilentApp(world, entry, direct);
    }
    if AppClean(world, entry, direct) {
      QuietApp(world, entry, direct);
    }
  }

  lemma SilentApp(world: World, entry: string, direct: seq<DirectRoute>)
    requires AppInventory(world, entry, direct).errors == []
    ensures AppClean(world, entry, direct)
  {
    var n, before := |world[entry].includes|, CollectDirect(entry, direct, |direct|);
    MountsErrors(world, entry, n, before);
    DirectSilent(entry, direct, |direct|);
    MountsSilent(world, entry, n, before);
    SilentMounts(world, entry, n, before);
    AddsBoth(State(map[], []), before, AppInventory(world, entry, direct), DirectServed(entry, direct, |direct|),
      MountsServed(world, entry, n));
    AddsUnique(State(map[], []), AppInventory(world, entry, direct), AllServed(world, entry, direct));
  }

  lemma QuietApp(world: World, entry: string, direct: seq<DirectRoute>)
    requires AppClean(world, entry, direct)
    ensures AppInventory(world, entry, direct).errors == []
  {
    var n, start := |world[entry].includes|, State(map[], []);
    var own, rest, all := DirectServed(entry, direct, |direct|), MountsServed(world, entry, n),
      AllServed(world, entry, direct);
    var table :| Fits(all, table);
    FreeParts(table, start, all, own, rest);
    QuietDirect(table, entry, direct, |direct|);
    DirectSilent(entry, direct, |direct|);
    DirectApart(world, entry, direct, |direct|, n);
    StillFree(table, start, CollectDirect(entry, direct, |direct|), own, rest, all);
    QuietMounts(table, world, entry, n, CollectDirect(entry, direct, |direct|));
  }
}
