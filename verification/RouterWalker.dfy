/** The inventory of a whole application: the routes declared on the application itself, then one walk for
    each router that it mounts; and the walk as the source runs it, on shared dictionaries. */
module RouterWalker {
  import opened Text
  import opened RouterInventory

  /** A decorator on `app`; `path` is None unless its first argument is a string constant. */
  datatype DirectRoute = DirectRoute(verb: string, path: Option<string>, isHidden: bool)

  predicate Declares(direct: seq<DirectRoute>, k: nat) {
    k < |direct| && direct[k].verb in ROUTE_METHODS && direct[k].path.Some?
  }

  /** `_direct_route_records` */
  function CollectDirect(entry: string, direct: seq<DirectRoute>, count: nat): State
    requires count <= |direct|
  {
    if count == 0 then State(map[], [])
    else
      var st, k := CollectDirect(entry, direct, count - 1), count - 1;
      if !Declares(direct, k) then st
      else PutRecord(st, Key(direct[k].verb, direct[k].path.value), Record(direct[k].isHidden, [], Place(entry, k)))
  }

  function CollectMount(world: World, entry: string, k: nat, st: State): State
    requires entry in world && k < |world[entry].includes|
  {
    var inc := world[entry].includes[k];
    if !inc.onApp then st
    else if inc.child.NoArgument? then st.Fail(MissingArgument)
    else
      var st1 := State(st.records, st.errors + ResolveErrors(world, inc.child.ref));
      var child := Resolved(world, inc.child.ref);
      if child.None? then st1.Fail(UnresolvedArgument)
      else if !PrefixOk(inc.prefix) then
        (if inc.schema.None? then st1.Fail(BadPrefix(inc.prefix)).Fail(UnknownSchema)
          else st1.Fail(BadPrefix(inc.prefix)))
      else if inc.schema.None? then st1.Fail(UnknownSchema)
      else Collect(world, child.value, inc.prefix.value, !inc.schema.value, {}, [Place(entry, k)], st1)
  }

  function CollectMounts(world: World, entry: string, count: nat, st: State): State
    requires entry in world && count <= |world[entry].includes|
  {
    if count == 0 then st else CollectMount(world, entry, count - 1, CollectMounts(world, entry, count - 1, st))
  }

  /** `_implemented_route_inventory`; the entry module is missing from `world` when it cannot be parsed. */
  function AppInventory(world: World, entry: string, direct: seq<DirectRoute>): State {
    if entry !in world then State(map[], [Unreadable(entry)])
    else CollectMounts(world, entry, |world[entry].includes|, CollectDirect(entry, direct, |direct|))
  }

  // ----- What the application serves -----

  ghost predicate DirectServes(entry: string, direct: seq<DirectRoute>, k: nat, e: (string, Record)) {
    Declares(direct, k) && e == (Key(direct[k].verb, direct[k].path.value),
      Record(direct[k].isHidden, [], Place(entry, k)))
  }

  predicate Mounts(world: World, entry: string, i: nat) {
    && entry in world && i < |world[entry].includes|
    && (var inc := world[entry].includes[i]; inc.onApp && inc.child.Argument? && Resolved(world, inc.child.ref).Some?)
  }

  function Mounted(world: World, entry: string, i: nat): Ref
    requires Mounts(world, entry, i)
  {
    Resolved(world, world[entry].includes[i].child.ref).value
  }

  ghost function MountServed(world: World, entry: string, i: nat): Served {
    if Mounts(world, entry, i) then
      var inc := world[entry].includes[i];
      TreeServed(world, Mounted(world, entry, i), OrEmpty(inc.prefix), inc.schema == Some(false), [Place(entry, i)])
    else iset{}
  }

  ghost predicate AmongMounts(world: World, entry: string, count: nat, e: (string, Record)) {
    exists i :: 0 <= i < count && e in MountServed(world, entry, i)
  }

  ghost predicate AmongDirect(entry: string, direct: seq<DirectRoute>, count: nat, e: (string, Record)) {
    exists k :: 0 <= k < count && DirectServes(entry, direct, k, e)
  }

  ghost function MountsServed(world: World, entry: string, count: nat): Served {
    iset e: (string, Record) | AmongMounts(world, entry, count, e)
  }

  ghost function OneDirect(entry: string, direct: seq<DirectRoute>, k: nat): Served {
    iset e: (string, Record) | DirectServes(entry, direct, k, e)
  }

  ghost function DirectServed(entry: string, direct: seq<DirectRoute>, count: nat): Served {
    iset e: (string, Record) | AmongDirect(entry, direct, count, e)
  }

  /** Mount `i`, the includes `via` from the router it mounts, and route `k` of the router reached, as the
      client sees them: the verb with all prefixes and the path joined, hidden if anything on the way is. */
  ghost predicate ServedThrough(world: World, entry: string, i: nat, via: seq<Place>, k: nat, key: string,
                                record: Record) {
    && Mounts(world, entry, i)
    && (var inc := world[entry].includes[i];
        Serves(world, Mounted(world, entry, i), OrEmpty(inc.prefix), inc.schema == Some(false), [Place(entry, i)], via,
          k, key,
          record))
  }

  // ----- Exactness -----

  lemma {:induction false} DirectSilent(entry: string, direct: seq<DirectRoute>, count: nat)
    requires count <= |direct|
    ensures |CollectDirect(entry, direct, count).errors| == 0 ==>
      Adds(State(map[], []), CollectDirect(entry, direct, count), DirectServed(entry, direct, count))
  {
    if count > 0 {
      DirectSilent(entry, direct, count - 1);
      if |CollectDirect(entry, direct, count).errors| == 0 {
        var st, k := CollectDirect(entry, direct, count - 1), count - 1;
        var last := OneDirect(entry, direct, k);
        assert Adds(st, CollectDirect(entry, direct, count), last);
        AddsBoth(State(map[], []), st, CollectDirect(entry, direct, count), DirectServed(entry, direct, count - 1),
          last);
        OneMoreDirect(entry, direct, count, last);
      }
    }
  }

  lemma OneMoreDirect(entry: string, direct: seq<DirectRoute>, count: nat, last: Served)
    requires count > 0 && last == OneDirect(entry, direct, count - 1)
    ensures DirectServed(entry, direct, count) == DirectServed(entry, direct, count - 1) + last
  {
    forall e: (string, Record)
      ensures AmongDirect(entry, direct, count, e) <==>
        AmongDirect(entry, direct, count - 1, e) || DirectServes(entry, direct, count - 1, e)
    {
    }
  }

  lemma MountErrors(world: World, entry: string, k: nat, st: State)
    requires entry in world && k < |world[entry].includes|
    ensures st.errors <= CollectMount(world, entry, k, st).errors
  {
    var inc := world[entry].includes[k];
    if Mounts(world, entry, k) && PrefixOk(inc.prefix) && inc.schema.Some? {
      CollectErrors(world, Mounted(world, entry, k), inc.prefix.value, !inc.schema.value, {}, [Place(entry, k)],
                    State(st.records, st.errors + ResolveErrors(world, inc.child.ref)));
    }
  }

  lemma {:induction false} MountsErrors(world: World, entry: string, count: nat, st: State)
    requires entry in world && count <= |world[entry].includes|
    ensures st.errors <= CollectMounts(world, entry, count, st).errors
  {
    if count > 0 {
      MountsErrors(world, entry, count - 1, st);
      MountErrors(world, entry, count - 1, CollectMounts(world, entry, count - 1, st));
    }
  }

  lemma MountSilent(world: World, entry: string, k: nat, st: State)
    requires entry in world && k < |world[entry].includes|
    requires |CollectMount(world, entry, k, st).errors| <= |st.errors|
    ensures Adds(st, CollectMount(world, entry, k, st), MountServed(world, entry, k))
    ensures Mounts(world, entry, k) ==> Acyclic(world, Mounted(world, entry, k))
  {
    var inc := world[entry].includes[k];
    if Mounts(world, entry, k) {
      var st1 := State(st.records, st.errors + ResolveErrors(world, inc.child.ref));
      var child := Mounted(world, entry, k);
      ResolvedIsRouter(world, inc.child.ref.value);
      CollectErrors(world, child, inc.prefix.value, !inc.schema.value, {}, [Place(entry, k)], st1);
      CollectSilent(world, child, inc.prefix.value, !inc.schema.value, {}, [Place(entry, k)], st1);
    }
  }

  lemma {:induction false} MountsSilent(world: World, entry: string, count: nat, st: State)
    requires entry in world && count <= |world[entry].includes|
    requires |CollectMounts(world, entry, count, st).errors| <= |st.errors|
    ensures Adds(st, CollectMounts(world, entry, count, st), MountsServed(world, entry, count))
    ensures forall i: nat :: i < count && Mounts(world, entry, i) ==> Acyclic(world, Mounted(world, entry, i))
  {
    if count > 0 {
      var st1 := CollectMounts(world, entry, count - 1, st);
      MountsErrors(world, entry, count - 1, st);
      MountErrors(world, entry, count - 1, st1);
      MountsSilent(world, entry, count - 1, st);
      MountSilent(world, entry, count - 1, st1);
      AddsBoth(st, st1, CollectMount(world, entry, count - 1, st1), MountsServed(world, entry, count - 1),
        MountServed(world, entry, count - 1));
      OneMoreMount(world, entry, count);
    }
  }

  lemma OneMoreMount(world: World, entry: string, count: nat)
    requires count > 0
    ensures MountsServed(world, entry, count) == MountsServed(world, entry, count - 1) +
      MountServed(world, entry, count - 1)
  {
    forall e: (string, Record)
      ensures e in MountsServed(world, entry, count) <==>
        e in MountsServed(world, entry, count - 1) + MountServed(world, entry, count - 1)
    {
    }
  }

  /** When nothing is reported, the records are exactly the declared routes and the routes at the end of
      every include path, however the include graph is shaped. */
  lemma InventoryExact(world: World, entry: string, direct: seq<DirectRoute>, key: string, record: Record)
    requires AppInventory(world, entry, direct).errors == []
    ensures var records := AppInventory(world, entry, direct).records;
      (key in records && records[key] == record) <==>
      || (exists k :: DirectServes(entry, direct, k, (key, record)))
      || (exists i, via, k :: ServedThrough(world, entry, i, via, k, key, record))
  {
    var before, all := CollectDirect(entry, direct, |direct|), AppInventory(world, entry, direct);
    var n := |world[entry].includes|;
    MountsErrors(world, entry, n, before);
    DirectSilent(entry, direct, |direct|);
    MountsSilent(world, entry, n, before);
    AddsBoth(State(map[], []), before, all, DirectServed(entry, direct, |direct|), MountsServed(world, entry, n));
    ServedIsNamed(world, entry, direct, key, record);
  }

  lemma ServedIsNamed(world: World, entry: string, direct: seq<DirectRoute>, key: string, record: Record)
    requires entry in world
    ensures (key, record) in DirectServed(entry, direct, |direct|) <==>
      exists k :: DirectServes(entry, direct, k, (key, record))
    ensures (key, record) in MountsServed(world, entry, |world[entry].includes|) <==>
      exists i, via, k :: ServedThrough(world, entry, i, via, k, key, record)
  {
    var n := |world[entry].includes|;
    if exists k :: DirectServes(entry, direct, k, (key, record)) {
      var k :| DirectServes(entry, direct, k, (key, record));
      assert AmongDirect(entry, direct, |direct|, (key, record));
    }
    if (key, record) in MountsServed(world, entry, n) {
      var i :| 0 <= i < n && (key, record) in MountServed(world, entry, i);
      var inc := world[entry].includes[i];
      var via, k :| Serves(world, Mounted(world, entry, i), OrEmpty(inc.prefix), inc.schema == Some(false),
        [Place(entry, i)], via,
        k, key, record);
      assert ServedThrough(world, entry, i, via, k, key, record);
    }
    if exists i, via, k :: ServedThrough(world, entry, i, via, k, key, record) {
      var i, via, k :| ServedThrough(world, entry, i, via, k, key, record);
      assert (key, record) in MountServed(world, entry, i);
      assert AmongMounts(world, entry, n, (key, record));
    }
  }

  /** And then no two ways of serving a route share a key, and no router includes itself. */
  lemma InventoryUnambiguous(world: World, entry: string, direct: seq<DirectRoute>)
    requires AppInventory(world, entry, direct).errors == []
    ensures forall i1, via1, k1, r1, i2, via2, k2, r2, key ::
      ServedThrough(world, entry, i1, via1, k1, key, r1) && ServedThrough(world, entry, i2, via2, k2, key, r2) ==>
      i1 == i2 && via1 == via2 && k1 == k2
    ensures forall i: nat :: Mounts(world, entry, i) ==> Acyclic(world, Mounted(world, entry, i))
  {
    var before, n := CollectDirect(entry, direct, |direct|), |world[entry].includes|;
    MountsErrors(world, entry, n, before);
    MountsSilent(world, entry, n, before);
    forall i1, via1, k1, r1, i2, via2, k2, r2, key |
      ServedThrough(world, entry, i1, via1, k1, key, r1) && ServedThrough(world, entry, i2, via2, k2, key, r2)
      ensures i1 == i2 && via1 == via2 && k1 == k2
    {
      InventoryExact(world, entry, direct, key, r1);
      InventoryExact(world, entry, direct, key, r2);
      assert r1 == r2;
      SamePath(world, entry, i1, via1, k1, i2, via2, k2, key, r1);
    }
  }

  lemma SamePath(world: World, entry: string, i1: nat, via1: seq<Place>, k1: nat, i2: nat, via2: seq<Place>, k2: nat,
                 key: string, r: Record)
    requires ServedThrough(world, entry, i1, via1, k1, key, r) && ServedThrough(world, entry, i2, via2, k2, key, r)
    ensures i1 == i2 && via1 == via2 && k1 == k2
  {
    assert r.via == [Place(entry, i1)] + via1 && r.via == [Place(entry, i2)] + via2;
    assert r.via[0] == Place(entry, i1) && r.via[0] == Place(entry, i2);
    assert r.via[1..] == via1 && r.via[1..] == via2;
  }

  // ----- The walk on shared dictionaries -----

  class Inventory {
    var records: map<string, Record>
    var errors: seq<Error>

    ghost function Now(): State
      reads this
    {
      State(records, errors)
    }

    constructor ()
      ensures Now() == State(map[], [])
    {
      records := map[];
      errors := [];
    }

    method Report(error: Error)
      modifies this
      ensures Now() == old(Now()).Fail(error)
    {
      errors := errors + [error];
    }

    method Put(key: string, record: Record)
      modifies this
      ensures Now() == PutRecord(old(Now()), key, record)
    {
      if key in records {
        Report(Duplicate(key));
      }
      records := records[key := record];
    }

    method Canonicalize(world: World, ref: Ref, active: set<Ref>) returns (router: Option<Ref>)
      modifies this
      ensures router == Canonical(world, ref, active).0
      ensures Now() == State(old(records), old(errors) + Canonical(world, ref, active).1)
      decreases (AllBindings(world) + {ref}) - active
    {
      if ref in active {
        Report(AliasCycle(ref));
        return None;
      }
      if ref.path !in world {
        Report(Unreadable(ref.path));
        return None;
      }
      if IsRouter(world, ref) {
        return Some(ref);
      }
      if ref.name in world[ref.path].bindings {
        assert world[ref.path].bindings[ref.name] in AllBindings(world);
        assert ref in (AllBindings(world) + {ref}) - active;
        router := Canonicalize(world, world[ref.path].bindings[ref.name], active + {ref});
        return;
      }
      return None;
    }

    method Resolve(world: World, ref: Option<Ref>) returns (router: Option<Ref>)
      modifies this
      ensures router == Resolved(world, ref)
      ensures Now() == State(old(records), old(errors) + ResolveErrors(world, ref))
    {
      router := None;
      if ref.Some? {
        router := Canonicalize(world, ref.value, {});
      }
    }

    /** `_route_prefix`, and the check of `include_in_schema` that follows each call of it. */
    method CheckMount(prefix: Option<string>, schema: Option<bool>) returns (ok: bool)
      modifies this
      ensures ok <==> PrefixOk(prefix) && schema.Some?
      ensures Now() ==
        if !PrefixOk(prefix) then
          (if schema.None? then old(Now()).Fail(BadPrefix(prefix)).Fail(UnknownSchema)
            else old(Now()).Fail(BadPrefix(prefix)))
        else if schema.None? then old(Now()).Fail(UnknownSchema)
        else old(Now())
    {
      ok := true;
      if !PrefixOk(prefix) {
        Report(BadPrefix(prefix));
        ok := false;
      }
      if schema.None? {
        Report(UnknownSchema);
        ok := false;
      }
    }

    /** The body of the loop over a module's routes. */
    method AddRoute(world: World, router: Ref, base: string, isHidden: bool, via: seq<Place>, k: nat)
      requires IsRouter(world, router) && k < |world[router.path].routes|
      modifies this
      ensures Now() == CollectRoute(world, router, base, isHidden, via, k, old(Now()))
    {
      var route := world[router.path].routes[k];
      var receiver := Resolve(world, route.receiver);
      if receiver != Some(router) {
        return;
      }
      if route.verb !in ROUTE_METHODS {
        Report(UnsupportedVerb(route.verb));
        return;
      }
      if route.path.None? {
        Report(UnknownPath);
        return;
      }
      if route.schema.None? {
        Report(UnknownSchema);
        return;
      }
      var path := base + route.path.value;
      if !PathOk(path) {
        Report(InvalidRoute(Key(route.verb, path)));
        return;
      }
      Put(Key(route.verb, path), Record(isHidden || !route.schema.value, via, Place(router.path, k)));
    }

    /** The body of the loop over a module's includes. */
    method FollowInclude(world: World, router: Ref, base: string, isHidden: bool, active: set<Ref>, via: seq<Place>,
                         k: nat)
      requires IsRouter(world, router) && router !in active && k < |world[router.path].includes|
      modifies this
      ensures Now() == CollectInclude(world, router, base, isHidden, active, via, k, old(Now()))
      decreases AllRouters(world) - active, 1
    {
      var inc := world[router.path].includes[k];
      var receiver := Resolve(world, inc.receiver);
      if receiver != Some(router) {
        return;
      }
      if inc.child.NoArgument? {
        Report(MissingArgument);
        return;
      }
      var child := Resolve(world, inc.child.ref);
      if child.None? {
        Report(UnresolvedArgument);
        return;
      }
      var ok := CheckMount(inc.prefix, inc.schema);
      if ok {
        assert router in AllRouters(world) - active;
        CollectRouter(world, child.value, base + inc.prefix.value, isHidden ||
          !inc.schema.value, active + {router}, via + [Place(router.path, k)]);
      }
    }

    /** `_collect_router_routes` */
    method CollectRouter(world: World, ref: Ref, base: string, isHidden: bool, active: set<Ref>, via: seq<Place>)
      modifies this
      ensures Now() == Collect(world, ref, base, isHidden, active, via, old(Now()))
      decreases AllRouters(world) - active, 2
    {
      var canonical := Canonicalize(world, ref, {});
      if canonical.None? {
        Report(Unresolvable(ref));
        return;
      }
      var router := canonical.value;
      if router in active {
        Report(IncludeCycle(router));
        return;
      }
      ResolvedIsRouter(world, ref);
      var here, spec := world[router.path], world[router.path].routers[router.name];
      var ok := CheckMount(spec.prefix, spec.schema);
      if !ok {
        return;
      }
      var full, dark := base + spec.prefix.value, isHidden || !spec.schema.value;
      ghost var st1 := Now();
      for k := 0 to |here.routes|
        invariant Now() == CollectRoutes(world, router, full, dark, via, k, st1)
      {
        AddRoute(world, router, full, dark, via, k);
      }
      ghost var st2 := Now();
      for k := 0 to |here.includes|
        invariant Now() == CollectIncludes(world, router, full, dark, active, via, k, st2)
      {
        FollowInclude(world, router, full, dark, active, via, k);
      }
    }

    /** The body of the loop over the application's own includes. */
    method MountOne(world: World, entry: string, k: nat)
      requires entry in world && k < |world[entry].includes|
      modifies this
      ensures Now() == CollectMount(world, entry, k, old(Now()))
    {
      var inc := world[entry].includes[k];
      if !inc.onApp {
        return;
      }
      if inc.child.NoArgument? {
        Report(MissingArgument);
        return;
      }
      var child := Resolve(world, inc.child.ref);
      if child.None? {
        Report(UnresolvedArgument);
        return;
      }
      var ok := CheckMount(inc.prefix, inc.schema);
      if ok {
        CollectRouter(world, child.value, inc.prefix.value, !inc.schema.value, {}, [Place(entry, k)]);
      }
    }

    /** `_implemented_route_inventory` */
    method Run(world: World, entry: string, direct: seq<DirectRoute>)
      requires Now() == State(map[], [])
      modifies this
      ensures Now() == AppInventory(world, entry, direct)
    {
      if entry !in world {
        Report(Unreadable(entry));
        return;
      }
      for k := 0 to |direct|
        invariant Now() == CollectDirect(entry, direct, k)
      {
        if Declares(direct, k) {
          Put(Key(direct[k].verb, direct[k].path.value), Record(direct[k].isHidden, [], Place(entry, k)));
        }
      }
      ghost var before := Now();
      for k := 0 to |world[entry].includes|
        invariant Now() == CollectMounts(world, entry, k, before)
      {
        MountOne(world, entry, k);
      }
    }
  }
}
