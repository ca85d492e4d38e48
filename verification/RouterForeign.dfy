/** What a silent inventory misses. The walk looks for the routes and the includes of a router only in the module
    that defines the router, and for those of the application only in the entry module, while any module that
    imports them can add to them. */
module RouterForeign {
  import opened Text
  import opened RouterInventory
  import opened RouterWalker

  // ----- Everything that is declared -----

  predicate IsInclude(world: World, c: Place) {
    && c.path in world && c.index < |world[c.path].includes|
    && (var inc := world[c.path].includes[c.index]; inc.child.Argument? && Resolved(world, inc.child.ref).Some?)
  }

  function ChildAt(world: World, c: Place): Ref
    requires IsInclude(world, c)
  {
    Resolved(world, world[c.path].includes[c.index].child.ref).value
  }

  /** The include call at `c`, in whatever module, is a call on the router and mounts a child. */
  predicate CallsOn(world: World, router: Ref, c: Place) {
    IsInclude(world, c) && Resolved(world, world[c.path].includes[c.index].receiver) == Some(router)
  }

  /** The decorator at `at`, in whatever module, is one of the router. */
  predicate DecoratesOn(world: World, router: Ref, at: Place) {
    && at.path in world && at.index < |world[at.path].routes|
    && Resolved(world, world[at.path].routes[at.index].receiver) == Some(router)
  }

  /** Following the include calls `via`, wherever they stand, leads from the router to `end`. */
  ghost predicate Reaches(world: World, router: Ref, via: seq<Place>, end: Ref)
    decreases |via|
  {
    if |via| == 0 then end == router
    else CallsOn(world, router, via[0]) && Reaches(world, ChildAt(world, via[0]), via[1..], end)
  }

  /** The include call `i` of module `m` mounts a router on the application; the include calls `via` and the decorator
      at `at` declare a route on it. */
  ghost predicate Declared(world: World, m: string, i: nat, via: seq<Place>, at: Place, end: Ref) {
    Mounts(world, m, i) && Reaches(world, Mounted(world, m, i), via, end) && DecoratesOn(world, end, at)
  }

  /** It is in the inventory. */
  ghost predicate Recorded(records: map<string, Record>, m: string, i: nat, via: seq<Place>, at: Place) {
    exists key :: key in records && records[key].via == [Place(m, i)] + via && records[key].at == at
  }

  const DECORATOR_METHODS: set<string> := ROUTE_METHODS + {"api_route", "head", "options", "trace", "websocket"}

  /** The decorators on `app`, by module. */
  type Decorators = map<string, seq<DirectRoute>>

  function OwnDirect(direct: Decorators, entry: string): seq<DirectRoute> {
    if entry in direct then direct[entry] else []
  }

  /** The decorator at `at`, in whatever module, declares a route on the application itself. */
  predicate DeclaredOnApp(direct: Decorators, at: Place) {
    at.path in direct && at.index < |direct[at.path]| && direct[at.path][at.index].verb in DECORATOR_METHODS
  }

  ghost predicate RecordedDirect(records: map<string, Record>, at: Place) {
    exists key :: key in records && records[key].via == [] && records[key].at == at
  }

  lemma {:induction false} OwnReaches(world: World, router: Ref, via: seq<Place>)
    requires IsRouter(world, router) && IncludePath(world, router, via)
    ensures Reaches(world, router, via, EndOf(world, router, via)) && IsRouter(world, EndOf(world, router, via))
    decreases |via|
  {
    if |via| > 0 {
      ChildIsRouter(world, router, via[0].index);
      assert via[0] == Place(router.path, via[0].index);
      OwnReaches(world, ChildOf(world, router, via[0].index), via[1..]);
    }
  }

  lemma {:induction false} OneEnd(world: World, router: Ref, via: seq<Place>, e1: Ref, e2: Ref)
    requires Reaches(world, router, via, e1) && Reaches(world, router, via, e2)
    ensures e1 == e2
    decreases |via|
  {
    if |via| > 0 {
      OneEnd(world, ChildAt(world, via[0]), via[1..], e1, e2);
    }
  }

  lemma MountedIsRouter(world: World, entry: string, i: nat)
    requires Mounts(world, entry, i)
    ensures IsRouter(world, Mounted(world, entry, i))
  {
    ResolvedIsRouter(world, world[entry].includes[i].child.ref.value);
  }

  // ----- What is recorded of it -----

  /** When nothing is reported, a declared route is recorded exactly when the mount stands in the entry module, and
      each include call on the way, and the decorator, in the module of the router that they are called on. */
  lemma RecordedExactly(world: World, entry: string, direct: seq<DirectRoute>, m: string, i: nat, via: seq<Place>,
                        at: Place, end: Ref)
    requires AppInventory(world, entry, direct).errors == [] && Declared(world, m, i, via, at, end)
    ensures Recorded(AppInventory(world, entry, direct).records, m, i, via, at) <==>
            m == entry && IncludePath(world, Mounted(world, m, i), via) && at.path == end.path
  {
    var records, router := AppInventory(world, entry, direct).records, Mounted(world, m, i);
    MountedIsRouter(world, m, i);
    if m == entry && IncludePath(world, router, via) && at.path == end.path {
      OwnReaches(world, router, via);
      OneEnd(world, router, via, end, EndOf(world, router, via));
      OwnRecorded(world, entry, direct, i, via, at);
    }
    if Recorded(records, m, i, via, at) {
      var key :| key in records && records[key].via == [Place(m, i)] + via && records[key].at == at;
      var j, via', k := RecordServed(world, entry, direct, key);
      assert records[key].via[0] == Place(m, i);
      assert via == records[key].via[1..] && via' == via && j == i;
      OwnReaches(world, router, via);
      OneEnd(world, router, via, end, EndOf(world, router, via));
    }
  }

  lemma OwnRecorded(world: World, entry: string, direct: seq<DirectRoute>, i: nat, via: seq<Place>, at: Place)
    requires AppInventory(world, entry, direct).errors == [] && Mounts(world, entry, i)
    requires IncludePath(world, Mounted(world, entry, i), via)
    requires var end := EndOf(world, Mounted(world, entry, i), via); DecoratesOn(world, end, at) && at.path == end.path
    ensures Recorded(AppInventory(world, entry, direct).records, entry, i, via, at)
  {
    var router, inc, route := Mounted(world, entry, i), world[entry].includes[i], world[at.path].routes[at.index];
    MountedIsRouter(world, entry, i);
    EndIsRouter(world, router, via);
    var key := Key(route.verb, OrEmpty(inc.prefix) + PrefixAlong(world, router, via) + OrEmpty(route.path));
    var isHidden := inc.schema == Some(false) || HiddenAlong(world, router, via) || route.schema == Some(false);
    var record := Record(isHidden, [Place(entry, i)] + via, Place(at.path, at.index));
    assert ServedThrough(world, entry, i, via, at.index, key, record);
    InventoryExact(world, entry, direct, key, record);
  }

  /** A record that is not of a direct route is of one at the end of an include path. */
  lemma RecordServed(world: World, entry: string, direct: seq<DirectRoute>, key: string)
      returns (i: nat, via: seq<Place>, k: nat)
    requires var inventory := AppInventory(world, entry, direct);
      inventory.errors == [] && key in inventory.records && |inventory.records[key].via| > 0
    ensures var record := AppInventory(world, entry, direct).records[key];
      && Mounts(world, entry, i) && IncludePath(world, Mounted(world, entry, i), via)
      && record.via == [Place(entry, i)] + via && record.via[0] == Place(entry, i) && record.via[1..] == via
      && OwnsRoute(world, EndOf(world, Mounted(world, entry, i), via), k)
      && record.at == Place(EndOf(world, Mounted(world, entry, i), via).path, k)
  {
    var record := AppInventory(world, entry, direct).records[key];
    InventoryExact(world, entry, direct, key, record);
    i, via, k :| ServedThrough(world, entry, i, via, k, key, record);
  }

  /** When nothing is reported, a route declared on the application itself is recorded exactly when the decorator
      stands in the entry module, its verb is among the five and its path is a constant. */
  lemma DirectExactly(world: World, entry: string, direct: Decorators, at: Place)
    requires AppInventory(world, entry, OwnDirect(direct, entry)).errors == [] && DeclaredOnApp(direct, at)
    ensures RecordedDirect(AppInventory(world, entry, OwnDirect(direct, entry)).records, at) <==>
            at.path == entry && Declares(OwnDirect(direct, entry), at.index)
  {
    var own := OwnDirect(direct, entry);
    var records := AppInventory(world, entry, own).records;
    if at.path == entry && Declares(own, at.index) {
      var record := Record(own[at.index].isHidden, [], at);
      var key := Key(own[at.index].verb, own[at.index].path.value);
      assert DirectServes(entry, own, at.index, (key, record));
      InventoryExact(world, entry, own, key, record);
    }
    if RecordedDirect(records, at) {
      var key :| key in records && records[key].via == [] && records[key].at == at;
      InventoryExact(world, entry, own, key, records[key]);
      NotServed(world, entry, key, records[key]);
      var k :| DirectServes(entry, own, k, (key, records[key]));
    }
  }

  lemma NotServed(world: World, entry: string, key: string, record: Record)
    requires record.via == []
    ensures !exists i, via, k :: ServedThrough(world, entry, i, via, k, key, record)
  {
  }

  /** A missing route's key is in the inventory only if a direct route, or one declared in its router's module at the
      end of an include path, has the same. */
  lemma KeysExactly(world: World, entry: string, direct: seq<DirectRoute>, key: string)
    requires AppInventory(world, entry, direct).errors == []
    ensures key in AppInventory(world, entry, direct).records <==>
      || (exists k, r :: DirectServes(entry, direct, k, (key, r)))
      || (exists i, via, k, r :: ServedThrough(world, entry, i, via, k, key, r))
  {
    var records := AppInventory(world, entry, direct).records;
    if key in records {
      InventoryExact(world, entry, direct, key, records[key]);
    }
    if exists k, r :: DirectServes(entry, direct, k, (key, r)) {
      var k, r :| DirectServes(entry, direct, k, (key, r));
      InventoryExact(world, entry, direct, key, r);
    }
    if exists i, via, k, r :: ServedThrough(world, entry, i, via, k, key, r) {
      var i, via, k, r :| ServedThrough(world, entry, i, via, k, key, r);
      InventoryExact(world, entry, direct, key, r);
    }
  }

  // ----- Decorators -----

  ghost predicate ReachedOwn(world: World, entry: string, router: Ref) {
    exists i, via :: OwnWayTo(world, entry, i, via, router)
  }

  ghost predicate OwnWayTo(world: World, entry: string, i: nat, via: seq<Place>, router: Ref) {
    && Mounts(world, entry, i) && IncludePath(world, Mounted(world, entry, i), via)
    && EndOf(world, Mounted(world, entry, i), via) == router
  }

  /** Of every decorator of every module: it is recorded exactly when its receiver resolves to a router of the same
      module, and include calls that stand where the walk looks for them lead there. One whose receiver resolves to
      nothing, or to an imported router, is dropped. */
  lemma DecoratorExactly(world: World, entry: string, direct: seq<DirectRoute>, at: Place)
    requires AppInventory(world, entry, direct).errors == []
    requires at.path in world && at.index < |world[at.path].routes|
    ensures var records, router := AppInventory(world, entry, direct).records,
                                   Resolved(world, world[at.path].routes[at.index].receiver);
      (exists key :: key in records && |records[key].via| > 0 && records[key].at == at) <==>
      router.Some? && router.value.path == at.path && ReachedOwn(world, entry, router.value)
  {
    var records := AppInventory(world, entry, direct).records;
    var router := Resolved(world, world[at.path].routes[at.index].receiver);
    if exists key :: key in records && |records[key].via| > 0 && records[key].at == at {
      var key :| key in records && |records[key].via| > 0 && records[key].at == at;
      var i, via, k := RecordServed(world, entry, direct, key);
      assert OwnWayTo(world, entry, i, via, router.value);
    }
    if router.Some? && router.value.path == at.path && ReachedOwn(world, entry, router.value) {
      var i, via :| OwnWayTo(world, entry, i, via, router.value);
      OwnRecorded(world, entry, direct, i, via, at);
    }
  }

  // ----- When nothing is missing -----

  /** Nothing is declared on the router or below. */
  ghost predicate Barren(world: World, router: Ref) {
    forall via, end, at :: Reaches(world, router, via, end) ==> !DecoratesOn(world, end, at)
  }

  /** Only the router's own module declares routes on it, and includes of other modules add nothing. */
  ghost predicate KeptAtHome(world: World, router: Ref) {
    && (forall at :: DecoratesOn(world, router, at) ==> at.path == router.path)
    && forall c :: CallsOn(world, router, c) && c.path != router.path ==> Barren(world, ChildAt(world, c))
  }

  ghost predicate NothingForeign(world: World, entry: string) {
    forall i, via, router :: OwnWayTo(world, entry, i, via, router) ==> KeptAtHome(world, router)
  }

  /** Other modules mount on the application only routers that add nothing. */
  ghost predicate MountsAtHome(world: World, entry: string) {
    forall m, i :: m != entry && Mounts(world, m, i) ==> Barren(world, Mounted(world, m, i))
  }

  /** Only the entry module declares routes on the application, with verbs and paths that the walk reads. */
  ghost predicate AppAtHome(direct: Decorators, entry: string) {
    forall at :: DeclaredOnApp(direct, at) ==> at.path == entry && Declares(OwnDirect(direct, entry), at.index)
  }

  /** Everything declared, on the application or on a router, is recorded. */
  ghost predicate Complete(world: World, direct: Decorators, records: map<string, Record>) {
    && (forall m, i, via, at, end :: Declared(world, m, i, via, at, end) ==> Recorded(records, m, i, via, at))
    && forall at :: DeclaredOnApp(direct, at) ==> RecordedDirect(records, at)
  }

  /** When nothing is reported, everything declared is recorded exactly when no module adds to the application or the
      routers of another, and every decorator on the application is one that the walk reads. */
  lemma CompleteExactly(world: World, entry: string, direct: Decorators)
    requires AppInventory(world, entry, OwnDirect(direct, entry)).errors == []
    ensures Complete(world, direct, AppInventory(world, entry, OwnDirect(direct, entry)).records) <==>
            NothingForeign(world, entry) && MountsAtHome(world, entry) && AppAtHome(direct, entry)
  {
    var own := OwnDirect(direct, entry);
    var records := AppInventory(world, entry, own).records;
    forall at | DeclaredOnApp(direct, at)
      ensures RecordedDirect(records, at) <==> at.path == entry && Declares(own, at.index)
    {
      DirectExactly(world, entry, direct, at);
    }
    if Complete(world, direct, records) {
      forall i, via, router | OwnWayTo(world, entry, i, via, router) ensures KeptAtHome(world, router) {
        CompleteKeeps(world, entry, direct, i, via, router);
      }
      forall m, i, via, end, at | m != entry && Mounts(world, m, i) && Reaches(world, Mounted(world, m, i), via, end)
        ensures !DecoratesOn(world, end, at)
      {
        if DecoratesOn(world, end, at) {
          assert Declared(world, m, i, via, at, end);
          RecordedExactly(world, entry, own, m, i, via, at, end);
        }
      }
    }
    if NothingForeign(world, entry) && MountsAtHome(world, entry) {
      forall m, i, via, at, end | Declared(world, m, i, via, at, end) ensures Recorded(records, m, i, via, at) {
        NothingMissed(world, entry, m, i, via, at, end);
        RecordedExactly(world, entry, own, m, i, via, at, end);
      }
    }
  }

  lemma CompleteKeeps(world: World, entry: string, direct: Decorators, i: nat, via: seq<Place>, router: Ref)
    requires AppInventory(world, entry, OwnDirect(direct, entry)).errors == []
    requires OwnWayTo(world, entry, i, via, router)
    requires Complete(world, direct, AppInventory(world, entry, OwnDirect(direct, entry)).records)
    ensures KeptAtHome(world, router)
  {
    var own, first := OwnDirect(direct, entry), Mounted(world, entry, i);
    MountedIsRouter(world, entry, i);
    OwnReaches(world, first, via);
    forall at | DecoratesOn(world, router, at) ensures at.path == router.path {
      assert Declared(world, entry, i, via, at, router);
      RecordedExactly(world, entry, own, entry, i, via, at, router);
    }
    forall c, rest, end, at |
      CallsOn(world, router, c) && c.path != router.path && Reaches(world, ChildAt(world, c), rest, end)
      ensures !DecoratesOn(world, end, at)
    {
      if DecoratesOn(world, end, at) {
        var below := [c] + rest;
        assert below[1..] == rest && Reaches(world, router, below, end);
        ReachesOn(world, first, via, router, below, end);
        assert Declared(world, entry, i, via + below, at, end);
        RecordedExactly(world, entry, own, entry, i, via + below, at, end);
        PathSuffix(world, first, via, below);
      }
    }
  }

  lemma {:induction false} ReachesOn(world: World, router: Ref, via: seq<Place>, middle: Ref, more: seq<Place>,
                                     end: Ref)
    requires Reaches(world, router, via, middle) && Reaches(world, middle, more, end)
    ensures Reaches(world, router, via + more, end)
    decreases |via|
  {
    if |via| == 0 {
      assert via + more == more;
    } else {
      assert (via + more)[0] == via[0] && (via + more)[1..] == via[1..] + more;
      ReachesOn(world, ChildAt(world, via[0]), via[1..], middle, more, end);
    }
  }

  lemma {:induction false} PathSuffix(world: World, router: Ref, via: seq<Place>, more: seq<Place>)
    requires IncludePath(world, router, via + more) && IncludePath(world, router, via)
    ensures IncludePath(world, EndOf(world, router, via), more)
    decreases |via|
  {
    if |via| == 0 {
      assert via + more == more;
    } else {
      assert (via + more)[0] == via[0] && (via + more)[1..] == via[1..] + more;
      PathSuffix(world, ChildOf(world, router, via[0].index), via[1..], more);
    }
  }

  lemma NothingMissed(world: World, entry: string, m: string, i: nat, via: seq<Place>, at: Place, end: Ref)
    requires NothingForeign(world, entry) && MountsAtHome(world, entry) && Declared(world, m, i, via, at, end)
    ensures m == entry && IncludePath(world, Mounted(world, m, i), via) && at.path == end.path
  {
    assert m == entry;
    var first := Mounted(world, entry, i);
    MountedIsRouter(world, entry, i);
    if IncludePath(world, first, via) {
      OwnReaches(world, first, via);
      OneEnd(world, first, via, end, EndOf(world, first, via));
      assert OwnWayTo(world, entry, i, via, end);
    } else {
      Strays(world, entry, i, via, at, end);
    }
  }

  /** A way to a declared route that leaves the modules of its routers leads past one that others add to. */
  lemma Strays(world: World, entry: string, i: nat, via: seq<Place>, at: Place, end: Ref)
    requires Declared(world, entry, i, via, at, end) && !IncludePath(world, Mounted(world, entry, i), via)
    ensures !NothingForeign(world, entry)
  {
    var first := Mounted(world, entry, i);
    MountedIsRouter(world, entry, i);
    var before, c, rest := FirstForeign(world, first, via, end);
    var router := EndOf(world, first, before);
    assert !Barren(world, ChildAt(world, c));
    assert !KeptAtHome(world, router);
    assert OwnWayTo(world, entry, i, before, router);
  }

  /** The first include call that does not stand in the module of its router. */
  lemma {:induction false} FirstForeign(world: World, router: Ref, via: seq<Place>, end: Ref)
      returns (before: seq<Place>, c: Place, rest: seq<Place>)
    requires IsRouter(world, router) && Reaches(world, router, via, end) && !IncludePath(world, router, via)
    ensures IncludePath(world, router, before) && via == before + [c] + rest
    ensures CallsOn(world, EndOf(world, router, before), c) && c.path != EndOf(world, router, before).path
    ensures Reaches(world, ChildAt(world, c), rest, end)
    decreases |via|
  {
    if via[0].path != router.path {
      before, c, rest := [], via[0], via[1..];
    } else {
      ChildIsRouter(world, router, via[0].index);
      var tail;
      tail, c, rest := FirstForeign(world, ChildOf(world, router, via[0].index), via[1..], end);
      before := [via[0]] + tail;
      assert before[1..] == tail;
    }
  }

  // ----- Such applications -----

  /** `r = APIRouter()` and `c = APIRouter()` in module `m`, `@c.get("/x")` there; `main` imports and mounts `r`. */
  function Library(m: string): Module {
    var spec := RouterSpec(Some(""), Some(true));
    Module(map["r" := spec, "c" := spec], map[], [Route(Some(Ref(m, "c")), "get", Some("/x"), Some(true))], [])
  }

  function Mount(main: string): Include {
    Include(true, None, Argument(Some(Ref(main, "r"))), Some(""), Some(true))
  }

  /** `main` also declares `@r.get("/y")`, and calls `r.include_router(c)`. */
  function Split(main: string, m: string): World {
    var route := Route(Some(Ref(main, "r")), "get", Some("/y"), Some(true));
    var inner := Include(false, Some(Ref(main, "r")), Argument(Some(Ref(main, "c"))), Some(""), Some(true));
    map[main := Module(map[], map["r" := Ref(m, "r"), "c" := Ref(m, "c")], [route], [Mount(main), inner]),
        m := Library(m)]
  }

  lemma SplitResolves(world: World, main: string, m: string, name: string)
    requires main != m && world == Split(main, m) && (name == "r" || name == "c")
    ensures Canonical(world, Ref(main, name), {}) == (Some(Ref(m, name)), [])
    ensures Canonical(world, Ref(m, name), {}) == (Some(Ref(m, name)), [])
  {
    var alias, router := Ref(main, name), Ref(m, name);
    assert IsAlias(world, alias) && world[alias.path].bindings[alias.name] == router && IsRouter(world, router);
    assert {} + {alias} == {alias} && router !in {alias};
    assert Canonical(world, router, {alias}) == (Some(router), []);
  }

  /** A route, and a whole router, that another module adds to a mounted one: both are declared, the inventory is
      empty, and nothing is reported. */
  lemma ForeignRoutesMissing(main: string, m: string)
    requires main != m
    ensures var world := Split(main, m);
      && Declared(world, main, 0, [], Place(main, 0), Ref(m, "r"))
      && Declared(world, main, 0, [Place(main, 1)], Place(m, 0), Ref(m, "c"))
      && AppInventory(world, main, []) == State(map[], [])
  {
    var world := Split(main, m);
    SplitResolves(world, main, m, "r");
    SplitResolves(world, main, m, "c");
    SplitDeclares(world, main, m);
    SplitEmpty(world, main, m);
  }

  lemma SplitDeclares(world: World, main: string, m: string)
    requires main != m && world == Split(main, m)
    requires Canonical(world, Ref(main, "r"), {}).0 == Some(Ref(m, "r"))
    requires Canonical(world, Ref(main, "c"), {}).0 == Some(Ref(m, "c"))
    requires Canonical(world, Ref(m, "c"), {}).0 == Some(Ref(m, "c"))
    ensures Declared(world, main, 0, [], Place(main, 0), Ref(m, "r"))
    ensures Declared(world, main, 0, [Place(main, 1)], Place(m, 0), Ref(m, "c"))
  {
    var c, inner := Place(main, 1), [Place(main, 1)];
    assert CallsOn(world, Ref(m, "r"), c) && ChildAt(world, c) == Ref(m, "c");
    assert inner[1..] == [] && Reaches(world, Ref(m, "c"), inner[1..], Ref(m, "c"));
    assert Reaches(world, Ref(m, "r"), [], Ref(m, "r"));
  }

  lemma SplitEmpty(world: World, main: string, m: string)
    requires main != m && world == Split(main, m)
    requires Canonical(world, Ref(main, "r"), {}) == (Some(Ref(m, "r")), [])
    requires Canonical(world, Ref(m, "r"), {}) == (Some(Ref(m, "r")), [])
    requires Canonical(world, Ref(m, "c"), {}) == (Some(Ref(m, "c")), [])
    ensures AppInventory(world, main, []) == State(map[], [])
  {
    var st, via := State(map[], []), [Place(main, 0)];
    assert CollectDirect(main, [], 0) == st;
    LibraryEmpty(world, m, via, st);
    assert CollectMount(world, main, 0, st) == st;
    assert CollectMounts(world, main, 0, st) == st && CollectMounts(world, main, 1, st) == st;
    assert CollectMounts(world, main, 2, st) == st;
  }

  lemma LibraryEmpty(world: World, m: string, via: seq<Place>, st: State)
    requires m in world && world[m] == Library(m)
    requires Canonical(world, Ref(m, "r"), {}) == (Some(Ref(m, "r")), [])
    requires Canonical(world, Ref(m, "c"), {}) == (Some(Ref(m, "c")), [])
    ensures Collect(world, Ref(m, "r"), "", false, {}, via, st) == st
  {
    var router := Ref(m, "r");
    assert st.errors + [] == st.errors && "" + "" == "";
    assert CollectRoutes(world, router, "", false, via, 0, st) == st;
    assert CollectRoute(world, router, "", false, via, 0, st) == st;
    assert CollectRoutes(world, router, "", false, via, 1, st) == st;
    assert CollectIncludes(world, router, "", false, {}, via, 0, st) == st;
  }
}
