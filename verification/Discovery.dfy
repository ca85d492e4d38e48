/** `_discovery_function_strings` of `platform_checker_ast.py`: the strings of all functions that the
    discovery functions reach through calls by name. */
module Discovery {
  import opened Text
  import opened PyAst

  /** A node under a function: its static string, if it has one, and the name it calls, if it calls one. */
  datatype Node = Node(text: Option<string>, call: Option<string>)

  /** The functions of a module, each with the nodes that `ast.walk` meets. */
  type Functions = map<string, seq<Node>>

  predicate Calls(functions: Functions, f: string, g: string) {
    f in functions && g in functions && exists i :: 0 <= i < |functions[f]| && functions[f][i].call == Some(g)
  }

  // ----- Reachability -----

  ghost predicate CallPath(functions: Functions, path: seq<string>) {
    |path| > 0 && path[0] in functions && forall i :: 0 < i < |path| ==> Calls(functions, path[i - 1], path[i])
  }

  ghost predicate Reachable(functions: Functions, roots: seq<string>, f: string) {
    exists path :: CallPath(functions, path) && path[0] in roots && path[|path| - 1] == f
  }

  lemma ReachRoot(functions: Functions, roots: seq<string>, f: string)
    requires f in roots && f in functions
    ensures Reachable(functions, roots, f)
  {
    assert CallPath(functions, [f]) && [f][0] in roots && [f][|[f]| - 1] == f;
  }

  lemma ReachCallee(functions: Functions, roots: seq<string>, f: string, g: string)
    requires Reachable(functions, roots, f) && Calls(functions, f, g)
    ensures Reachable(functions, roots, g)
  {
    var path :| CallPath(functions, path) && path[0] in roots && path[|path| - 1] == f;
    var longer := path + [g];
    forall i | 0 < i < |longer| ensures Calls(functions, longer[i - 1], longer[i]) {
      assert i < |path| ==> longer[i - 1] == path[i - 1] && longer[i] == path[i];
    }
    assert CallPath(functions, longer) && longer[0] in roots && longer[|longer| - 1] == g;
  }

  /** A set that holds the roots and is closed under calls holds everything reachable. */
  lemma {:induction false} ClosedHoldsAll(functions: Functions, roots: seq<string>, all: set<string>, path: seq<string>)
    requires forall f :: f in roots && f in functions ==> f in all
    requires forall f, g :: f in all && Calls(functions, f, g) ==> g in all
    requires CallPath(functions, path) && path[0] in roots
    ensures path[|path| - 1] in all
    decreases |path|
  {
    if |path| > 1 {
      var shorter := path[..|path| - 1];
      forall i | 0 < i < |shorter| ensures Calls(functions, shorter[i - 1], shorter[i]) {
        assert shorter[i - 1] == path[i - 1] && shorter[i] == path[i];
      }
      ClosedHoldsAll(functions, roots, all, shorter);
      assert Calls(functions, path[|path| - 1 - 1], path[|path| - 1]);
    }
  }

  // ----- Strings -----

  ghost predicate Says(nodes: seq<Node>, s: string) {
    exists i :: 0 <= i < |nodes| && nodes[i].text.Some? && AsciiLower(nodes[i].text.value) == s
  }

  // ----- The worklist -----

  /** What the loop keeps: only reachable functions are met, nothing met is forgotten, and the strings are
      those of the functions visited. */
  ghost predicate Invariant(functions: Functions, roots: seq<string>, pending: seq<string>, visited: set<string>,
                            strings: set<string>) {
    && (forall f :: f in visited || f in pending ==> f in functions && Reachable(functions, roots, f))
    && (forall f :: f in roots && f in functions ==> f in visited || f in pending)
    && (forall f, g :: f in visited && Calls(functions, f, g) ==> g in visited || g in pending)
    && (forall s :: s in strings <==> exists f :: f in visited && f in functions && Says(functions[f], s))
  }

  lemma Begin(functions: Functions, roots: seq<string>, pending: seq<string>)
    requires forall f :: f in pending <==> f in roots && f in functions
    ensures Invariant(functions, roots, pending, {}, {})
  {
    forall f | f in pending ensures Reachable(functions, roots, f) {
      ReachRoot(functions, roots, f);
    }
  }

  lemma Skip(functions: Functions, roots: seq<string>, rest: seq<string>, name: string, visited: set<string>,
             strings: set<string>)
    requires Invariant(functions, roots, rest + [name], visited, strings) && name in visited
    ensures Invariant(functions, roots, rest, visited, strings)
  {
    assert forall f :: f in rest + [name] <==> f in rest || f == name;
  }

  lemma Visit(functions: Functions, roots: seq<string>, rest: seq<string>, name: string, visited: set<string>,
              strings: set<string>,
              added: seq<string>, found: set<string>)
    requires Invariant(functions, roots, rest + [name], visited, strings) && name in functions
    requires forall g :: g in added <==> Calls(functions, name, g) && g !in visited + {name}
    requires forall s :: s in found <==> Says(functions[name], s)
    ensures Invariant(functions, roots, rest + added, visited + {name}, strings + found)
  {
    assert name in rest + [name];
    assert forall f :: f in rest + [name] <==> f in rest || f == name;
    assert forall f :: f in rest + added <==> f in rest || f in added;
    forall g | g in added ensures g in functions && Reachable(functions, roots, g) {
      ReachCallee(functions, roots, name, g);
    }
  }

  lemma Done(functions: Functions, roots: seq<string>, visited: set<string>, strings: set<string>)
    requires Invariant(functions, roots, [], visited, strings)
    ensures forall f :: f in visited <==> Reachable(functions, roots, f)
    ensures forall s :: s in strings <==>
      exists f :: Reachable(functions, roots, f) && f in functions && Says(functions[f], s)
  {
    forall f | Reachable(functions, roots, f) ensures f in visited {
      var path :| CallPath(functions, path) && path[0] in roots && path[|path| - 1] == f;
      ClosedHoldsAll(functions, roots, visited, path);
    }
  }

  /** The loop over the nodes of one function. */
  method VisitNodes(functions: Functions, name: string, visited: set<string>)
      returns (added: seq<string>, strings: set<string>)
    requires name in functions && name in visited
    ensures forall g :: g in added <==> Calls(functions, name, g) && g !in visited
    ensures forall s :: s in strings <==> Says(functions[name], s)
  {
    added, strings := [], {};
    var nodes := functions[name];
    for k := 0 to |nodes|
      invariant forall g :: g in added <==>
        g in functions && g !in visited && exists i :: 0 <= i < k && nodes[i].call == Some(g)
      invariant forall s :: s in strings <==>
        exists i :: 0 <= i < k && nodes[i].text.Some? && AsciiLower(nodes[i].text.value) == s
    {
      var node := nodes[k];
      if node.text.Some? {
        strings := strings + {AsciiLower(node.text.value)};
      }
      if node.call.Some? && node.call.value in functions && node.call.value !in visited {
        added := added + [node.call.value];
      }
    }
  }

  function Present(functions: Functions, roots: seq<string>): (present: seq<string>)
    ensures forall f :: f in present <==> f in roots && f in functions
  {
    if |roots| == 0 then []
    else
      var init, last := roots[..|roots| - 1], roots[|roots| - 1];
      assert roots == init + [last];
      Present(functions, init) + if last in functions then [last] else []
  }

  /** The loop over the pending functions; a name may be pending more than once. */
  method Search(functions: Functions, roots: seq<string>, start: seq<string>)
      returns (visited: set<string>, strings: set<string>)
    requires Invariant(functions, roots, start, {}, {})
    ensures Invariant(functions, roots, [], visited, strings)
  {
    var pending := start;
    visited, strings := {}, {};
    while |pending| > 0
      invariant Invariant(functions, roots, pending, visited, strings)
      decreases functions.Keys - visited, |pending|
    {
      pending, visited, strings := Round(functions, roots, pending, visited, strings);
    }
    assert pending == [];
  }

  /** One round: drop a name visited before, or visit its function. */
  method Round(functions: Functions, roots: seq<string>, pending: seq<string>, visited: set<string>,
               strings: set<string>)
      returns (pending': seq<string>, visited': set<string>, strings': set<string>)
    requires |pending| > 0 && Invariant(functions, roots, pending, visited, strings)
    ensures Invariant(functions, roots, pending', visited', strings')
    ensures (visited' == visited && |pending'| < |pending|) || (visited < visited' && visited' <= functions.Keys)
  {
    var name := pending[|pending| - 1];
    var rest := pending[..|pending| - 1];
    assert pending == rest + [name];
    if name in visited {
      Skip(functions, roots, rest, name, visited, strings);
      return rest, visited, strings;
    }
    assert name in pending;
    var added, found := VisitNodes(functions, name, visited + {name});
    Visit(functions, roots, rest, name, visited, strings, added, found);
    return rest + added, visited + {name}, strings + found;
  }

  /** `_discovery_function_strings` */
  method DiscoveryStrings(functions: Functions, roots: seq<string>)
      returns (missing: set<string>, visited: set<string>, strings: set<string>)
    ensures missing == set f | f in roots && f !in functions
    ensures forall f :: f in visited <==> Reachable(functions, roots, f)
    ensures forall s :: s in strings <==>
      exists f :: Reachable(functions, roots, f) && f in functions && Says(functions[f], s)
  {
    missing := set f | f in roots && f !in functions;
    var start := Present(functions, roots);
    Begin(functions, roots, start);
    visited, strings := Search(functions, roots, start);
    Done(functions, roots, visited, strings);
  }
}
