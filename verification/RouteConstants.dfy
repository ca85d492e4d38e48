/** String constants of a route module: `_route_static_string` and the `while changed` loop of
    `_route_string_bindings` in `platform_contract_inventory.py`. */
module RouteConstants {
  import opened Text
  import opened PyAst

  /** An assignment with a value to a single name, or any other statement. */
  datatype Statement = Binding(name: string, value: Expr) | Other

  type Bindings = map<string, string>

  function Get(b: Bindings, name: string): Option<string> {
    if name in b then Some(b[name]) else None
  }

  /** `_route_static_string` */
  function StaticString(e: Expr, b: Bindings): Option<string> {
    match e
    case Const(Str(s)) => Some(s)
    case Name(id) => Get(b, id)
    case Add(left, right) =>
      var l, r := StaticString(left, b), StaticString(right, b);
      if l.Some? && r.Some? then Some(l.value + r.value) else None
    case _ => None
  }

  // ----- The assignments as equations -----

  /** Every assignment whose value is known has given its name that value. */
  ghost predicate Holds(st: Statement, b: Bindings) {
    st.Binding? && StaticString(st.value, b).Some? ==> Get(b, st.name) == StaticString(st.value, b)
  }

  ghost predicate Closed(body: seq<Statement>, b: Bindings) {
    forall i :: 0 <= i < |body| ==> Holds(body[i], b)
  }

  /** Every bound name is bound to the value of one of its assignments. */
  ghost predicate Supported(body: seq<Statement>, b: Bindings) {
    forall name :: name in b ==> exists i :: Gives(body, i, b, name, b[name])
  }

  ghost predicate Gives(body: seq<Statement>, i: int, b: Bindings, name: string, value: string) {
    0 <= i < |body| && body[i].Binding? && body[i].name == name && StaticString(body[i].value, b) == Some(value)
  }

  ghost predicate Solvable(body: seq<Statement>) {
    exists b :: Closed(body, b)
  }

  ghost predicate Within(b: Bindings, c: Bindings) {
    forall name :: name in b ==> name in c && c[name] == b[name]
  }

  ghost predicate Least(body: seq<Statement>, b: Bindings) {
    Closed(body, b) && forall c :: Closed(body, c) ==> Within(b, c)
  }

  ghost predicate AssignsOnce(body: seq<Statement>) {
    forall i, j :: 0 <= i < j < |body| && body[i].Binding? && body[j].Binding? ==> body[i].name != body[j].name
  }

  ghost function Targets(body: seq<Statement>): set<string> {
    set i | 0 <= i < |body| && body[i].Binding? :: body[i].name
  }

  // ----- One statement, one pass, many passes -----

  function Update(st: Statement, b: Bindings): Bindings {
    if st.Binding? && StaticString(st.value, b).Some? then b[st.name := StaticString(st.value, b).value] else b
  }

  /** The bindings after the first `k` statements of a pass. */
  function Partial(body: seq<Statement>, k: nat, b: Bindings): Bindings
    requires k <= |body|
  {
    if k == 0 then b else Update(body[k - 1], Partial(body, k - 1, b))
  }

  function Passes(body: seq<Statement>, n: nat): Bindings {
    if n == 0 then map[] else Partial(body, |body|, Passes(body, n - 1))
  }

  /** The pass finds something to change. */
  ghost predicate Changes(body: seq<Statement>, b: Bindings) {
    exists k :: 0 <= k < |body| && Moves(body, k, b)
  }

  ghost predicate Moves(body: seq<Statement>, k: nat, b: Bindings)
    requires k < |body|
  {
    Partial(body, k + 1, b) != Partial(body, k, b)
  }

  lemma {:induction false} StaticMonotone(e: Expr, b: Bindings, c: Bindings)
    requires Within(b, c)
    ensures StaticString(e, b).Some? ==> StaticString(e, c) == StaticString(e, b)
    decreases e
  {
    if e.Add? {
      StaticMonotone(e.left, b, c);
      StaticMonotone(e.right, b, c);
    }
  }

  /** Below a solution, a statement only adds. */
  lemma UpdateBelow(st: Statement, b: Bindings, c: Bindings)
    requires Within(b, c) && Holds(st, c)
    ensures Within(b, Update(st, b)) && Within(Update(st, b), c)
    ensures Update(st, b) != b ==> Update(st, b).Keys > b.Keys
  {
    if st.Binding? {
      StaticMonotone(st.value, b, c);
      if Update(st, b) != b {
        assert st.name !in b;
      }
    }
  }

  lemma {:induction false} PartialBelow(body: seq<Statement>, k: nat, b: Bindings, c: Bindings)
    requires Within(b, c) && Closed(body, c) && k <= |body|
    ensures Within(b, Partial(body, k, b)) && Within(Partial(body, k, b), c)
    ensures forall j :: 0 <= j < k && Moves(body, j, b) ==> Partial(body, k, b).Keys > b.Keys
  {
    if k > 0 {
      PartialBelow(body, k - 1, b, c);
      UpdateBelow(body[k - 1], Partial(body, k - 1, b), c);
    }
  }

  lemma {:induction false} PartialTargets(body: seq<Statement>, k: nat, b: Bindings)
    requires k <= |body|
    ensures Partial(body, k, b).Keys <= b.Keys + Targets(body)
  {
    if k > 0 {
      PartialTargets(body, k - 1, b);
    }
  }

  /** A pass changes nothing exactly when every equation already holds. */
  lemma {:induction false} QuietIsClosed(body: seq<Statement>, b: Bindings)
    ensures !Changes(body, b) <==> Closed(body, b)
  {
    if !Changes(body, b) {
      forall i | 0 <= i < |body| ensures Holds(body[i], b) {
        Unmoved(body, i, b);
        assert !Moves(body, i, b);
      }
    }
    if Closed(body, b) {
      forall k | 0 <= k < |body| ensures !Moves(body, k, b) {
        StaysPut(body, k, b);
        assert Holds(body[k], b);
      }
    }
  }

  lemma {:induction false} Unmoved(body: seq<Statement>, k: nat, b: Bindings)
    requires k <= |body| && !Changes(body, b)
    ensures Partial(body, k, b) == b
  {
    if k > 0 {
      Unmoved(body, k - 1, b);
      assert !Moves(body, k - 1, b);
    }
  }

  lemma {:induction false} StaysPut(body: seq<Statement>, k: nat, b: Bindings)
    requires k <= |body| && Closed(body, b)
    ensures Partial(body, k, b) == b
  {
    if k > 0 {
      StaysPut(body, k - 1, b);
      assert Holds(body[k - 1], b);
    }
  }

  // ----- Supported values stay supported -----

  lemma UpdateSupported(body: seq<Statement>, k: nat, b: Bindings, c: Bindings)
    requires k < |body| && Within(b, c) && Closed(body, c) && Supported(body, b)
    ensures Supported(body, Update(body[k], b))
  {
    var st, b' := body[k], Update(body[k], b);
    assert Holds(st, c);
    UpdateBelow(st, b, c);
    forall name | name in b' ensures exists i :: Gives(body, i, b', name, b'[name]) {
      if name in b {
        var i :| Gives(body, i, b, name, b[name]);
        StaticMonotone(body[i].value, b, b');
        assert Gives(body, i, b', name, b'[name]);
      } else {
        StaticMonotone(st.value, b, b');
        assert Gives(body, k, b', name, b'[name]);
      }
    }
  }

  lemma {:induction false} PartialSupported(body: seq<Statement>, k: nat, b: Bindings, c: Bindings)
    requires k <= |body| && Within(b, c) && Closed(body, c) && Supported(body, b)
    ensures Supported(body, Partial(body, k, b))
  {
    if k > 0 {
      PartialSupported(body, k - 1, b, c);
      PartialBelow(body, k - 1, b, c);
      UpdateSupported(body, k - 1, Partial(body, k - 1, b), c);
    }
  }

  // ----- The loop -----

  lemma {:induction false} PassesBelow(body: seq<Statement>, n: nat, c: Bindings)
    requires Closed(body, c)
    ensures Within(Passes(body, n), c) && Supported(body, Passes(body, n))
    ensures Passes(body, n).Keys <= Targets(body)
  {
    if n > 0 {
      PassesBelow(body, n - 1, c);
      PartialBelow(body, |body|, Passes(body, n - 1), c);
      PartialSupported(body, |body|, Passes(body, n - 1), c);
      PartialTargets(body, |body|, Passes(body, n - 1));
    }
  }

  lemma PassGrows(body: seq<Statement>, b: Bindings, c: Bindings)
    requires Closed(body, c) && Within(b, c) && Changes(body, b)
    ensures |Partial(body, |body|, b).Keys| > |b.Keys|
  {
    PartialBelow(body, |body|, b, c);
    var k :| 0 <= k < |body| && Moves(body, k, b);
    SubsetSize(b.Keys, Partial(body, |body|, b).Keys);
  }

  ghost predicate Busy(body: seq<Statement>, n: nat) {
    Changes(body, Passes(body, n))
  }

  /** Each pass that changes something binds a name for the first time. */
  lemma {:induction false} PassesGrow(body: seq<Statement>, n: nat, c: Bindings)
    requires Closed(body, c)
    requires forall j: nat :: j < n ==> Busy(body, j)
    ensures |Passes(body, n).Keys| >= n
  {
    if n > 0 {
      PassesGrow(body, n - 1, c);
      PassesBelow(body, n - 1, c);
      assert Busy(body, n - 1);
      PassGrows(body, Passes(body, n - 1), c);
    }
  }

  lemma {:induction false} SubsetSize<T>(a: set<T>, b: set<T>)
    requires a <= b
    ensures |a| <= |b| && (a != b ==> |a| < |b|)
  {
    assert b == a + (b - a);
    assert a != b ==> b - a != {};
  }

  /** The loop ends exactly when the assignments have a solution, and then within one pass more than
      there are names to bind. */
  lemma {:induction false} LoopEndsIffSolvable(body: seq<Statement>)
    ensures Solvable(body) <==> exists n: nat :: !Busy(body, n)
    ensures Solvable(body) ==> exists n: nat :: n <= |Targets(body)| && !Busy(body, n)
  {
    if Solvable(body) {
      var c :| Closed(body, c);
      var n := |Targets(body)| + 1;
      if forall j: nat :: j < n ==> Busy(body, j) {
        RoomForAnother(body, n, c);
        assert false;
      }
    }
    if exists n: nat :: !Busy(body, n) {
      var n: nat :| !Busy(body, n);
      QuietIsClosed(body, Passes(body, n));
      assert Closed(body, Passes(body, n));
    }
  }

  /** The `for` loop of one pass. */
  method OnePass(body: seq<Statement>, before: Bindings) returns (bindings: Bindings, changed: bool)
    ensures bindings == Partial(body, |body|, before)
    ensures changed <==> Changes(body, before)
  {
    bindings, changed := before, false;
    for k := 0 to |body|
      invariant bindings == Partial(body, k, before)
      invariant changed <==> exists j :: 0 <= j < k && Moves(body, j, before)
    {
      var st := body[k];
      ghost var moved := changed;
      if st.Binding? {
        var value := StaticString(st.value, bindings);
        if value.Some? && Get(bindings, st.name) != value {
          bindings := bindings[st.name := value.value];
          changed := true;
        }
      }
      assert Partial(body, k + 1, before) == bindings;
      assert changed <==> moved || Moves(body, k, before);
    }
  }

  /** `_route_string_bindings` */
  method RouteStringBindings(body: seq<Statement>) returns (bindings: Bindings, ghost passes: nat)
    requires Solvable(body)
    ensures Least(body, bindings) && Supported(body, bindings)
    ensures 1 <= passes <= |Targets(body)| + 1 && bindings == Passes(body, passes)
  {
    ghost var c :| Closed(body, c);
    bindings, passes := map[], 0;
    var changed := true;
    while changed
      invariant bindings == Passes(body, passes)
      invariant passes > 0 || changed
      invariant changed ==> forall j: nat :: j < passes ==> Busy(body, j)
      invariant !changed ==> Closed(body, bindings)
      invariant passes <= |Targets(body)| + 1
      decreases changed, |Targets(body)| + 1 - passes
    {
      RoomForAnother(body, passes, c);
      ghost var before := bindings;
      bindings, changed := OnePass(body, bindings);
      passes := passes + 1;
      assert changed <==> Busy(body, passes - 1);
      if !changed {
        QuietIsClosed(body, before);
        StaysPut(body, |body|, before);
      } else {
        RoomForAnother(body, passes, c);
      }
    }
    forall d | Closed(body, d) ensures Within(bindings, d) {
      PassesBelow(body, passes, d);
    }
    PassesBelow(body, passes, c);
  }

  lemma RoomForAnother(body: seq<Statement>, n: nat, c: Bindings)
    requires Closed(body, c) && forall j: nat :: j < n ==> Busy(body, j)
    ensures n <= |Targets(body)|
  {
    PassesGrow(body, n, c);
    PassesBelow(body, n, c);
    SubsetSize(Passes(body, n).Keys, Targets(body));
  }

  // ----- When there is a solution -----

  /** With one assignment for each name, a supported table can be extended until it is closed. */
  lemma {:induction false} Extend(body: seq<Statement>, b: Bindings) returns (c: Bindings)
    requires AssignsOnce(body) && Supported(body, b) && b.Keys <= Targets(body)
    ensures Closed(body, c)
    decreases Targets(body) - b.Keys
  {
    if Closed(body, b) {
      return b;
    }
    var k :| 0 <= k < |body| && !Holds(body[k], b);
    var st := body[k];
    assert st.name !in b by {
      assert st.name in b ==> exists i :: Gives(body, i, b, st.name, b[st.name]);
      assert forall i, v :: Gives(body, i, b, st.name, v) ==> i == k;
    }
    var b' := Update(st, b);
    forall name | name in b' ensures exists i :: Gives(body, i, b', name, b'[name]) {
      if name in b {
        var i :| Gives(body, i, b, name, b[name]);
        StaticMonotone(body[i].value, b, b');
        assert Gives(body, i, b', name, b'[name]);
      } else {
        StaticMonotone(st.value, b, b');
        assert Gives(body, k, b', name, b'[name]);
      }
    }
    assert st.name in Targets(body) - b.Keys;
    c := Extend(body, b');
  }

  /** Assigning each name once is enough, cyclic references included. */
  lemma AssignsOnceSolvable(body: seq<Statement>)
    requires AssignsOnce(body)
    ensures Solvable(body)
  {
    var c := Extend(body, map[]);
  }

  /** Two different constants for one name are too many: the loop then never ends. */
  lemma TwoValuesNeverSettle(body: seq<Statement>, i: nat, j: nat, name: string, x: string, y: string)
    requires i < |body| && j < |body| && x != y
    requires body[i] == Binding(name, Const(Str(x))) && body[j] == Binding(name, Const(Str(y)))
    ensures !Solvable(body) && forall n: nat :: Busy(body, n)
  {
    forall c: Bindings ensures !Closed(body, c) {
      assert Holds(body[i], c) ==> Get(c, name) == Some(x);
      assert Holds(body[j], c) ==> Get(c, name) == Some(y);
    }
    LoopEndsIffSolvable(body);
  }

  /** With one assignment for each name the result is the solution of the assignments read as equations:
      a name is bound to the value of its right-hand side, and unbound when that has none. */
  lemma LeastIsSolution(body: seq<Statement>, b: Bindings, i: nat)
    requires AssignsOnce(body) && Closed(body, b) && Supported(body, b)
    requires i < |body| && body[i].Binding?
    ensures Get(b, body[i].name) == StaticString(body[i].value, b)
  {
    assert Holds(body[i], b);
    var name := body[i].name;
    if name in b {
      var j :| Gives(body, j, b, name, b[name]);
      assert j == i;
    }
  }

  /** The order of the statements, and repeating one of them, makes no difference. */
  lemma OrderIrrelevant(body: seq<Statement>, other: seq<Statement>, b: Bindings, c: Bindings)
    requires forall st :: st in body <==> st in other
    requires Least(body, b) && Least(other, c)
    ensures b == c
  {
    forall d: Bindings ensures Closed(body, d) <==> Closed(other, d) {
      SameEquations(body, other, d);
      SameEquations(other, body, d);
    }
    assert Within(b, c) && Within(c, b);
  }

  lemma SameEquations(body: seq<Statement>, other: seq<Statement>, b: Bindings)
    requires forall st :: st in other ==> st in body
    ensures Closed(body, b) ==> Closed(other, b)
  {
    if Closed(body, b) {
      forall i | 0 <= i < |other| ensures Holds(other[i], b) {
        assert other[i] in body;
      }
    }
  }
}
