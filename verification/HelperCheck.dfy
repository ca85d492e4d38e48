/** `_helper_preserves_client_parameters`: whether a local helper, and every helper it passes a client
    on to, leaves the client alone. */
module HelperCheck {
  import opened Text
  import opened PyAst

  /** The executable nodes of a function body that the check distinguishes. `Inner` is a nested
      function, given by the names under it. */
  datatype Node =
    | AssignNode(targets: seq<Expr>, value: Expr)
    | AnnAssignNode(target: Expr, annotated: Option<Expr>)
    | AugAssignNode(target: Expr)
    | DeleteNode(targets: seq<Expr>)
    | CallNode(call: Expr)
    | Inner(names: set<string>)

  datatype Helper = Helper(positional: seq<string>, kwonly: seq<string>, nodes: seq<Node>, names: set<string>)

  type Helpers = map<string, Helper>

  function HttpMethods(): set<string> {
    {"get", "post", "put", "patch", "delete"}
  }

  /** `_assignment_names` */
  function AssignmentNames(target: Expr): seq<string> {
    match target
    case Name(id) => [id]
    case Tuple(elts) => AllAssignmentNames(elts)
    case _ => []
  }

  function AllAssignmentNames(elts: seq<Expr>): seq<string> {
    if |elts| == 0 then [] else AllAssignmentNames(elts[..|elts| - 1]) + AssignmentNames(elts[|elts| - 1])
  }

  /** A node that gives one name the value of another: (from, to). */
  function AliasStep(node: Node): Option<(string, string)> {
    match node
    case AssignNode(targets, value) =>
      if |targets| == 1 && |AssignmentNames(targets[0])| == 1 && value.Name?
      then Some((value.id, AssignmentNames(targets[0])[0])) else None
    case AnnAssignNode(target, Some(value)) =>
      if |AssignmentNames(target)| == 1 && value.Name? then Some((value.id, AssignmentNames(target)[0])) else None
    case _ => None
  }

  // ----- Aliases of the parameters -----

  ghost predicate Closed(aliases: set<string>, nodes: seq<Node>) {
    forall i :: 0 <= i < |nodes| && AliasStep(nodes[i]).Some? && AliasStep(nodes[i]).value.0 in aliases ==>
      AliasStep(nodes[i]).value.1 in aliases
  }

  /** The smallest set that holds the parameters and follows every alias step. */
  ghost predicate IsAliasClosure(aliases: set<string>, parameters: set<string>, nodes: seq<Node>) {
    && parameters <= aliases
    && Closed(aliases, nodes)
    && forall other: set<string> :: parameters <= other && Closed(other, nodes) ==> aliases <= other
  }

  function StepTargets(nodes: seq<Node>): set<string> {
    set i | 0 <= i < |nodes| && AliasStep(nodes[i]).Some? :: AliasStep(nodes[i]).value.1
  }

  /** One sweep over the nodes. */
  function Sweep(nodes: seq<Node>, aliases: set<string>): (grown: set<string>)
    ensures aliases <= grown <= aliases + StepTargets(nodes)
  {
    if |nodes| == 0 then aliases
    else
      var init, last := nodes[..|nodes| - 1], nodes[|nodes| - 1];
      var swept := Sweep(init, aliases);
      assert StepTargets(init) <= StepTargets(nodes) by {
        forall n | n in StepTargets(init) ensures n in StepTargets(nodes) {
          var i :| 0 <= i < |init| && AliasStep(init[i]).Some? && AliasStep(init[i]).value.1 == n;
          assert AliasStep(nodes[i]) == AliasStep(init[i]);
        }
      }
      if AliasStep(last).Some? && AliasStep(last).value.0 in swept then swept + {AliasStep(last).value.1} else swept
  }

  function AliasClosure(nodes: seq<Node>, aliases: set<string>): set<string>
    decreases StepTargets(nodes) - aliases
  {
    var grown := Sweep(nodes, aliases);
    if grown == aliases then aliases else AliasClosure(nodes, grown)
  }

  lemma {:induction false} SweepInside(nodes: seq<Node>, aliases: set<string>, other: set<string>)
    requires aliases <= other && Closed(other, nodes)
    ensures Sweep(nodes, aliases) <= other
  {
    if |nodes| > 0 {
      var init := nodes[..|nodes| - 1];
      assert Closed(other, init);
      SweepInside(init, aliases, other);
    }
  }

  lemma {:induction false} SweepStable(nodes: seq<Node>, aliases: set<string>)
    requires Sweep(nodes, aliases) == aliases
    ensures Closed(aliases, nodes)
  {
    if |nodes| > 0 {
      SweepStable(nodes[..|nodes| - 1], aliases);
    }
  }

  lemma {:induction false} AliasClosureIsLeast(nodes: seq<Node>, aliases: set<string>)
    ensures IsAliasClosure(AliasClosure(nodes, aliases), aliases, nodes)
    decreases StepTargets(nodes) - aliases
  {
    var grown := Sweep(nodes, aliases);
    if grown == aliases {
      SweepStable(nodes, aliases);
    } else {
      AliasClosureIsLeast(nodes, grown);
      forall other: set<string> | aliases <= other && Closed(other, nodes) ensures grown <= other {
        SweepInside(nodes, aliases, other);
      }
    }
  }

  /** The `while changed` loop. */
  method ComputeAliases(nodes: seq<Node>, parameters: set<string>) returns (aliases: set<string>)
    ensures aliases == AliasClosure(nodes, parameters)
    ensures IsAliasClosure(aliases, parameters, nodes)
  {
    aliases := parameters;
    var changed := true;
    while changed
      invariant AliasClosure(nodes, aliases) == AliasClosure(nodes, parameters)
      invariant !changed ==> aliases == AliasClosure(nodes, aliases)
      decreases StepTargets(nodes) - aliases, changed
    {
      changed := false;
      ghost var before := aliases;
      for k := 0 to |nodes|
        invariant aliases == Sweep(nodes[..k], before)
        invariant changed <==> aliases != before
      {
        assert nodes[..k + 1][..k] == nodes[..k];
        var step := AliasStep(nodes[k]);
        if step.Some? && step.value.0 in aliases && step.value.1 !in aliases {
          aliases := aliases + {step.value.1};
          changed := true;
        } else if step.Some? && step.value.0 in aliases {
          assert aliases + {step.value.1} == aliases;
        }
      }
      assert nodes[..|nodes|] == nodes;
    }
    AliasClosureIsLeast(nodes, parameters);
  }

  // ----- One function -----

  /** `_safe_client_method_call` */
  predicate SafeClientMethodCall(e: Expr, aliases: set<string>) {
    var call := StripAwait(e);
    && call.Call? && call.func.Attr? && call.func.base.Name? && call.func.base.id in aliases
    && call.func.attr in HttpMethods() + {"request", "close", "aclose"}
  }

  /** `_mutation_call` */
  predicate MutationCall(e: Expr, watched: set<string>) {
    var call := StripAwait(e);
    && call.Call?
    && DottedName(call.func) in {Some("setattr"), Some("monkeypatch.setattr"), Some("object.__setattr__")}
    && |call.args| >= 2
    && (var target := RootName(call.args[0]);
        target.Some? && target.value in watched && call.args[1].Const? && call.args[1].lit.Str?)
  }

  predicate Uses(e: Expr, aliases: set<string>) {
    Names(e) * aliases != {}
  }

  /** The parameter that argument `i` of a call is bound to, when it passes an alias directly. */
  function PositionalParameters(args: seq<Expr>, positional: seq<string>, aliases: set<string>): Option<seq<string>> {
    if |args| == 0 then Some([])
    else
      var last := |args| - 1;
      match PositionalParameters(args[..last], positional, aliases)
      case None => None
      case Some(selected) =>
        if !Uses(args[last], aliases) then Some(selected)
        else if last >= |positional| || !args[last].Name? || args[last].id !in aliases then None
        else Some(selected + [positional[last]])
  }

  function KeywordParameters(keywords: seq<Keyword>, names: set<string>, aliases: set<string>): Option<seq<string>> {
    if |keywords| == 0 then Some([])
    else
      var last := keywords[|keywords| - 1];
      match KeywordParameters(keywords[..|keywords| - 1], names, aliases)
      case None => None
      case Some(selected) =>
        if !Uses(last.value, aliases) then Some(selected)
        else if last.arg.None? || last.arg.value !in names || !last.value.Name? || last.value.id !in aliases then None
        else Some(selected + [last.arg.value])
  }

  function ParameterNames(helper: Helper): set<string> {
    (set p | p in helper.positional) + (set p | p in helper.kwonly)
  }

  /** `_call_parameters_receiving_aliases` */
  function ReceivingParameters(call: Expr, helper: Helper, aliases: set<string>): Option<seq<string>>
    requires call.Call?
  {
    match PositionalParameters(call.args, helper.positional, aliases)
    case None => None
    case Some(selected) =>
      match KeywordParameters(call.keywords, ParameterNames(helper), aliases)
      case None => None
      case Some(more) => Some(selected + more)
  }

  /** A helper together with the parameters that receive a client. The analyser sorts the parameters
      before it compares two such pairs, so only their multiset counts. */
  datatype Pair = Pair(helper: string, parameters: multiset<string>)

  datatype Verdict = Clean | Dirty | Passes(to: Pair)

  function NodeVerdict(node: Node, aliases: set<string>, helpers: Helpers): Verdict {
    match node
    case Inner(names) => if names * aliases != {} then Dirty else Clean
    case AssignNode(targets, value) =>
      if exists i :: 0 <= i < |targets| && Rooted(targets[i], aliases) then Dirty
      else if Uses(value, aliases) && !(SafeClientMethodCall(value, aliases)
                                        || (|targets| == 1 && targets[0].Name? && value.Name? && value.id in aliases))
      then Dirty else Clean
    case AnnAssignNode(target, _) => if Rooted(target, aliases) then Dirty else Clean
    case AugAssignNode(target) => if Rooted(target, aliases) then Dirty else Clean
    case DeleteNode(targets) => if exists i :: 0 <= i < |targets| && Rooted(targets[i], aliases) then Dirty else Clean
    case CallNode(call) =>
      if !call.Call? then Clean
      else if MutationCall(call, aliases) then Dirty
      else if SafeClientMethodCall(call, aliases) then Clean
      else if Rooted(call.func, aliases) then Dirty
      else if !PassesAlias(call, aliases) then Clean
      else
        var name := DottedName(call.func);
        if name.None? || name.value !in helpers then Dirty
        else
          var selected := ReceivingParameters(call, helpers[name.value], aliases);
          if selected.None? || |selected.value| == 0 then Dirty else Passes(Pair(name.value, multiset(selected.value)))
  }

  predicate Rooted(e: Expr, aliases: set<string>) {
    RootName(e).Some? && RootName(e).value in aliases
  }

  predicate PassesAlias(call: Expr, aliases: set<string>)
    requires call.Call?
  {
    || (exists i :: 0 <= i < |call.args| && Uses(call.args[i], aliases))
    || (exists i :: 0 <= i < |call.keywords| && Uses(call.keywords[i].value, aliases))
  }

  function VerdictAt(pair: Pair, k: nat, helpers: Helpers): Verdict
    requires pair.helper in helpers && k < |helpers[pair.helper].nodes|
  {
    var nodes := helpers[pair.helper].nodes;
    NodeVerdict(nodes[k], AliasClosure(nodes, set p | p in pair.parameters), helpers)
  }

  // ----- All functions -----

  /** Multisets over `names` with at most `size` elements. */
  ghost function Bags(names: set<string>, size: nat): set<multiset<string>> {
    if size == 0 then {multiset{}}
    else Bags(names, size - 1) + set b, n | b in Bags(names, size - 1) && n in names :: b + multiset{n}
  }

  ghost function AllParameters(helpers: Helpers): set<string> {
    set h, p | h in helpers && p in ParameterNames(helpers[h]) :: p
  }

  ghost function NodeArguments(node: Node): nat {
    if node.CallNode? && node.call.Call? then |node.call.args| + |node.call.keywords| else 0
  }

  ghost function MostArguments(nodes: seq<Node>): (most: nat)
    ensures forall k :: 0 <= k < |nodes| ==> NodeArguments(nodes[k]) <= most
  {
    if |nodes| == 0 then 0
    else
      var init, here := MostArguments(nodes[..|nodes| - 1]), NodeArguments(nodes[|nodes| - 1]);
      assert forall k :: 0 <= k < |nodes| - 1 ==> nodes[k] == nodes[..|nodes| - 1][k];
      if init < here then here else init
  }

  ghost function PairsOf(helpers: Helpers, h: string): set<Pair>
    requires h in helpers
  {
    set g, b | g in helpers.Keys && b in Bags(AllParameters(helpers), MostArguments(helpers[h].nodes)) :: Pair(g, b)
  }

  /** Every key that some call in some helper can produce: a finite set. */
  ghost function Universe(helpers: Helpers): set<Pair> {
    set h, k | h in helpers && k in PairsOf(helpers, h) :: k
  }

  lemma {:induction false} BagsMonotone(names: set<string>, size: nat, more: nat)
    requires size <= more
    ensures Bags(names, size) <= Bags(names, more)
  {
    if size < more {
      BagsMonotone(names, size, more - 1);
    }
  }

  lemma {:induction false} InBags(names: set<string>, items: seq<string>, size: nat)
    requires |items| <= size && forall i :: 0 <= i < |items| ==> items[i] in names
    ensures multiset(items) in Bags(names, size)
  {
    if |items| == 0 {
      BagsMonotone(names, 0, size);
    } else {
      var init, last := items[..|items| - 1], items[|items| - 1];
      InBags(names, init, size - 1);
      assert items == init + [last];
      assert multiset(items) == multiset(init) + multiset{last};
    }
  }

  lemma {:induction false} PositionalInside(args: seq<Expr>, positional: seq<string>, aliases: set<string>)
    ensures var r := PositionalParameters(args, positional, aliases);
      r.Some? ==> |r.value| <= |args| && forall i :: 0 <= i < |r.value| ==> r.value[i] in positional
  {
    if |args| > 0 {
      PositionalInside(args[..|args| - 1], positional, aliases);
    }
  }

  lemma {:induction false} KeywordsInside(keywords: seq<Keyword>, names: set<string>, aliases: set<string>)
    ensures var r := KeywordParameters(keywords, names, aliases);
      r.Some? ==> |r.value| <= |keywords| && forall i :: 0 <= i < |r.value| ==> r.value[i] in names
  {
    if |keywords| > 0 {
      KeywordsInside(keywords[..|keywords| - 1], names, aliases);
    }
  }

  lemma PassesInUniverse(pair: Pair, k: nat, helpers: Helpers)
    requires pair.helper in helpers && k < |helpers[pair.helper].nodes| && VerdictAt(pair, k, helpers).Passes?
    ensures var to := VerdictAt(pair, k, helpers).to; to.helper in helpers && to in Universe(helpers)
  {
    var nodes := helpers[pair.helper].nodes;
    var aliases := AliasClosure(nodes, set p | p in pair.parameters);
    var call, to := nodes[k].call, VerdictAt(pair, k, helpers).to;
    var helper := helpers[to.helper];
    PositionalInside(call.args, helper.positional, aliases);
    KeywordsInside(call.keywords, ParameterNames(helper), aliases);
    assert NodeArguments(nodes[k]) <= MostArguments(nodes);
    var selected := ReceivingParameters(call, helper, aliases).value;
    forall i | 0 <= i < |selected| ensures selected[i] in AllParameters(helpers) {
      assert selected[i] in ParameterNames(helper);
    }
    InBags(AllParameters(helpers), selected, MostArguments(nodes));
    assert to in PairsOf(helpers, pair.helper);
  }

  /** The keys that remain to be met shrink along every call path. */
  lemma FewerLeft(from: Pair, to: Pair, helpers: Helpers, seen: set<Pair>)
    requires to in Universe(helpers) && from !in seen
    ensures (Universe(helpers) + {to}) - (seen + {from}) < (Universe(helpers) + {from}) - seen
  {
    assert from in (Universe(helpers) + {from}) - seen;
    assert from !in (Universe(helpers) + {to}) - (seen + {from});
  }

  /** `_helper_preserves_client_parameters` */
  function Preserves(pair: Pair, helpers: Helpers, seen: set<Pair>): bool
    requires pair.helper in helpers
    decreases (Universe(helpers) + {pair}) - seen, 2 * |helpers[pair.helper].nodes| + 2
  {
    pair !in seen && PreservesFrom(pair, helpers, seen, 0)
  }

  function PreservesFrom(pair: Pair, helpers: Helpers, seen: set<Pair>, k: nat): bool
    requires pair.helper in helpers && k <= |helpers[pair.helper].nodes| && pair !in seen
    decreases (Universe(helpers) + {pair}) - seen, 2 * (|helpers[pair.helper].nodes| - k) + 1
  {
    k == |helpers[pair.helper].nodes| || (Accepted(pair, helpers, seen, k) && PreservesFrom(pair, helpers, seen, k + 1))
  }

  /** The walk over the function can go on after node `k`. */
  function Accepted(pair: Pair, helpers: Helpers, seen: set<Pair>, k: nat): bool
    requires pair.helper in helpers && k < |helpers[pair.helper].nodes| && pair !in seen
    decreases (Universe(helpers) + {pair}) - seen, 2 * (|helpers[pair.helper].nodes| - k)
  {
    match VerdictAt(pair, k, helpers)
    case Clean => true
    case Dirty => false
    case Passes(to) =>
      PassesInUniverse(pair, k, helpers);
      FewerLeft(pair, to, helpers, seen);
      Preserves(to, helpers, seen + {pair})
  }

  // ----- Exactness -----

  /** Every node of the function is harmless, and every call that passes an alias on resolves. */
  ghost predicate LocallyClean(pair: Pair, helpers: Helpers)
    requires pair.helper in helpers
  {
    forall k :: 0 <= k < |helpers[pair.helper].nodes| ==> !VerdictAt(pair, k, helpers).Dirty?
  }

  ghost predicate PassesTo(pair: Pair, to: Pair, helpers: Helpers)
    requires pair.helper in helpers
  {
    exists k :: 0 <= k < |helpers[pair.helper].nodes| && VerdictAt(pair, k, helpers) == Passes(to)
  }

  /** A chain of calls that hand a client on. */
  ghost predicate CallChain(chain: seq<Pair>, from: Pair, helpers: Helpers) {
    && |chain| > 0 && chain[0] == from
    && (forall i :: 0 <= i < |chain| ==> chain[i].helper in helpers)
    && forall i :: 0 <= i < |chain| - 1 ==> PassesTo(chain[i], chain[i + 1], helpers)
  }

  ghost predicate ChainFine(chain: seq<Pair>, helpers: Helpers, seen: set<Pair>)
    requires forall i :: 0 <= i < |chain| ==> chain[i].helper in helpers
  {
    && (forall i :: 0 <= i < |chain| ==> LocallyClean(chain[i], helpers) && chain[i] !in seen)
    && forall i, j :: 0 <= i < j < |chain| ==> chain[i] != chain[j]
  }

  lemma {:induction false} FromMeansAll(pair: Pair, helpers: Helpers, seen: set<Pair>, k: nat, i: nat)
    requires pair.helper in helpers && k <= i < |helpers[pair.helper].nodes| && pair !in seen
    requires PreservesFrom(pair, helpers, seen, k)
    ensures Accepted(pair, helpers, seen, i)
    decreases i - k
  {
    if k < i {
      FromMeansAll(pair, helpers, seen, k + 1, i);
    }
  }

  lemma {:induction false} PreservedChains(pair: Pair, helpers: Helpers, seen: set<Pair>, chain: seq<Pair>)
    requires pair.helper in helpers && Preserves(pair, helpers, seen) && CallChain(chain, pair, helpers)
    ensures ChainFine(chain, helpers, seen)
    decreases |chain|
  {
    forall i | 0 <= i < |helpers[pair.helper].nodes| ensures !VerdictAt(pair, i, helpers).Dirty? {
      FromMeansAll(pair, helpers, seen, 0, i);
    }
    if |chain| > 1 {
      var k :| 0 <= k < |helpers[pair.helper].nodes| && VerdictAt(pair, k, helpers) == Passes(chain[1]);
      FromMeansAll(pair, helpers, seen, 0, k);
      PassesInUniverse(pair, k, helpers);
      var rest := chain[1..];
      forall i | 0 <= i < |rest| - 1 ensures PassesTo(rest[i], rest[i + 1], helpers) {
        assert PassesTo(chain[i + 1], chain[i + 2], helpers);
      }
      PreservedChains(chain[1], helpers, seen + {pair}, rest);
      ChainGrows(chain, helpers, seen);
    }
  }

  lemma ChainGrows(chain: seq<Pair>, helpers: Helpers, seen: set<Pair>)
    requires |chain| > 1 && forall i :: 0 <= i < |chain| ==> chain[i].helper in helpers
    requires LocallyClean(chain[0], helpers) && chain[0] !in seen
    requires ChainFine(chain[1..], helpers, seen + {chain[0]})
    ensures ChainFine(chain, helpers, seen)
  {
    var rest := chain[1..];
    forall i | 0 <= i < |chain| ensures LocallyClean(chain[i], helpers) && chain[i] !in seen {
      if i > 0 {
        assert LocallyClean(rest[i - 1], helpers) && rest[i - 1] !in seen + {chain[0]};
      }
    }
    forall i, j | 0 <= i < j < |chain| ensures chain[i] != chain[j] {
      assert rest[j - 1] !in seen + {chain[0]};
      if i > 0 {
        assert rest[i - 1] != rest[j - 1];
      }
    }
  }

  lemma {:induction false} RejectedFrom(pair: Pair, helpers: Helpers, seen: set<Pair>, k: nat)
      returns (i: nat)
    requires pair.helper in helpers && k <= |helpers[pair.helper].nodes| && pair !in seen
    requires !PreservesFrom(pair, helpers, seen, k)
    ensures i < |helpers[pair.helper].nodes| && !Accepted(pair, helpers, seen, i)
    decreases |helpers[pair.helper].nodes| - k
  {
    i := k;
    if Accepted(pair, helpers, seen, k) {
      i := RejectedFrom(pair, helpers, seen, k + 1);
    }
  }

  lemma RejectedNode(pair: Pair, helpers: Helpers, seen: set<Pair>) returns (i: nat)
    requires pair.helper in helpers && pair !in seen && !Preserves(pair, helpers, seen)
    ensures i < |helpers[pair.helper].nodes| && !Accepted(pair, helpers, seen, i)
    ensures VerdictAt(pair, i, helpers).Passes? ==>
      var to := VerdictAt(pair, i, helpers).to; to.helper in helpers && to in Universe(helpers)
  {
    i := RejectedFrom(pair, helpers, seen, 0);
    if VerdictAt(pair, i, helpers).Passes? {
      PassesInUniverse(pair, i, helpers);
    }
  }

  lemma {:induction false} RejectedChain(pair: Pair, helpers: Helpers, seen: set<Pair>)
      returns (chain: seq<Pair>)
    requires pair.helper in helpers && !Preserves(pair, helpers, seen)
    ensures CallChain(chain, pair, helpers) && !ChainFine(chain, helpers, seen)
    decreases (Universe(helpers) + {pair}) - seen
  {
    chain := [pair];
    if pair !in seen {
      var i := RejectedNode(pair, helpers, seen);
      if VerdictAt(pair, i, helpers).Dirty? {
        assert !LocallyClean(chain[0], helpers);
      } else {
        var to := VerdictAt(pair, i, helpers).to;
        FewerLeft(pair, to, helpers, seen);
        var rest := RejectedChain(to, helpers, seen + {pair});
        chain := [pair] + rest;
        assert PassesTo(pair, to, helpers);
        forall j | 0 <= j < |chain| - 1 ensures PassesTo(chain[j], chain[j + 1], helpers) {
          if j > 0 {
            assert PassesTo(rest[j - 1], rest[j], helpers);
          }
        }
        assert chain[1..] == rest;
        if ChainFine(chain, helpers, seen) {
          ChainShrinks(chain, helpers, seen);
        }
      }
    } else {
      assert chain[0] in seen;
    }
  }

  lemma ChainShrinks(chain: seq<Pair>, helpers: Helpers, seen: set<Pair>)
    requires |chain| > 1 && forall i :: 0 <= i < |chain| ==> chain[i].helper in helpers
    requires ChainFine(chain, helpers, seen)
    ensures ChainFine(chain[1..], helpers, seen + {chain[0]})
  {
    var rest := chain[1..];
    forall i | 0 <= i < |rest| ensures LocallyClean(rest[i], helpers) && rest[i] !in seen + {chain[0]} {
      assert rest[i] == chain[i + 1] && chain[0] != chain[i + 1];
    }
    forall i, j | 0 <= i < j < |rest| ensures rest[i] != rest[j] {
      assert chain[i + 1] != chain[j + 1];
    }
  }

  /** The check accepts exactly when every chain of calls that hand the client on visits only clean
      functions and never the same (function, parameters) pair twice. */
  lemma HelperCheckExact(pair: Pair, helpers: Helpers)
    requires pair.helper in helpers
    ensures Preserves(pair, helpers, {}) <==>
      forall chain :: CallChain(chain, pair, helpers) ==> ChainFine(chain, helpers, {})
  {
    if Preserves(pair, helpers, {}) {
      forall chain | CallChain(chain, pair, helpers) ensures ChainFine(chain, helpers, {}) {
        PreservedChains(pair, helpers, {}, chain);
      }
    } else {
      var chain := RejectedChain(pair, helpers, {});
    }
  }
}
