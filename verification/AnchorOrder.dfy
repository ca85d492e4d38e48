/** Two checks that anchors occur in a source in order: the greedy `require_order` of
    `platform_contact_durability.py`, and `ordered_anchor_positions` of `platform_checker_source.py`, which
    compares first occurrences. */
module AnchorOrder {
  import opened Text
  import opened Substrings

  datatype Anchor = Anchor(tag: string, marker: string)

  /** Which marker occurs where. */
  type Occurrence = (string, nat) -> bool

  function In(source: string): Occurrence {
    (marker: string, p: nat) => At(source, p, marker)
  }

  /** A strictly increasing choice of positions at which the first `n` markers occur. */
  ghost predicate InOrder(at: Occurrence, anchors: seq<Anchor>, n: nat, positions: seq<nat>) {
    && n <= |anchors| && n <= |positions|
    && (forall i :: 0 <= i < n ==> at(anchors[i].marker, positions[i]))
    && forall i, j :: 0 <= i < j < n ==> positions[i] < positions[j]
  }

  /** The first `n` anchors can be placed in order. */
  ghost predicate Orderable(at: Occurrence, anchors: seq<Anchor>, n: nat) {
    exists positions :: InOrder(at, anchors, n, positions)
  }

  // ----- The greedy search -----

  /** Anchors `k` up to `n` can be placed in order, from position `from` on. */
  ghost predicate Placeable(at: Occurrence, anchors: seq<Anchor>, n: nat, k: nat, from: nat)
    requires k <= n <= |anchors|
    decreases n - k
  {
    k < n ==> exists p: nat :: Takes(at, anchors, n, k, from, p)
  }

  ghost predicate Takes(at: Occurrence, anchors: seq<Anchor>, n: nat, k: nat, from: nat, p: nat)
    requires k < n <= |anchors|
    decreases n - k, 0
  {
    from <= p && at(anchors[k].marker, p) && Placeable(at, anchors, n, k + 1, p + 1)
  }

  ghost predicate First(at: Occurrence, marker: string, from: nat, p: nat) {
    from <= p && at(marker, p) && forall q :: from <= q < p ==> !at(marker, q)
  }

  lemma {:induction false} Placed(at: Occurrence, anchors: seq<Anchor>, n: nat, k: nat, from: nat) returns (p: nat)
    requires k < n <= |anchors| && Placeable(at, anchors, n, k, from)
    ensures from <= p && at(anchors[k].marker, p) && Placeable(at, anchors, n, k + 1, p + 1)
  {
    p :| Takes(at, anchors, n, k, from, p);
  }

  lemma {:induction false} PlaceableEarlier(at: Occurrence, anchors: seq<Anchor>, n: nat, k: nat, from: nat,
                                            earlier: nat)
    requires k <= n <= |anchors| && earlier <= from && Placeable(at, anchors, n, k, from)
    ensures Placeable(at, anchors, n, k, earlier)
  {
    if k < n {
      var p: nat :| Takes(at, anchors, n, k, from, p);
      assert Takes(at, anchors, n, k, earlier, p);
    }
  }

  /** Taking the first occurrence never loses a placement. */
  lemma {:induction false} GreedyStep(at: Occurrence, anchors: seq<Anchor>, n: nat, k: nat, from: nat, p: nat)
    requires k < n <= |anchors| && First(at, anchors[k].marker, from, p)
    ensures Placeable(at, anchors, n, k, from) <==> Placeable(at, anchors, n, k + 1, p + 1)
  {
    if Placeable(at, anchors, n, k, from) {
      var q := Placed(at, anchors, n, k, from);
      PlaceableEarlier(at, anchors, n, k + 1, q + 1, p + 1);
    }
    if Placeable(at, anchors, n, k + 1, p + 1) {
      assert Takes(at, anchors, n, k, from, p);
    }
  }

  lemma {:induction false} GreedySteps(at: Occurrence, anchors: seq<Anchor>, k: nat, from: nat, p: nat)
    requires k < |anchors| && First(at, anchors[k].marker, from, p)
    ensures forall n :: k < n <= |anchors| ==>
      (Placeable(at, anchors, n, k, from) <==> Placeable(at, anchors, n, k + 1, p + 1))
  {
    forall n | k < n <= |anchors|
      ensures Placeable(at, anchors, n, k, from) <==> Placeable(at, anchors, n, k + 1, p + 1) {
      GreedyStep(at, anchors, n, k, from, p);
    }
  }

  lemma {:induction false} PlaceableOrders(at: Occurrence, anchors: seq<Anchor>, n: nat, k: nat, from: nat)
      returns (rest: seq<nat>)
    requires k <= n <= |anchors| && Placeable(at, anchors, n, k, from)
    ensures |rest| == n - k && forall i :: 0 <= i < |rest| ==> from <= rest[i] && at(anchors[k + i].marker, rest[i])
    ensures forall i, j :: 0 <= i < j < |rest| ==> rest[i] < rest[j]
    decreases n - k
  {
    rest := [];
    if k < n {
      var p: nat :| Takes(at, anchors, n, k, from, p);
      var tail := PlaceableOrders(at, anchors, n, k + 1, p + 1);
      rest := [p] + tail;
      forall i | 0 <= i < |rest| ensures from <= rest[i] && at(anchors[k + i].marker, rest[i]) {
        if i > 0 {
          assert rest[i] == tail[i - 1] && anchors[k + i] == anchors[k + 1 + (i - 1)];
        }
      }
    }
  }

  lemma {:induction false} OrdersPlaceable(at: Occurrence, anchors: seq<Anchor>, n: nat, k: nat, positions: seq<nat>)
    requires k <= n && InOrder(at, anchors, n, positions)
    ensures Placeable(at, anchors, n, k, if k == 0 then 0 else positions[k - 1] + 1)
    decreases n - k
  {
    if k < n {
      var from := if k == 0 then 0 else positions[k - 1] + 1;
      OrdersPlaceable(at, anchors, n, k + 1, positions);
      assert k > 0 ==> positions[k - 1] < positions[k];
      assert Takes(at, anchors, n, k, from, positions[k]);
    }
  }

  /** Placing anchors one after the other and choosing increasing positions are the same. */
  lemma PlaceableIsOrderable(at: Occurrence, anchors: seq<Anchor>, n: nat)
    requires n <= |anchors|
    ensures Placeable(at, anchors, n, 0, 0) <==> Orderable(at, anchors, n)
  {
    if Placeable(at, anchors, n, 0, 0) {
      var positions := PlaceableOrders(at, anchors, n, 0, 0);
      forall i | 0 <= i < n ensures at(anchors[i].marker, positions[i]) {
        assert anchors[0 + i] == anchors[i];
      }
      assert InOrder(at, anchors, n, positions);
    }
    if Orderable(at, anchors, n) {
      var positions :| InOrder(at, anchors, n, positions);
      OrdersPlaceable(at, anchors, n, 0, positions);
    }
  }

  /** `require_order`: the first anchor that cannot be placed, or none. */
  method RequireOrder(source: string, anchors: seq<Anchor>) returns (missing: Option<nat>)
    ensures missing.None? <==> Orderable(In(source), anchors, |anchors|)
    ensures missing.Some? ==> missing.value < |anchors| && Orderable(In(source), anchors, missing.value)
    ensures missing.Some? ==> !Orderable(In(source), anchors, missing.value + 1)
  {
    var position: int := -1;
    ghost var at := In(source);
    forall n | 0 <= n <= |anchors| ensures Placeable(at, anchors, n, 0, 0) <==> Orderable(at, anchors, n) {
      PlaceableIsOrderable(at, anchors, n);
    }
    for k := 0 to |anchors|
      invariant position >= -1
      invariant forall n :: k <= n <= |anchors| ==>
        (Orderable(at, anchors, n) <==> Placeable(at, anchors, n, k, position + 1))
    {
      var found := Find(source, anchors[k].marker, position + 1);
      if found.None? {
        assert forall p: nat :: position + 1 <= p ==> !at(anchors[k].marker, p);
        return Some(k);
      }
      GreedySteps(at, anchors, k, position + 1, found.value);
      position := found.value;
    }
    return None;
  }

  // ----- First occurrences -----

  /** The first occurrence of a marker, if it has one. */
  type FirstOccurrence = string -> Option<nat>

  function FirstIn(source: string): FirstOccurrence {
    (marker: string) => Find(source, marker, 0)
  }

  ghost predicate AllFound(first: FirstOccurrence, anchors: seq<Anchor>, n: nat)
    requires n <= |anchors|
  {
    forall i :: 0 <= i < n ==> first(anchors[i].marker).Some?
  }

  ghost predicate FirstsIncrease(first: FirstOccurrence, anchors: seq<Anchor>)
    requires AllFound(first, anchors, |anchors|)
  {
    forall i, j :: 0 <= i < j < |anchors| ==> first(anchors[i].marker).value < first(anchors[j].marker).value
  }

  ghost predicate Distinct(anchors: seq<Anchor>, n: nat)
    requires n <= |anchors|
  {
    forall i, j :: 0 <= i < j < n ==> anchors[i].tag != anchors[j].tag
  }

  ghost function Labels(anchors: seq<Anchor>, n: nat): set<string>
    requires n <= |anchors|
  {
    set i | 0 <= i < n :: anchors[i].tag
  }

  lemma DistinctMore(anchors: seq<Anchor>, k: nat)
    requires k < |anchors|
    ensures Distinct(anchors, k + 1) <==> Distinct(anchors, k) && anchors[k].tag !in Labels(anchors, k)
    ensures Labels(anchors, k + 1) == Labels(anchors, k) + {anchors[k].tag}
  {
  }

  /** The table after `n` anchors; an anchor overwrites an earlier one with its label. */
  function Table(first: FirstOccurrence, anchors: seq<Anchor>, n: nat): map<string, nat>
    requires n <= |anchors|
  {
    if n == 0 then map[]
    else
      var before, found := Table(first, anchors, n - 1), first(anchors[n - 1].marker);
      if found.None? then before else before[anchors[n - 1].tag := found.value]
  }

  lemma {:induction false} TableLabels(first: FirstOccurrence, anchors: seq<Anchor>, n: nat)
    requires n <= |anchors|
    ensures Table(first, anchors, n).Keys <= Labels(anchors, n)
    ensures AllFound(first, anchors, n) ==> Table(first, anchors, n).Keys == Labels(anchors, n)
  {
    if n > 0 {
      TableLabels(first, anchors, n - 1);
      DistinctMore(anchors, n - 1);
    }
  }

  /** The table has a line for every anchor exactly when all are found and no label is used twice. */
  lemma {:induction false} TableFull(first: FirstOccurrence, anchors: seq<Anchor>, n: nat)
    requires n <= |anchors|
    ensures |Table(first, anchors, n)| <= n
    ensures |Table(first, anchors, n)| == n <==> AllFound(first, anchors, n) && Distinct(anchors, n)
  {
    if n > 0 {
      TableFull(first, anchors, n - 1);
      TableLabels(first, anchors, n - 1);
      DistinctMore(anchors, n - 1);
      var before, now := Table(first, anchors, n - 1), Table(first, anchors, n);
      assert |before| == |before.Keys| && |now| == |now.Keys|;
      if first(anchors[n - 1].marker).Some? {
        assert now.Keys == before.Keys + {anchors[n - 1].tag};
      } else {
        assert !AllFound(first, anchors, n);
      }
    }
  }

  lemma {:induction false} TableAt(first: FirstOccurrence, anchors: seq<Anchor>, n: nat, i: nat)
    requires i < n <= |anchors| && AllFound(first, anchors, n) && Distinct(anchors, n)
    ensures anchors[i].tag in Table(first, anchors, n)
    ensures Table(first, anchors, n)[anchors[i].tag] == first(anchors[i].marker).value
  {
    if i < n - 1 {
      TableAt(first, anchors, n - 1, i);
      assert anchors[i].tag != anchors[n - 1].tag;
    }
  }

  /** `ordered != sorted(ordered) or len(set(ordered)) != len(ordered)` is false. */
  predicate StrictlyIncreasing(s: seq<nat>) {
    forall i, j :: 0 <= i < j < |s| ==> s[i] < s[j]
  }

  /** `ordered_anchor_positions`: which anchors are missing, and whether it objects to the order. Without a
      line in the table for every anchor, it does not look at the order. */
  method OrderedAnchorPositions(source: string, anchors: seq<Anchor>)
      returns (positions: map<string, nat>, missing: set<nat>, disordered: bool)
    ensures positions == Table(FirstIn(source), anchors, |anchors|)
    ensures missing == set i | 0 <= i < |anchors| && FirstIn(source)(anchors[i].marker).None?
    ensures disordered <==>
      AllFound(FirstIn(source), anchors, |anchors|) && Distinct(anchors, |anchors|) &&
        !FirstsIncrease(FirstIn(source), anchors)
  {
    ghost var first := FirstIn(source);
    positions, missing, disordered := map[], {}, false;
    for k := 0 to |anchors|
      invariant positions == Table(first, anchors, k)
      invariant missing == set i | 0 <= i < k && first(anchors[i].marker).None?
    {
      var found := Find(source, anchors[k].marker, 0);
      if found.None? {
        missing := missing + {k};
      } else {
        positions := positions[anchors[k].tag := found.value];
      }
    }
    TableFull(first, anchors, |anchors|);
    if |positions| == |anchors| {
      forall i | 0 <= i < |anchors|
        ensures anchors[i].tag in positions && positions[anchors[i].tag] == first(anchors[i].marker).value {
        TableAt(first, anchors, |anchors|, i);
      }
      var ordered := seq(|anchors|, i requires 0 <= i < |anchors| => positions[anchors[i].tag]);
      disordered := !StrictlyIncreasing(ordered);
      assert forall i :: 0 <= i < |anchors| ==> ordered[i] == first(anchors[i].marker).value;
    }
  }

  // ----- How the two checks compare -----

  /** When labels are distinct, what this check passes the greedy search passes too. */
  lemma FirstsAreOrder(source: string, anchors: seq<Anchor>)
    requires AllFound(FirstIn(source), anchors, |anchors|) && FirstsIncrease(FirstIn(source), anchors)
    ensures Orderable(In(source), anchors, |anchors|)
  {
    var first := FirstIn(source);
    var positions := seq(|anchors|, i requires 0 <= i < |anchors| => first(anchors[i].marker).value);
    assert InOrder(In(source), anchors, |anchors|, positions);
  }

  /** With a label used twice it passes anchors that are found in any order: `a` and `b` in "ba". */
  lemma RepeatedLabelHidesOrder()
    ensures var source, anchors := "ba", [Anchor("x", "a"), Anchor("x", "b")];
      && AllFound(FirstIn(source), anchors, 2) && !Distinct(anchors, 2) && !FirstsIncrease(FirstIn(source), anchors)
      && !Orderable(In(source), anchors, 2)
  {
    var source, anchors := "ba", [Anchor("x", "a"), Anchor("x", "b")];
    assert At(source, 1, "a") && At(source, 0, "b");
    assert !At(source, 0, "a") && !At(source, 1, "b");
    assert anchors[0].tag == anchors[1].tag;
    forall positions ensures !InOrder(In(source), anchors, 2, positions) {
    }
  }
}
