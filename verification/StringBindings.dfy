/** `_static_string` and `_string_bindings` of `platform_checker_ast.py`: string constants that may be
    f-strings, where a field without a known value reads `{}` and may read otherwise in the next pass. */
module StringBindings {
  import opened Text
  import opened PyAst
  import opened RouteConstants

  /** `_static_string` */
  function StaticText(e: Expr, b: Bindings): Option<string>
    decreases e
  {
    match e
    case Const(Str(s)) => Some(s)
    case Name(id) => Get(b, id)
    case FString(pieces) => Some(PiecesText(pieces, b))
    case Add(left, right) =>
      var l, r := StaticText(left, b), StaticText(right, b);
      if l.Some? && r.Some? then Some(l.value + r.value) else None
    case _ => None
  }

  function PiecesText(pieces: seq<Piece>, b: Bindings): string
    decreases pieces
  {
    if |pieces| == 0 then ""
    else PiecesText(pieces[..|pieces| - 1], b) + PieceText(pieces[|pieces| - 1], b)
  }

  function PieceText(piece: Piece, b: Bindings): string
    decreases piece
  {
    match piece
    case Chars(s) => s
    case Field(value, _) => (var v := StaticText(value, b); if v.None? then "{}" else v.value)
  }

  function Assign(st: Statement, b: Bindings): Bindings {
    if st.Binding? && StaticText(st.value, b).Some? then b[st.name := StaticText(st.value, b).value] else b
  }

  /** The bindings after the first `k` statements of a pass. */
  function During(body: seq<Statement>, k: nat, b: Bindings): Bindings
    requires k <= |body|
  {
    if k == 0 then b else Assign(body[k - 1], During(body, k - 1, b))
  }

  function After(body: seq<Statement>, initial: Bindings, n: nat): Bindings {
    if n == 0 then initial else During(body, |body|, After(body, initial, n - 1))
  }

  /** A pass that starts with `b` leaves every binding as it is, all the way through. */
  ghost predicate Settled(body: seq<Statement>, b: Bindings) {
    forall k :: 0 <= k <= |body| ==> During(body, k, b) == b
  }

  // ----- Which names come to be bound -----

  /** Whether the value is known where the names in `keys` are bound. */
  predicate Known(e: Expr, keys: set<string>) {
    match e
    case Const(Str(_)) => true
    case Name(id) => id in keys
    case FString(_) => true
    case Add(left, right) => Known(left, keys) && Known(right, keys)
    case _ => false
  }

  lemma {:induction false} KnownExactly(e: Expr, b: Bindings)
    ensures StaticText(e, b).Some? <==> Known(e, b.Keys)
    decreases e
  {
    if e.Add? {
      KnownExactly(e.left, b);
      KnownExactly(e.right, b);
    }
  }

  lemma {:induction false} KnownMonotone(e: Expr, few: set<string>, many: set<string>)
    requires few <= many && Known(e, few)
    ensures Known(e, many)
    decreases e
  {
    if e.Add? {
      KnownMonotone(e.left, few, many);
      KnownMonotone(e.right, few, many);
    }
  }

  predicate Fires(body: seq<Statement>, i: nat, keys: set<string>) {
    i < |body| && body[i].Binding? && Known(body[i].value, keys)
  }

  /** The names whose statement fires. */
  ghost function Firing(body: seq<Statement>, keys: set<string>): set<string> {
    set i: nat | i < |body| && Fires(body, i, keys) :: body[i].name
  }

  /** The names that come to be bound when every statement that fires binds its name, again and again. */
  ghost function Close(body: seq<Statement>, keys: set<string>): (all: set<string>)
    ensures keys <= all && Firing(body, all) <= all
    decreases Targets(body) - keys
  {
    if Firing(body, keys) <= keys then keys
    else
      FewerLeft(body, keys);
      Close(body, keys + Firing(body, keys))
  }

  lemma FewerLeft(body: seq<Statement>, keys: set<string>)
    requires !(Firing(body, keys) <= keys)
    ensures Targets(body) - (keys + Firing(body, keys)) < Targets(body) - keys
    ensures |Targets(body) - (keys + Firing(body, keys))| < |Targets(body) - keys|
  {
    var x :| x in Firing(body, keys) && x !in keys;
    var few, more := Targets(body) - (keys + Firing(body, keys)), Targets(body) - keys;
    assert few <= more - {x} && x in more;
    SubsetSize(few, more - {x});
  }

  /** The names that can be bound, those of `initial` included. */
  ghost function Bindable(body: seq<Statement>, initial: Bindings): set<string> {
    Close(body, initial.Keys)
  }

  lemma {:induction false} KeysWithin(body: seq<Statement>, b: Bindings, keys: set<string>, k: nat)
    requires k <= |body| && b.Keys <= keys && Firing(body, keys) <= keys
    ensures b.Keys <= During(body, k, b).Keys <= keys
  {
    if k > 0 {
      KeysWithin(body, b, keys, k - 1);
      var d, st := During(body, k - 1, b), body[k - 1];
      if st.Binding? && StaticText(st.value, d).Some? {
        KnownExactly(st.value, d);
        KnownMonotone(st.value, d.Keys, keys);
        assert Fires(body, k - 1, keys);
      }
    }
  }

  /** No run binds any other. */
  lemma {:induction false} RunKeys(body: seq<Statement>, initial: Bindings, n: nat, k: nat)
    requires k <= |body|
    ensures initial.Keys <= During(body, k, After(body, initial, n)).Keys <= Bindable(body, initial)
    decreases n
  {
    if n > 0 {
      RunKeys(body, initial, n - 1, |body|);
    }
    KeysWithin(body, After(body, initial, n), Bindable(body, initial), k);
  }

  // ----- Whose text a value contains -----

  /** The names whose text the value contains where those in `keys` are bound; a field that is not known there
      reads `{}`, whatever it mentions. */
  function Refs(e: Expr, keys: set<string>): set<string>
    decreases e
  {
    match e
    case Name(id) => {id}
    case Add(left, right) => Refs(left, keys) + Refs(right, keys)
    case FString(pieces) => set k, id | 0 <= k < |pieces| && id in PieceRefs(pieces[k], keys) :: id
    case _ => {}
  }

  function PieceRefs(piece: Piece, keys: set<string>): set<string>
    decreases piece
  {
    match piece
    case Chars(_) => {}
    case Field(value, _) => if Known(value, keys) then Refs(value, keys) else {}
  }

  /** Those among them that stand in fields of f-strings. */
  function FieldRefs(e: Expr, keys: set<string>): set<string> {
    match e
    case FString(_) => Refs(e, keys)
    case Add(left, right) => FieldRefs(left, keys) + FieldRefs(right, keys)
    case _ => {}
  }

  /** The names without which the value is not known; a field of an f-string can do without. */
  function Needs(e: Expr): set<string> {
    match e
    case Name(id) => {id}
    case Add(left, right) => Needs(left) + Needs(right)
    case _ => {}
  }

  lemma {:induction false} RefsSplit(e: Expr, keys: set<string>)
    ensures Refs(e, keys) == Needs(e) + FieldRefs(e, keys)
    ensures Known(e, keys) ==> Needs(e) <= keys
    decreases e
  {
    if e.Add? {
      RefsSplit(e.left, keys);
      RefsSplit(e.right, keys);
    }
  }

  ghost predicate Agree(b: Bindings, c: Bindings, names: set<string>) {
    forall id :: id in names ==> Get(b, id) == Get(c, id)
  }

  /** Among tables that bind no more than `keys`, a value depends only on the names whose text it contains. */
  lemma {:induction false} TextDepends(e: Expr, b: Bindings, c: Bindings, keys: set<string>)
    requires b.Keys <= keys && c.Keys <= keys && Agree(b, c, Refs(e, keys))
    ensures StaticText(e, b) == StaticText(e, c)
    decreases e, 1
  {
    if e.Add? {
      TextDepends(e.left, b, c, keys);
      TextDepends(e.right, b, c, keys);
    } else if e.FString? {
      FStringDepends(e, b, c, keys);
    }
  }

  lemma {:induction false} FStringDepends(e: Expr, b: Bindings, c: Bindings, keys: set<string>)
    requires e.FString? && b.Keys <= keys && c.Keys <= keys && Agree(b, c, Refs(e, keys))
    ensures StaticText(e, b) == StaticText(e, c)
    decreases e, 0
  {
    var pieces := e.pieces;
    forall k | 0 <= k < |pieces| ensures PieceText(pieces[k], b) == PieceText(pieces[k], c) {
      if pieces[k].Field? {
        var value := pieces[k].value;
        if Known(value, keys) {
          assert forall id :: id in Refs(value, keys) ==> id in PieceRefs(pieces[k], keys);
          TextDepends(value, b, c, keys);
        } else {
          NeverKnown(value, b, keys);
          NeverKnown(value, c, keys);
        }
      }
    }
    PiecesAgree(pieces, b, c);
  }

  lemma NeverKnown(e: Expr, b: Bindings, keys: set<string>)
    requires !Known(e, keys) && b.Keys <= keys
    ensures StaticText(e, b).None?
  {
    KnownExactly(e, b);
    if Known(e, b.Keys) {
      KnownMonotone(e, b.Keys, keys);
    }
  }

  lemma {:induction false} PiecesAgree(pieces: seq<Piece>, b: Bindings, c: Bindings)
    requires forall k :: 0 <= k < |pieces| ==> PieceText(pieces[k], b) == PieceText(pieces[k], c)
    ensures PiecesText(pieces, b) == PiecesText(pieces, c)
    decreases |pieces|
  {
    if |pieces| > 0 {
      PiecesAgree(pieces[..|pieces| - 1], b, c);
    }
  }

  // ----- One name in a pass -----

  /** Statements that assign other names leave a name alone. */
  lemma {:induction false} Untouched(body: seq<Statement>, b: Bindings, id: string, lo: nat, hi: nat)
    requires lo <= hi <= |body| && forall j :: lo <= j < hi && body[j].Binding? ==> body[j].name != id
    ensures Get(During(body, hi, b), id) == Get(During(body, lo, b), id)
    decreases hi
  {
    if lo != hi {
      Untouched(body, b, id, lo, hi - 1);
    }
  }

  /** Once its statement has run, a name has the statement's value, or the value it had. */
  lemma {:induction false} ValueGiven(body: seq<Statement>, b: Bindings, i: nat, k: nat)
    requires AssignsOnce(body) && i < k <= |body| && body[i].Binding?
    ensures var v := StaticText(body[i].value, During(body, i, b));
      Get(During(body, k, b), body[i].name) == if v.Some? then v else Get(b, body[i].name)
  {
    Untouched(body, b, body[i].name, 0, i);
    Untouched(body, b, body[i].name, i + 1, k);
    assert During(body, i + 1, b) == Assign(body[i], During(body, i, b));
  }

  /** A name whose statement never fires keeps what it had from the start. */
  lemma {:induction false} NeverFires(body: seq<Statement>, initial: Bindings, n: nat, k: nat, id: string)
    requires id !in Firing(body, Bindable(body, initial)) && k <= |body|
    ensures Get(During(body, k, After(body, initial, n)), id) == Get(initial, id)
    decreases n, k
  {
    var b := After(body, initial, n);
    if k > 0 {
      var d, st := During(body, k - 1, b), body[k - 1];
      NeverFires(body, initial, n, k - 1, id);
      if st.Binding? && st.name == id {
        RunKeys(body, initial, n, k - 1);
        assert !Fires(body, k - 1, Bindable(body, initial));
        NeverKnown(st.value, d, Bindable(body, initial));
      }
    } else if n > 0 {
      NeverFires(body, initial, n - 1, |body|, id);
    }
  }

  // ----- References without a cycle -----

  /** Where the names in `keys` are bound, what a value contains the text of is of lower rank than the name it is
      assigned to. */
  ghost predicate Ranked(body: seq<Statement>, keys: set<string>, rank: map<string, nat>) {
    && rank.Keys == Firing(body, keys)
    && forall i: nat, id ::
         Fires(body, i, keys) && id in Refs(body[i].value, keys) && id in rank ==>
         body[i].name in rank && rank[id] < rank[body[i].name]
  }

  /** A name of rank below `n` keeps its value from the end of pass `n` on. */
  lemma {:induction false} KeepsValue(body: seq<Statement>, initial: Bindings, rank: map<string, nat>, n: nat, i: nat,
                                      k: nat)
    requires AssignsOnce(body) && Ranked(body, Bindable(body, initial), rank) && k <= |body|
    requires Fires(body, i, Bindable(body, initial)) && body[i].name in rank && rank[body[i].name] < n
    ensures Get(During(body, k, After(body, initial, n)), body[i].name) == Get(After(body, initial, n), body[i].name)
    decreases rank[body[i].name], 1
  {
    var b, b' := After(body, initial, n - 1), After(body, initial, n);
    if k <= i {
      Untouched(body, b', body[i].name, 0, k);
    } else {
      MentionedAgree(body, initial, rank, n, i);
      RunKeys(body, initial, n - 1, i);
      RunKeys(body, initial, n, i);
      TextDepends(body[i].value, During(body, i, b), During(body, i, b'), Bindable(body, initial));
      ValueGiven(body, b, i, |body|);
      ValueGiven(body, b', i, k);
    }
  }

  /** What the value contains is the same when its statement runs in pass `n` and in the next. */
  lemma {:induction false} MentionedAgree(body: seq<Statement>, initial: Bindings, rank: map<string, nat>, n: nat,
                                          i: nat)
    requires AssignsOnce(body) && Ranked(body, Bindable(body, initial), rank)
    requires Fires(body, i, Bindable(body, initial)) && body[i].name in rank && rank[body[i].name] < n
    ensures Agree(During(body, i, After(body, initial, n - 1)), During(body, i, After(body, initial, n)),
                  Refs(body[i].value, Bindable(body, initial)))
    decreases rank[body[i].name], 0
  {
    forall id | id in Refs(body[i].value, Bindable(body, initial))
      ensures Get(During(body, i, After(body, initial, n - 1)), id) == Get(During(body, i, After(body, initial, n)), id)
    {
      if id in rank {
        var j: nat :| Fires(body, j, Bindable(body, initial)) && body[j].name == id;
        LowerAgrees(body, initial, rank, n, i, j);
      } else {
        NeverFires(body, initial, n - 1, i, id);
        NeverFires(body, initial, n, i, id);
      }
    }
  }

  lemma {:induction false} LowerAgrees(body: seq<Statement>, initial: Bindings, rank: map<string, nat>, n: nat, i: nat,
                                       j: nat)
    requires AssignsOnce(body) && Ranked(body, Bindable(body, initial), rank) && i < |body|
    requires Fires(body, j, Bindable(body, initial)) && body[j].name in rank && rank[body[j].name] + 1 < n
    ensures Get(During(body, i, After(body, initial, n - 1)), body[j].name) ==
            Get(During(body, i, After(body, initial, n)), body[j].name)
    decreases rank[body[j].name], 2
  {
    KeepsValue(body, initial, rank, n - 1, j, i);
    KeepsValue(body, initial, rank, n - 1, j, |body|);
    KeepsValue(body, initial, rank, n, j, i);
  }

  /** Once there have been more passes than ranks, nothing changes any more. */
  lemma RanksSettle(body: seq<Statement>, initial: Bindings, rank: map<string, nat>, n: nat)
    requires AssignsOnce(body) && Ranked(body, Bindable(body, initial), rank) && forall x :: x in rank ==> rank[x] < n
    ensures Settled(body, After(body, initial, n))
  {
    var b := After(body, initial, n);
    forall k | 0 <= k <= |body| ensures During(body, k, b) == b {
      var d := During(body, k, b);
      forall id ensures Get(d, id) == Get(b, id) {
        if id in rank {
          var i: nat :| Fires(body, i, Bindable(body, initial)) && body[i].name == id;
          KeepsValue(body, initial, rank, n, i, k);
        } else {
          NeverFires(body, initial, n, k, id);
          NeverFires(body, initial, n, 0, id);
        }
      }
      SameBindings(d, b);
    }
  }

  lemma SameBindings(d: Bindings, b: Bindings)
    requires forall id :: Get(d, id) == Get(b, id)
    ensures d == b
  {
    forall id ensures id in d <==> id in b {
      assert Get(d, id) == Get(b, id);
    }
    forall id | id in d ensures d[id] == b[id] {
      assert Get(d, id) == Get(b, id);
    }
  }

  /** The names of lower rank. */
  ghost function Lower(rank: map<string, nat>, x: string): set<string>
    requires x in rank
  {
    set y | y in rank && rank[y] < rank[x]
  }

  /** Ranks can be counted: there need not be more than names. */
  lemma CountedRanks(body: seq<Statement>, keys: set<string>, rank: map<string, nat>) returns (low: map<string, nat>)
    requires Ranked(body, keys, rank)
    ensures Ranked(body, keys, low) && forall x :: x in low ==> low[x] < |Targets(body)|
  {
    low := map x | x in rank :: |Lower(rank, x)|;
    forall x | x in rank ensures low[x] < |Targets(body)| {
      LowerIsSmall(rank, x, Targets(body));
    }
    forall i: nat, id | Fires(body, i, keys) && id in Refs(body[i].value, keys) && id in low
      ensures body[i].name in low && low[id] < low[body[i].name]
    {
      LowerOrder(rank, id, body[i].name);
    }
  }

  lemma LowerIsSmall(rank: map<string, nat>, x: string, names: set<string>)
    requires x in rank && rank.Keys <= names
    ensures |Lower(rank, x)| < |names|
  {
    assert Lower(rank, x) <= names - {x};
    SubsetSize(Lower(rank, x), names - {x});
  }

  lemma LowerOrder(rank: map<string, nat>, x: string, y: string)
    requires x in rank && y in rank && rank[x] < rank[y]
    ensures |Lower(rank, x)| < |Lower(rank, y)|
  {
    assert Lower(rank, x) <= Lower(rank, y) - {x} && x in Lower(rank, y);
    SubsetSize(Lower(rank, x), Lower(rank, y) - {x});
  }

  /** With one assignment for each name and no cycle of references among the names that can be bound, the loop
      settles, within as many passes as there are names. */
  lemma RankedSettles(body: seq<Statement>, initial: Bindings, rank: map<string, nat>, n: nat)
    requires AssignsOnce(body) && Ranked(body, Bindable(body, initial), rank) && n >= |Targets(body)|
    ensures Settled(body, After(body, initial, n))
  {
    var low := CountedRanks(body, Bindable(body, initial), rank);
    RanksSettle(body, initial, low, n);
  }

  // ----- Where the ranks come from -----

  /** The round in which a name is bound. */
  ghost function Stage(body: seq<Statement>, keys: set<string>, x: string): nat
    decreases Targets(body) - keys
  {
    if x in keys || Firing(body, keys) <= keys then 0
    else
      FewerLeft(body, keys);
      1 + Stage(body, keys + Firing(body, keys), x)
  }

  lemma {:induction false} StageBound(body: seq<Statement>, keys: set<string>, x: string)
    ensures Stage(body, keys, x) <= |Targets(body) - keys|
    decreases Targets(body) - keys
  {
    if !(Firing(body, keys) <= keys) {
      FewerLeft(body, keys);
      StageBound(body, keys + Firing(body, keys), x);
    }
  }

  /** What a value needs is bound in an earlier round than the name. */
  lemma {:induction false} NeedsEarlier(body: seq<Statement>, keys: set<string>, i: nat, id: string)
    requires AssignsOnce(body) && i < |body| && body[i].Binding? && body[i].name !in keys
    requires body[i].name in Close(body, keys) && id in Needs(body[i].value)
    ensures Stage(body, keys, id) < Stage(body, keys, body[i].name)
    decreases Targets(body) - keys
  {
    FewerLeft(body, keys);
    var next := keys + Firing(body, keys);
    if body[i].name in next {
      FiresHere(body, keys, i);
      RefsSplit(body[i].value, keys);
    } else {
      NeedsEarlier(body, next, i, id);
    }
  }

  lemma FiresHere(body: seq<Statement>, keys: set<string>, i: nat)
    requires AssignsOnce(body) && i < |body| && body[i].Binding? && body[i].name in Firing(body, keys)
    ensures Fires(body, i, keys)
  {
    var j: nat :| Fires(body, j, keys) && body[j].name == body[i].name;
  }

  /** A weak ranking: strict where a reference is in a field of an f-string, or the name has a value from the start.
      Cycles of plain references are allowed, cycles through a field are not. */
  ghost predicate FieldRanked(body: seq<Statement>, initial: Bindings, level: string -> nat) {
    var keys := Bindable(body, initial);
    forall i: nat, id :: Fires(body, i, keys) && id in Refs(body[i].value, keys) && id in Firing(body, keys) ==>
      && level(id) <= level(body[i].name)
      && (id in FieldRefs(body[i].value, keys) || body[i].name in initial ==> level(id) < level(body[i].name))
  }

  /** A level, and the round within it. */
  function Slot(level: nat, stage: nat, n: nat): nat {
    level * (n + 1) + stage
  }

  ghost function Combined(body: seq<Statement>, initial: Bindings, level: string -> nat): map<string, nat> {
    var n := |Targets(body)|;
    map x | x in Firing(body, Bindable(body, initial)) :: Slot(level(x), Stage(body, initial.Keys, x), n)
  }

  lemma SlotOrder(a: nat, b: nat, s: nat, t: nat, n: nat)
    requires s <= n && (a < b || (a == b && s < t))
    ensures Slot(a, s, n) < Slot(b, t, n)
  {
    if a < b {
      assert (a + 1) * (n + 1) <= b * (n + 1);
    }
  }

  lemma FieldRanks(body: seq<Statement>, initial: Bindings, level: string -> nat)
    requires AssignsOnce(body) && FieldRanked(body, initial, level)
    ensures Ranked(body, Bindable(body, initial), Combined(body, initial, level))
  {
    var keys, rank := Bindable(body, initial), Combined(body, initial, level);
    forall i: nat, id | Fires(body, i, keys) && id in Refs(body[i].value, keys) && id in rank
      ensures body[i].name in rank && rank[id] < rank[body[i].name]
    {
      FieldRanksOne(body, initial, level, i, id);
    }
  }

  lemma FieldRanksOne(body: seq<Statement>, initial: Bindings, level: string -> nat, i: nat, id: string)
    requires AssignsOnce(body) && FieldRanked(body, initial, level) && Fires(body, i, Bindable(body, initial))
    requires id in Refs(body[i].value, Bindable(body, initial)) && id in Firing(body, Bindable(body, initial))
    ensures var rank := Combined(body, initial, level); body[i].name in rank && rank[id] < rank[body[i].name]
  {
    var keys, n, x := Bindable(body, initial), |Targets(body)|, body[i].name;
    assert x in Firing(body, keys);
    RefsSplit(body[i].value, keys);
    StageBound(body, initial.Keys, id);
    SubsetSize(Targets(body) - initial.Keys, Targets(body));
    if level(id) == level(x) {
      NeedsEarlier(body, initial.Keys, i, id);
    }
    SlotOrder(level(id), level(x), Stage(body, initial.Keys, id), Stage(body, initial.Keys, x), n);
  }

  /** With one assignment for each name and no cycle through a field of an f-string, the loop settles. */
  lemma FieldRankedSettles(body: seq<Statement>, initial: Bindings, level: string -> nat, n: nat)
    requires AssignsOnce(body) && FieldRanked(body, initial, level) && n >= |Targets(body)|
    ensures Settled(body, After(body, initial, n))
  {
    FieldRanks(body, initial, level);
    RankedSettles(body, initial, Combined(body, initial, level), n);
  }

  /** Without f-strings, and with none of the names bound from the start, one assignment for each is enough. */
  lemma PlainSettles(body: seq<Statement>, initial: Bindings, n: nat)
    requires AssignsOnce(body) && initial.Keys !! Targets(body) && n >= |Targets(body)|
    requires forall i: nat :: i < |body| && body[i].Binding? ==> FieldRefs(body[i].value, Bindable(body, initial)) == {}
    ensures Settled(body, After(body, initial, n))
  {
    FieldRankedSettles(body, initial, (x: string) => 0, n);
  }

  // ----- Growing text -----

  /** The value has text of its own. */
  predicate Solid(e: Expr) {
    match e
    case Const(Str(s)) => |s| > 0
    case FString(pieces) => exists k :: 0 <= k < |pieces| && pieces[k].Chars? && |pieces[k].s| > 0
    case Add(left, right) => Solid(left) || Solid(right)
    case _ => false
  }

  /** The value contains the text of `id` and more. */
  predicate Grows(e: Expr, id: string, keys: set<string>) {
    match e
    case FString(_) => id in Refs(e, keys) && Solid(e)
    case Add(left, right) =>
      || (id in Refs(left, keys) && (Grows(left, id, keys) || Solid(right)))
      || (id in Refs(right, keys) && (Grows(right, id, keys) || Solid(left)))
    case _ => false
  }

  lemma {:induction false} PiecesHold(pieces: seq<Piece>, b: Bindings, k: nat)
    requires k < |pieces|
    ensures |PiecesText(pieces, b)| >= |PieceText(pieces[k], b)|
    decreases |pieces|
  {
    if k < |pieces| - 1 {
      PiecesHold(pieces[..|pieces| - 1], b, k);
    }
  }

  lemma {:induction false} PiecesHoldBoth(pieces: seq<Piece>, b: Bindings, j: nat, k: nat)
    requires j < k < |pieces|
    ensures |PiecesText(pieces, b)| >= |PieceText(pieces[j], b)| + |PieceText(pieces[k], b)|
    decreases |pieces|
  {
    var init := pieces[..|pieces| - 1];
    if k < |pieces| - 1 {
      PiecesHoldBoth(init, b, j, k);
    } else {
      PiecesHold(init, b, j);
      assert init[j] == pieces[j];
    }
  }

  lemma {:induction false} SolidText(e: Expr, b: Bindings)
    requires Solid(e) && Known(e, b.Keys)
    ensures StaticText(e, b).Some? && |StaticText(e, b).value| > 0
    decreases e
  {
    KnownExactly(e, b);
    if e.FString? {
      var k :| 0 <= k < |e.pieces| && e.pieces[k].Chars? && |e.pieces[k].s| > 0;
      PiecesHold(e.pieces, b, k);
    } else if e.Add? {
      KnownExactly(e.left, b);
      KnownExactly(e.right, b);
      if Solid(e.left) {
        SolidText(e.left, b);
      } else {
        SolidText(e.right, b);
      }
    }
  }

  /** A known value is at least as long as what it contains, and longer if it grows. */
  lemma {:induction false} LongEnough(e: Expr, b: Bindings, id: string)
    requires Known(e, b.Keys) && id in Refs(e, b.Keys)
    ensures StaticText(e, b).Some? && id in b && |StaticText(e, b).value| >= |b[id]|
    ensures Grows(e, id, b.Keys) ==> |StaticText(e, b).value| > |b[id]|
    decreases e
  {
    KnownExactly(e, b);
    if e.FString? {
      var k :| 0 <= k < |e.pieces| && id in PieceRefs(e.pieces[k], b.Keys);
      LongEnough(e.pieces[k].value, b, id);
      PiecesHold(e.pieces, b, k);
      if Solid(e) {
        var j :| 0 <= j < |e.pieces| && e.pieces[j].Chars? && |e.pieces[j].s| > 0;
        PiecesHoldBoth(e.pieces, b, if j < k then j else k, if j < k then k else j);
      }
    } else if e.Add? {
      SumLongEnough(e, b, id);
    }
  }

  lemma {:induction false} SumLongEnough(e: Expr, b: Bindings, id: string)
    requires e.Add? && Known(e, b.Keys) && id in Refs(e, b.Keys)
    ensures StaticText(e, b).Some? && id in b && |StaticText(e, b).value| >= |b[id]|
    ensures Grows(e, id, b.Keys) ==> |StaticText(e, b).value| > |b[id]|
    decreases e, 0
  {
    KnownExactly(e.left, b);
    KnownExactly(e.right, b);
    if id in Refs(e.left, b.Keys) {
      LongEnough(e.left, b, id);
    }
    if id in Refs(e.right, b.Keys) {
      LongEnough(e.right, b, id);
    }
    if Solid(e.left) {
      SolidText(e.left, b);
    }
    if Solid(e.right) {
      SolidText(e.right, b);
    }
  }

  // ----- Settled tables -----

  /** In a settled table every statement that fires holds as an equation. */
  lemma SettledHolds(body: seq<Statement>, b: Bindings, i: nat)
    requires Settled(body, b) && Fires(body, i, b.Keys)
    ensures body[i].name in b && StaticText(body[i].value, b) == Some(b[body[i].name])
  {
    KnownExactly(body[i].value, b);
    assert During(body, i, b) == b && During(body, i + 1, b) == b;
  }

  lemma {:induction false} SettledCloses(body: seq<Statement>, b: Bindings, keys: set<string>)
    requires Settled(body, b) && keys <= b.Keys
    ensures Close(body, keys) <= b.Keys
    decreases Targets(body) - keys
  {
    if !(Firing(body, keys) <= keys) {
      FewerLeft(body, keys);
      forall i: nat | Fires(body, i, keys) ensures body[i].name in b {
        KnownMonotone(body[i].value, keys, b.Keys);
        SettledHolds(body, b, i);
      }
      SettledCloses(body, b, keys + Firing(body, keys));
    }
  }

  /** It binds every name that can be bound. */
  lemma SettledKeys(body: seq<Statement>, initial: Bindings, n: nat)
    requires Settled(body, After(body, initial, n))
    ensures After(body, initial, n).Keys == Bindable(body, initial)
  {
    RunKeys(body, initial, n, 0);
    SettledCloses(body, After(body, initial, n), initial.Keys);
  }

  /** The position after `j` on a cycle of `n`. */
  function Next(j: nat, n: nat): (k: nat)
    requires j < n
    ensures k < n
  {
    if j + 1 < n then j + 1 else 0
  }

  /** Step `j` of a cycle of references: a statement that fires, whose value contains the text of the next name. */
  ghost predicate Follows(body: seq<Statement>, keys: set<string>, cycle: seq<nat>, j: nat)
    requires j < |cycle|
  {
    var i, next := cycle[j], cycle[Next(j, |cycle|)];
    Fires(body, i, keys) && Fires(body, next, keys) && body[next].name in Refs(body[i].value, keys)
  }

  ghost predicate GrowsAt(body: seq<Statement>, keys: set<string>, cycle: seq<nat>, j: nat)
    requires j < |cycle| && Follows(body, keys, cycle, j)
  {
    Grows(body[cycle[j]].value, body[cycle[Next(j, |cycle|)]].name, keys)
  }

  predicate Falls(lengths: seq<nat>, i: nat) {
    i < |lengths| && lengths[i] >= lengths[Next(i, |lengths|)]
  }

  /** Numbers around a circle that nowhere rise do not fall either. */
  lemma {:induction false} AroundCircle(lengths: seq<nat>, j: nat, k: nat)
    requires j <= k < |lengths| && forall i: nat :: i < |lengths| ==> Falls(lengths, i)
    ensures lengths[j] >= lengths[k]
    decreases k
  {
    if j < k {
      AroundCircle(lengths, j, k - 1);
      assert Falls(lengths, k - 1);
    }
  }

  lemma NoFall(lengths: seq<nat>, g: nat)
    requires g < |lengths| && forall i: nat :: i < |lengths| ==> Falls(lengths, i)
    ensures lengths[g] == lengths[Next(g, |lengths|)]
  {
    var last := |lengths| - 1;
    assert Falls(lengths, g) && Falls(lengths, last);
    AroundCircle(lengths, 0, g);
    if g < last {
      AroundCircle(lengths, g + 1, last);
    }
  }

  /** On a cycle of references, of any length and through any mixture of f-strings, sums and names, one value that
      adds text is enough: whatever the table starts with, every pass changes something. */
  lemma CycleNeverSettles(body: seq<Statement>, initial: Bindings, cycle: seq<nat>, g: nat, n: nat)
    requires g < |cycle| && forall j: nat :: j < |cycle| ==> Follows(body, Bindable(body, initial), cycle, j)
    requires GrowsAt(body, Bindable(body, initial), cycle, g)
    ensures !Settled(body, After(body, initial, n))
  {
    var b := After(body, initial, n);
    if Settled(body, b) {
      SettledKeys(body, initial, n);
      var lengths := Lengths(body, b, cycle);
      forall j: nat | j < |cycle| ensures Falls(lengths, j) {
        Shrinks(body, b, cycle, j);
      }
      NoFall(lengths, g);
      Shrinks(body, b, cycle, g);
    }
  }

  ghost function Lengths(body: seq<Statement>, b: Bindings, cycle: seq<nat>): (lengths: seq<nat>)
    ensures |lengths| == |cycle| && forall j: nat :: j < |cycle| ==> lengths[j] == LengthHere(body, b, cycle, j)
  {
    seq(|cycle|, j requires 0 <= j < |cycle| => LengthHere(body, b, cycle, j))
  }

  ghost function LengthHere(body: seq<Statement>, b: Bindings, cycle: seq<nat>, j: nat): nat
    requires j < |cycle|
  {
    if Follows(body, b.Keys, cycle, j) then LengthOf(b, body[cycle[j]].name) else 0
  }

  function LengthOf(b: Bindings, x: string): nat {
    if x in b then |b[x]| else 0
  }

  lemma Shrinks(body: seq<Statement>, b: Bindings, cycle: seq<nat>, j: nat)
    requires Settled(body, b) && j < |cycle| && Follows(body, b.Keys, cycle, j)
    requires Follows(body, b.Keys, cycle, Next(j, |cycle|))
    ensures var lengths := Lengths(body, b, cycle);
      Falls(lengths, j) && (GrowsAt(body, b.Keys, cycle, j) ==> lengths[j] > lengths[Next(j, |cycle|)])
  {
    SettledHolds(body, b, cycle[j]);
    LongEnough(body[cycle[j]].value, b, body[cycle[Next(j, |cycle|)]].name);
  }

  /** Fields add text: the f-strings whose fields hold names that can be bound have text of their own, or stand in a
      sum with something that has. */
  ghost predicate FieldsGrow(body: seq<Statement>, keys: set<string>) {
    forall i: nat, id :: Fires(body, i, keys) && id in FieldRefs(body[i].value, keys) && id in Firing(body, keys) ==>
      Grows(body[i].value, id, keys)
  }

  /** The length of each name's text in a settled table is a weak ranking. */
  lemma SettledRanked(body: seq<Statement>, initial: Bindings, n: nat, b: Bindings)
    requires AssignsOnce(body) && initial.Keys !! Targets(body) && FieldsGrow(body, Bindable(body, initial))
    requires b == After(body, initial, n) && Settled(body, b)
    ensures FieldRanked(body, initial, (x: string) => LengthOf(b, x))
  {
    var keys := Bindable(body, initial);
    var level: string -> nat := (x: string) => LengthOf(b, x);
    SettledKeys(body, initial, n);
    forall i: nat, id | Fires(body, i, keys) && id in Refs(body[i].value, keys) && id in Firing(body, keys)
      ensures level(id) <= level(body[i].name)
      ensures id in FieldRefs(body[i].value, keys) || body[i].name in initial ==> level(id) < level(body[i].name)
    {
      SettledHolds(body, b, i);
      LongEnough(body[i].value, b, id);
      assert body[i].name in Targets(body);
    }
  }

  /** Where fields add text and no assigned name has a value from the start, the loop ends exactly when the references
      among the names that can be bound have no cycle; otherwise every pass changes something. */
  lemma SettlesExactly(body: seq<Statement>, initial: Bindings)
    requires AssignsOnce(body) && initial.Keys !! Targets(body) && FieldsGrow(body, Bindable(body, initial))
    ensures (exists n :: Settled(body, After(body, initial, n))) <==>
            exists rank :: Ranked(body, Bindable(body, initial), rank)
  {
    if exists n :: Settled(body, After(body, initial, n)) {
      var n :| Settled(body, After(body, initial, n));
      var b := After(body, initial, n);
      SettledRanked(body, initial, n, b);
      FieldRanks(body, initial, (x: string) => LengthOf(b, x));
    }
    if exists rank :: Ranked(body, Bindable(body, initial), rank) {
      var rank :| Ranked(body, Bindable(body, initial), rank);
      RankedSettles(body, initial, rank, |Targets(body)|);
    }
  }

  // ----- The loop -----

  /** The `for` loop of one pass. */
  method Pass(body: seq<Statement>, before: Bindings) returns (bindings: Bindings, changed: bool)
    ensures bindings == During(body, |body|, before)
    ensures changed <==> !Settled(body, before)
  {
    bindings, changed := before, false;
    for k := 0 to |body|
      invariant bindings == During(body, k, before)
      invariant !changed ==> forall j :: 0 <= j <= k ==> During(body, j, before) == before
      invariant changed ==> !Settled(body, before)
    {
      var st := body[k];
      ghost var was := bindings;
      if st.Binding? {
        var value := StaticText(st.value, bindings);
        if value.Some? && Get(bindings, st.name) != value {
          bindings := bindings[st.name := value.value];
          changed := true;
        }
      }
      assert During(body, k + 1, before) == bindings;
      assert bindings != was ==> During(body, k + 1, before) != During(body, k, before);
    }
  }

  /** `_string_bindings`: it ends whenever some pass changes nothing, with the table that this pass leaves. */
  method StringTable(body: seq<Statement>, initial: Bindings, ghost n: nat)
      returns (bindings: Bindings, ghost passes: nat)
    requires Settled(body, After(body, initial, n))
    ensures Settled(body, bindings) && bindings == After(body, initial, passes) && passes <= n + 1
  {
    bindings, passes := initial, 0;
    var changed := true;
    while changed
      invariant bindings == After(body, initial, passes) && passes <= n + 1
      invariant changed ==> passes <= n
      invariant !changed ==> Settled(body, bindings)
      decreases changed, n + 1 - passes
    {
      ghost var before := bindings;
      bindings, changed := Pass(body, bindings);
      passes := passes + 1;
      if !changed {
        assert During(body, |body|, before) == before;
      }
    }
  }

  // ----- Two f-strings that mention each other -----

  function Prefixed(prefix: string, id: string): Expr {
    FString([Chars(prefix), Field(Name(id), true)])
  }

  /** `x = f"a{y}"` and `y = f"b{x}"`: each name is assigned once, and every pass makes both longer. */
  lemma TwoFieldsNeverSettle(body: seq<Statement>, x: string, y: string, p: string, q: string, n: nat)
    requires x != y && |p| > 0 && body == [Binding(x, Prefixed(p, y)), Binding(y, Prefixed(q, x))]
    ensures AssignsOnce(body) && !Settled(body, After(body, map[], n))
  {
    var keys := Bindable(body, map[]);
    assert Fires(body, 0, keys) && Fires(body, 1, keys);
    assert x in Firing(body, keys) && y in Firing(body, keys);
    PrefixedRefs(p, y, keys);
    PrefixedRefs(q, x, keys);
    var cycle: seq<nat> := [0, 1];
    assert Follows(body, keys, cycle, 0) && Follows(body, keys, cycle, 1);
    CycleNeverSettles(body, map[], cycle, 0, n);
  }

  lemma PrefixedRefs(prefix: string, id: string, keys: set<string>)
    requires id in keys
    ensures id in Refs(Prefixed(prefix, id), keys) && (|prefix| > 0 ==> Grows(Prefixed(prefix, id), id, keys))
  {
    var e := Prefixed(prefix, id);
    assert e.pieces[0] == Chars(prefix);
    assert id in PieceRefs(e.pieces[1], keys);
  }

  // ----- A cycle of copies -----

  /** `id`, or an f-string of the one field `{id}`. */
  predicate Copies(e: Expr, id: string) {
    e == Name(id) || exists plain :: e == FString([Field(Name(id), plain)])
  }

  /** Each name is assigned a copy of the next, the last one a copy of the first. */
  ghost predicate CopyCycle(body: seq<Statement>, xs: seq<string>) {
    |body| == |xs| > 0 && AllDifferent(xs) && forall i: nat :: i < |xs| ==> CopiesNext(body[i], xs, i)
  }

  ghost predicate AllDifferent(xs: seq<string>) {
    forall i, j :: 0 <= i < j < |xs| ==> xs[i] != xs[j]
  }

  ghost predicate CopiesNext(st: Statement, xs: seq<string>, i: nat)
    requires i < |xs|
  {
    st.Binding? && st.name == xs[i] && Copies(st.value, xs[Next(i, |xs|)])
  }

  /** The table binds the names to the texts of `row`, in their order. */
  ghost predicate Row(xs: seq<string>, b: Bindings, row: seq<string>) {
    |row| == |xs| && forall i :: 0 <= i < |xs| ==> xs[i] in b && b[xs[i]] == row[i]
  }

  lemma CopyText(e: Expr, id: string, b: Bindings)
    requires Copies(e, id) && id in b
    ensures StaticText(e, b) == Some(b[id])
  {
    if e != Name(id) {
      var plain :| e == FString([Field(Name(id), plain)]);
      OneFieldText([Field(Name(id), plain)], id, plain, b);
    }
  }

  lemma OneFieldText(pieces: seq<Piece>, id: string, plain: bool, b: Bindings)
    requires pieces == [Field(Name(id), plain)]
    ensures PiecesText(pieces, b) == if id in b then b[id] else "{}"
  {
    assert StaticText(Name(id), b) == Get(b, id);
    assert PiecesText(pieces[..0], b) == "";
    assert PiecesText(pieces, b) == "" + PieceText(pieces[0], b);
  }

  /** The name that a pass copies into name `i`: the next, but the last name gets what the first has got already. */
  function Source(i: nat, m: nat): (j: nat)
    requires i < m
    ensures j < m
  {
    if i + 1 < m then i + 1 else if m > 1 then 1 else 0
  }

  /** The row once the first `k` names were given their copies. */
  ghost function Rotated(row: seq<string>, k: nat): (r: seq<string>)
    ensures |r| == |row|
    ensures forall i: nat {:trigger r[i]} :: i < |row| ==> r[i] == row[if i < k then Source(i, |row|) else i]
  {
    seq(|row|, i requires 0 <= i < |row| => row[if i < k then Source(i, |row|) else i])
  }

  lemma RotatedMore(row: seq<string>, k: nat)
    requires 0 < k <= |row|
    ensures Rotated(row, k) == Rotated(row, k - 1)[k - 1 := Rotated(row, k - 1)[Next(k - 1, |row|)]]
  {
  }

  lemma OneCopy(st: Statement, xs: seq<string>, d: Bindings, i: nat, row: seq<string>)
    requires i < |xs| && CopiesNext(st, xs, i) && AllDifferent(xs) && Row(xs, d, row)
    ensures Assign(st, d) == d[xs[i] := row[Next(i, |xs|)]]
    ensures Row(xs, Assign(st, d), row[i := row[Next(i, |xs|)]])
  {
    CopyText(st.value, xs[Next(i, |xs|)], d);
  }

  lemma {:induction false} DuringCopies(body: seq<Statement>, xs: seq<string>, b: Bindings, k: nat, row: seq<string>)
    requires CopyCycle(body, xs) && Row(xs, b, row) && k <= |body|
    ensures Row(xs, During(body, k, b), Rotated(row, k))
  {
    if k > 0 {
      DuringCopies(body, xs, b, k - 1, row);
      RotatedCopy(body[k - 1], xs, During(body, k - 1, b), k, row);
    } else {
      NotRotated(row);
    }
  }

  lemma NotRotated(row: seq<string>)
    ensures Rotated(row, 0) == row
  {
  }

  lemma RotatedCopy(st: Statement, xs: seq<string>, d: Bindings, k: nat, row: seq<string>)
    requires 0 < k <= |xs| == |row| && CopiesNext(st, xs, k - 1) && AllDifferent(xs)
    requires Row(xs, d, Rotated(row, k - 1))
    ensures Row(xs, Assign(st, d), Rotated(row, k))
  {
    OneCopy(st, xs, d, k - 1, Rotated(row, k - 1));
    RotatedMore(row, k);
  }

  /** The texts that go round: all but the first, which is overwritten. */
  ghost function Texts(row: seq<string>): set<string> {
    set i: nat | i < |row| && (i > 0 || |row| == 1) :: row[i]
  }

  lemma RotatedTexts(row: seq<string>)
    ensures Texts(Rotated(row, |row|)) == Texts(row)
  {
    var r, m := Rotated(row, |row|), |row|;
    forall i: nat | i < m && (i > 0 || m == 1) ensures row[i] in Texts(r) {
      var j: nat := if i > 1 then i - 1 else m - 1;
      assert r[j] == row[i];
    }
  }

  lemma {:induction false} RunKeepsTexts(body: seq<Statement>, xs: seq<string>, b: Bindings, n: nat, row: seq<string>)
      returns (row': seq<string>)
    requires CopyCycle(body, xs) && Row(xs, b, row)
    ensures Row(xs, After(body, b, n), row') && Texts(row') == Texts(row)
  {
    row' := row;
    if n > 0 {
      var before := RunKeepsTexts(body, xs, b, n - 1, row);
      DuringCopies(body, xs, After(body, b, n - 1), |body|, before);
      RotatedTexts(before);
      row' := Rotated(before, |before|);
    }
  }

  ghost predicate Uniform(row: seq<string>, from: nat) {
    forall i, j :: from <= i < |row| && from <= j < |row| ==> row[i] == row[j]
  }

  /** In a settled table all names have one text. */
  lemma SettledUniform(body: seq<Statement>, xs: seq<string>, b: Bindings, row: seq<string>)
    requires CopyCycle(body, xs) && Row(xs, b, row) && Settled(body, b)
    ensures Uniform(row, 0)
  {
    forall i: nat | i < |xs| ensures row[i] == row[0] {
      SettledEqual(body, xs, b, i, row);
    }
  }

  lemma {:induction false} SettledEqual(body: seq<Statement>, xs: seq<string>, b: Bindings, i: nat, row: seq<string>)
    requires CopyCycle(body, xs) && Row(xs, b, row) && Settled(body, b) && i < |xs|
    ensures row[i] == row[0]
    decreases i
  {
    if i > 0 {
      SettledEqual(body, xs, b, i - 1, row);
      OneCopy(body[i - 1], xs, b, i - 1, row);
      assert During(body, i - 1, b) == b && During(body, i, b) == b;
      assert b[xs[i - 1]] == row[Next(i - 1, |xs|)];
    }
  }

  lemma {:induction false} UniformStays(body: seq<Statement>, xs: seq<string>, b: Bindings, k: nat, row: seq<string>)
    requires CopyCycle(body, xs) && Row(xs, b, row) && Uniform(row, 0) && k <= |body|
    ensures During(body, k, b) == b
  {
    if k > 0 {
      UniformStays(body, xs, b, k - 1, row);
      OneCopy(body[k - 1], xs, b, k - 1, row);
      assert row[k - 1] == row[Next(k - 1, |xs|)];
    }
  }

  lemma UniformTexts(row: seq<string>, before: seq<string>)
    requires Uniform(row, 0) && Texts(row) == Texts(before) && |row| == |before|
    ensures Uniform(before, 1)
  {
    forall i: nat | 1 <= i < |before| ensures before[i] == row[0] {
      assert before[i] in Texts(row);
    }
  }

  lemma RotatedUniform(row: seq<string>)
    requires Uniform(row, 1)
    ensures Uniform(Rotated(row, |row|), 0)
  {
    var r := Rotated(row, |row|);
    forall i: nat | i < |row| ensures r[i] == if |row| > 1 then row[1] else row[0] {
    }
  }

  lemma UniformSettles(body: seq<Statement>, xs: seq<string>, b: Bindings, row: seq<string>) returns (n: nat)
    requires CopyCycle(body, xs) && Row(xs, b, row) && Uniform(row, 1)
    ensures n == 1 && Settled(body, After(body, b, n))
  {
    n := 1;
    var c := After(body, b, 1);
    assert After(body, b, 0) == b;
    DuringCopies(body, xs, b, |body|, row);
    RotatedUniform(row);
    forall k: nat | k <= |body| ensures During(body, k, c) == c {
      UniformStays(body, xs, c, k, Rotated(row, |row|));
    }
  }

  /** Where no text is added, the texts of a cycle go round for ever: once all names are bound, the loop ends exactly
      when all but the first have the same text. */
  lemma CopyCycleExactly(body: seq<Statement>, xs: seq<string>, b: Bindings, row: seq<string>)
    requires CopyCycle(body, xs) && Row(xs, b, row)
    ensures (exists n :: Settled(body, After(body, b, n))) <==> Uniform(row, 1)
  {
    if exists n :: Settled(body, After(body, b, n)) {
      var n :| Settled(body, After(body, b, n));
      var row' := RunKeepsTexts(body, xs, b, n, row);
      SettledUniform(body, xs, After(body, b, n), row');
      UniformTexts(row', row);
    }
    if Uniform(row, 1) {
      var n := UniformSettles(body, xs, b, row);
      assert exists k :: Settled(body, After(body, b, k)) by {
        assert Settled(body, After(body, b, n));
      }
    }
  }

  lemma {:induction false} AfterShift(body: seq<Statement>, b: Bindings, n: nat)
    ensures After(body, After(body, b, 1), n) == After(body, b, n + 1)
  {
    if n > 0 {
      AfterShift(body, b, n - 1);
    }
  }

  /** The first pass over f-strings of one field each, none of the names being bound: all get the same text. */
  lemma {:induction false} FirstFields(body: seq<Statement>, xs: seq<string>, b: Bindings, k: nat)
    requires CopyCycle(body, xs) && (forall i :: 0 <= i < |body| ==> body[i].value.FString?) && k <= |body|
    requires forall i :: 0 <= i < |xs| ==> xs[i] !in b
    ensures var d := During(body, k, b);
      forall i :: 0 <= i < |xs| ==> if i < k then xs[i] in d && d[xs[i]] == "{}" else xs[i] !in d
  {
    if k > 0 {
      FirstFields(body, xs, b, k - 1);
      FieldCopy(body[k - 1], xs, During(body, k - 1, b), k - 1);
    }
  }

  lemma FieldCopy(st: Statement, xs: seq<string>, d: Bindings, i: nat)
    requires i < |xs| && CopiesNext(st, xs, i) && st.value.FString?
    requires var id := xs[Next(i, |xs|)]; id in d ==> d[id] == "{}"
    ensures Assign(st, d) == d[xs[i] := "{}"]
  {
    var id := xs[Next(i, |xs|)];
    var plain :| st.value == FString([Field(Name(id), plain)]);
    OneFieldText([Field(Name(id), plain)], id, plain, d);
  }

  /** `x = f"{y}"`, `y = f"{x}"`, and longer cycles of this kind: with none of the names bound the loop ends. */
  lemma FieldCopiesSettle(body: seq<Statement>, xs: seq<string>, b: Bindings)
    requires CopyCycle(body, xs) && forall i :: 0 <= i < |body| ==> body[i].value.FString?
    requires forall i :: 0 <= i < |xs| ==> xs[i] !in b
    ensures exists n :: Settled(body, After(body, b, n))
  {
    var row := seq(|xs|, i => "{}");
    FirstFields(body, xs, b, |body|);
    assert After(body, b, 0) == b;
    CopyCycleExactly(body, xs, After(body, b, 1), row);
    var n :| Settled(body, After(body, After(body, b, 1), n));
    AfterShift(body, b, n);
  }
}
