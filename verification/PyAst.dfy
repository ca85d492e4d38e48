/** The part of Python's abstract syntax that the source-witness analyser looks at. */
module PyAst {
  import opened Text

  datatype Lit = Str(s: string) | Int(i: int) | Bool(b: bool) | NoneLit

  datatype Expr =
    | Const(lit: Lit)
    | Name(id: string)
    | Attr(base: Expr, attr: string)
    | Sub(base: Expr, index: Expr)
    | Call(func: Expr, args: seq<Expr>, keywords: seq<Keyword>)
    | Await(awaited: Expr)
    | Add(left: Expr, right: Expr)
    | FString(pieces: seq<Piece>)
    | Tuple(elts: seq<Expr>)
    | Compare(first: Expr, comparators: seq<Expr>)
    | BoolOp(operands: seq<Expr>)
    | IfExp(test: Expr, body: Expr, orelse: Expr)
    | Lambda(params: set<string>, defaults: seq<Expr>, result: Expr)

  /** `name=value`, or `**value` without a name. */
  datatype Keyword = Keyword(arg: Option<string>, value: Expr)

  /** A literal piece of an f-string, or a replacement field; `plain` means no conversion and no format. */
  datatype Piece = Chars(s: string) | Field(value: Expr, plain: bool)

  /** `ast.iter_child_nodes`, restricted to expressions. */
  function Children(e: Expr): (children: seq<Expr>)
    ensures forall i :: 0 <= i < |children| ==> children[i] < e
  {
    match e
    case Const(_) => []
    case Name(_) => []
    case Attr(base, _) => [base]
    case Sub(base, index) => [base, index]
    case Call(func, args, keywords) =>
      var values := seq(|keywords|, i requires 0 <= i < |keywords| => keywords[i].value);
      [func] + args + values
    case Await(awaited) => [awaited]
    case Add(left, right) => [left, right]
    case FString(pieces) => FieldValues(pieces)
    case Tuple(elts) => elts
    case Compare(first, comparators) => [first] + comparators
    case BoolOp(operands) => operands
    case IfExp(test, body, orelse) => [test, body, orelse]
    case Lambda(_, defaults, result) => defaults + [result]
  }

  predicate IsField(pieces: seq<Piece>, value: Expr) {
    exists k :: 0 <= k < |pieces| && pieces[k].Field? && pieces[k].value == value
  }

  lemma IsFieldMore(pieces: seq<Piece>)
    requires |pieces| > 0
    ensures forall value :: IsField(pieces[..|pieces| - 1], value) ==> IsField(pieces, value)
    ensures var last := pieces[|pieces| - 1]; last.Field? ==> IsField(pieces, last.value)
  {
    var init := pieces[..|pieces| - 1];
    forall value | IsField(init, value) ensures IsField(pieces, value) {
      var k :| 0 <= k < |init| && init[k].Field? && init[k].value == value;
      assert pieces[k].value == value;
    }
  }

  function FieldValues(pieces: seq<Piece>): (values: seq<Expr>)
    ensures forall i :: 0 <= i < |values| ==> IsField(pieces, values[i])
  {
    if |pieces| == 0 then []
    else
      var piece := pieces[|pieces| - 1];
      IsFieldMore(pieces);
      FieldValues(pieces[..|pieces| - 1]) + if piece.Field? then [piece.value] else []
  }

  /** The names under a node: the `ast.Name` identifiers that `ast.walk` meets. */
  function Names(e: Expr): set<string>
    decreases e
  {
    (if e.Name? then {e.id} else {}) +
    set i, n | 0 <= i < |Children(e)| && n in Names(Children(e)[i]) :: n
  }

  /** The same, without descending into lambdas below the root, as `_executable_nodes` does. */
  function ExecNames(e: Expr): set<string>
    decreases e
  {
    (if e.Name? then {e.id} else {}) +
    set i, n | 0 <= i < |Children(e)| && !Children(e)[i].Lambda? && n in ExecNames(Children(e)[i]) :: n
  }

  /** How often a name occurs under a node. */
  function Occurrences(e: Expr, id: string): nat
    decreases e, |Children(e)| + 1
  {
    (if e == Name(id) then 1 else 0) + OccurrencesFrom(e, id, |Children(e)|)
  }

  function OccurrencesFrom(e: Expr, id: string, k: nat): nat
    requires k <= |Children(e)|
    decreases e, k
  {
    if k == 0 then 0 else OccurrencesFrom(e, id, k - 1) + Occurrences(Children(e)[k - 1], id)
  }

  predicate HasBranching(e: Expr)
    decreases e
  {
    e.BoolOp? || e.IfExp? || e.Lambda? || exists i :: 0 <= i < |Children(e)| && HasBranching(Children(e)[i])
  }

  function StripAwait(e: Expr): Expr {
    if e.Await? then e.awaited else e
  }

  /** `_ast_dotted_name` */
  function DottedName(e: Expr): Option<string> {
    match e
    case Name(id) => Some(id)
    case Attr(base, attr) =>
      (match DottedName(base)
       case None => None
       case Some(prefix) => Some(prefix + "." + attr))
    case _ => None
  }

  /** `_root_name` */
  function RootName(e: Expr): Option<string> {
    match e
    case Attr(base, _) => RootName(base)
    case Sub(base, _) => RootName(base)
    case Call(func, args, keywords) =>
      if func == Name("vars") && |args| == 1 && |keywords| == 0 && args[0].Name? then Some(args[0].id) else None
    case Name(id) => Some(id)
    case _ => None
  }

  function AsciiLower(s: string): (t: string)
    ensures |t| == |s|
  {
    seq(|s|, i requires 0 <= i < |s| => if 'A' <= s[i] <= 'Z' then (s[i] as int + 32) as char else s[i])
  }

  function AsciiUpper(s: string): (t: string)
    ensures |t| == |s|
  {
    seq(|s|, i requires 0 <= i < |s| => if 'a' <= s[i] <= 'z' then (s[i] as int - 32) as char else s[i])
  }
}
