/**
The policy expression evaluator and its free-name analysis
(app/policy_as_code/evaluator.py, `SafeEvaluator`, `free_names`).

Parsing, arithmetic and the registry functions are given by a `Library` of arbitrary pure
functions. A quantifier's predicate is a string that is parsed and evaluated per item, possibly
one that names itself through the parameters; `depth` is how many such evaluations may be
nested before the interpreter gives up.
*/
module PolicyExpr {
  import opened Common
  import opened PyValue

  datatype UnaryOp = Not | USub | UAdd | Invert
  datatype ArithOp = Add | Sub | Mult | Div | Mod | FloorDiv | OtherArith(name: string)
  datatype CmpOp = Eq | NotEq | Lt | LtE | Gt | GtE | In | NotIn | Is | IsNot

  datatype Link = Link(op: CmpOp, right: Expr)

  datatype Expr =
    | Const(value: Value)
    | ListOf(items: seq<Expr>)                                            // lists and tuples
    | Name(id: string)
    | Attr(base: Expr, attr: string)
    | BoolOp(isAnd: bool, operands: seq<Expr>)
    | Unary(uop: UnaryOp, operand: Expr)
    | BinOp(aop: ArithOp, left: Expr, right: Expr)
    | Compare(first: Expr, links: seq<Link>)
    | Call(func: Expr, args: seq<Expr>, keywords: seq<Expr>)
    | Other(children: seq<Expr>)                                          // every other construct

  datatype Fault = PolicyError(message: string) | TypeError | ZeroDivision | ValueError | Recursion | Crash

  type Outcome = Result<Value, Fault>

  /** A dictionary: the evidence, the parameters, or one item of a collection. */
  type Context = map<Key, Value>

  datatype Library = Library(
    parse: string -> Result<Expr, string>,
    arith: (ArithOp, Value, Value) -> Outcome,
    apply: (string, seq<Value>) -> Outcome)

  const QUANTIFIERS: set<string> := {"all", "any", "count"}
  const FUNCTIONS: set<string> :=
    {"len", "abs", "round", "min", "max", "sum", "lower", "upper", "startswith", "endswith", "contains",
        "matches"} + QUANTIFIERS
  const LITERALS: set<string> := {"True", "true", "False", "false", "None", "null"}

  // ---------- names and dotted paths ----------

  predicate Dunder(name: string) {
    Contains(name, "__")
  }

  function Get(m: Context, name: string): Value {
    if StrKey(name) in m then m[StrKey(name)] else Null
  }

  function ResolveName(name: string, ctx: Context, params: Context): Outcome {
    if name == "True" || name == "true" then Ok(Bool(true))
    else if name == "False" || name == "false" then Ok(Bool(false))
    else if name == "None" || name == "null" then Ok(Null)
    else if Dunder(name) then Err(PolicyError("illegal name"))
    else if StrKey(name) in ctx then Ok(ctx[StrKey(name)])
    else Ok(Get(params, name))
  }

  /** The parts of a dotted name, base first; the outermost attribute is checked first. */
  function Path(e: Expr): (r: Result<seq<string>, Fault>)
    ensures r.Ok? ==> r.value != []
  {
    match e
    case Name(id) => Ok([id])
    case Attr(base, attr) =>
      if Dunder(attr) then Err(PolicyError("illegal attribute"))
      else
        var parts :- Path(base);
        Ok(parts + [attr])
    case _ => Err(PolicyError("attribute access only on named fields"))
  }

  function Navigate(v: Value, path: seq<string>): Value
    decreases path
  {
    if path == [] then v
    else if v.Dict? then Navigate(Get(v.m, path[0]), path[1..])
    else Null
  }

  function Dotted(e: Expr, ctx: Context, params: Context): Outcome {
    var path :- Path(e);
    Ok(Navigate(if StrKey(path[0]) in ctx then ctx[StrKey(path[0])] else Get(params, path[0]), path[1..]))
  }

  /** `_resolve_dotted`: gather the parts from the outside in, then walk down the dictionaries. */
  method ResolveDotted(e: Expr, ctx: Context, params: Context) returns (r: Outcome)
    requires e.Attr?
    ensures r == Dotted(e, ctx, params)
  {
    var parts: seq<string> := [];
    var cur := e;
    while cur.Attr?
      invariant Path(cur).Err? ==> Path(e) == Path(cur)
      invariant Path(cur).Ok? ==> Path(e).Ok? && Path(e).value == Path(cur).value + parts
      decreases cur
    {
      if Dunder(cur.attr) {
        return Err(PolicyError("illegal attribute"));
      }
      ghost var inner := Path(cur.base);
      assert inner.Ok? ==> inner.value + [cur.attr] + parts == inner.value + ([cur.attr] + parts);
      parts := [cur.attr] + parts;
      cur := cur.base;
    }
    if !cur.Name? {
      return Err(PolicyError("attribute access only on named fields"));
    }
    var val := if StrKey(cur.id) in ctx then ctx[StrKey(cur.id)] else Get(params, cur.id);
    ghost var start := val;
    assert ([cur.id] + parts)[1..] == parts;
    var i := 0;
    while i < |parts|
      invariant 0 <= i <= |parts|
      invariant Navigate(start, parts) == Navigate(val, parts[i..])
    {
      if !val.Dict? {
        return Ok(Null);
      }
      val := Get(val.m, parts[i]);
      i := i + 1;
    }
    return Ok(val);
  }

  // ---------- operators ----------

  function UnaryOn(op: UnaryOp, v: Value): Outcome {
    match op
    case Not => Ok(Bool(!Truthy(v)))
    case USub => if IsNumeric(v) then Ok(Int(-AsInt(v))) else Err(TypeError)
    case UAdd => if IsNumeric(v) then Ok(Int(AsInt(v))) else Err(TypeError)
    case Invert => Err(PolicyError("unsupported unary operator"))
  }

  function IsIn(a: Value, b: Value): Result<bool, Fault> {
    match b
    case List(items) => Ok(Member(a, items))
    case Str(s) => if a.Str? then Ok(Contains(s, a.s)) else Err(TypeError)
    case Dict(m) => if ToKey(a).Some? then Ok(ToKey(a).value in m) else Err(TypeError)
    case _ => Err(TypeError)
  }

  predicate IsOrdering(op: CmpOp) {
    op.Lt? || op.LtE? || op.Gt? || op.GtE?
  }

  predicate Supported(op: CmpOp) {
    !op.Is? && !op.IsNot?
  }

  function CompareOn(op: CmpOp, a: Value, b: Value): Result<bool, Fault> {
    match op
    case Eq => Ok(PyEq(a, b))
    case NotEq => Ok(!PyEq(a, b))
    case In => IsIn(a, b)
    case NotIn =>
      var r :- IsIn(a, b);
      Ok(!r)
    case Is => Err(PolicyError("unsupported comparison operator"))
    case IsNot => Err(PolicyError("unsupported comparison operator"))
    case _ =>
      match PyOrder(a, b)
      case None => Err(TypeError)
      case Some(sign) =>
        Ok(match op case Lt => sign < 0 case LtE => sign <= 0 case Gt => sign > 0 case _ => sign >= 0)
  }

  // ---------- quantifiers over a test ----------

  type Test = Value -> Result<bool, Fault>

  function AllItems(test: Test, items: seq<Value>): Result<bool, Fault> {
    if items == [] then Ok(true)
    else
      var t :- test(items[0]);
      if t then AllItems(test, items[1..]) else Ok(false)
  }

  function AnyItem(test: Test, items: seq<Value>): Result<bool, Fault> {
    if items == [] then Ok(false)
    else
      var t :- test(items[0]);
      if t then Ok(true) else AnyItem(test, items[1..])
  }

  function CountItems(test: Test, items: seq<Value>): Result<nat, Fault> {
    if items == [] then Ok(0)
    else
      var t :- test(items[0]);
      var n :- CountItems(test, items[1..]);
      Ok(if t then n + 1 else n)
  }

  function Quantify(name: string, test: Test, items: seq<Value>): Outcome {
    if name == "all" then
      var b :- AllItems(test, items);
      Ok(Bool(b))
    else if name == "any" then
      var b :- AnyItem(test, items);
      Ok(Bool(b))
    else
      var n :- CountItems(test, items);
      Ok(Int(n))
  }

  function TruthTest(): Test {
    v => Ok(Truthy(v))
  }

  function AsTruth(r: Outcome): Result<bool, Fault> {
    var v :- r;
    Ok(Truthy(v))
  }

  function ItemContext(item: Value): Context {
    if item.Dict? then item.m else map[StrKey("value") := item]
  }

  // ---------- the evaluator ----------

  /** `SafeEvaluator(ctx, params).eval(text)`. */
  function EvalText(lib: Library, text: string, ctx: Context, params: Context, depth: nat): Outcome
    decreases depth, 1
  {
    match lib.parse(text)
    case Err(message) => Err(PolicyError(message))
    case Ok(e) => Walk(lib, e, ctx, params, depth)
  }

  /** A predicate applied to one item. */
  function PredicateTest(lib: Library, text: string, params: Context, depth: nat): Test
    decreases depth, 2
  {
    item => AsTruth(EvalText(lib, text, ItemContext(item), params, depth))
  }

  function NoStackTest(): Test {
    _ => Err(Recursion)
  }

  function Walk(lib: Library, e: Expr, ctx: Context, params: Context, depth: nat): Outcome
    decreases depth, 0, e, 1
  {
    match e
    case Const(v) => Ok(v)
    case ListOf(items) =>
      var vs :- WalkAll(lib, items, ctx, params, depth);
      Ok(List(vs))
    case Name(id) => ResolveName(id, ctx, params)
    case Attr(_, _) => Dotted(e, ctx, params)
    case BoolOp(isAnd, operands) => WalkBool(lib, isAnd, operands, ctx, params, depth)
    case Unary(op, operand) =>
      if op.Invert? then Err(PolicyError("unsupported unary operator"))
      else
        var v :- Walk(lib, operand, ctx, params, depth);
        UnaryOn(op, v)
    case BinOp(op, l, r) =>
      if op.OtherArith? then Err(PolicyError("unsupported arithmetic operator"))
      else Lenient(Arithmetic(lib, op, Walk(lib, l, ctx, params, depth), Walk(lib, r, ctx, params, depth)))
    case Compare(first, links) =>
      var left :- Walk(lib, first, ctx, params, depth);
      WalkLinks(lib, left, links, ctx, params, depth)
    case Call(func, args, keywords) =>
      if !func.Name? then Err(PolicyError("only named function calls are allowed"))
      else if func.id !in FUNCTIONS then Err(PolicyError("unknown function: " + func.id))
      else if keywords != [] then Err(PolicyError("keyword arguments not allowed"))
      else if func.id in QUANTIFIERS then WalkQuantifier(lib, func.id, args, ctx, params, depth)
      else
        var vs :- WalkAll(lib, args, ctx, params, depth);
        Forgiving(lib.apply(func.id, vs))
    case Other(_) => Err(PolicyError("disallowed expression element"))
  }

  /** The left operand's fault comes first, then the right one's, then the operator's own. */
  function Arithmetic(lib: Library, op: ArithOp, left: Outcome, right: Outcome): Outcome {
    var a :- left;
    var b :- right;
    lib.arith(op, a, b)
  }

  /** Arithmetic answers 0 for a TypeError or a division by zero, its operands' own included. */
  function Lenient(r: Outcome): Outcome {
    if r == Err(TypeError) || r == Err(ZeroDivision) then Ok(Int(0)) else r
  }

  /** A registry function answers None for a TypeError or a ValueError of its own. */
  function Forgiving(r: Outcome): Outcome {
    if r == Err(TypeError) || r == Err(ValueError) then Ok(Null) else r
  }

  function WalkAll(lib: Library, es: seq<Expr>, ctx: Context, params: Context, depth: nat): Result<seq<Value>, Fault>
    decreases depth, 0, es, 0
  {
    if es == [] then Ok([])
    else
      var v :- Walk(lib, es[0], ctx, params, depth);
      var vs :- WalkAll(lib, es[1..], ctx, params, depth);
      Ok([v] + vs)
  }

  function WalkBool(lib: Library, isAnd: bool, es: seq<Expr>, ctx: Context, params: Context, depth: nat): Outcome
    decreases depth, 0, es, 0
  {
    if es == [] then Ok(Bool(isAnd))
    else
      var v :- Walk(lib, es[0], ctx, params, depth);
      if Truthy(v) == isAnd then WalkBool(lib, isAnd, es[1..], ctx, params, depth) else Ok(Bool(!isAnd))
  }

  function WalkRight(lib: Library, link: Link, ctx: Context, params: Context, depth: nat): Outcome
    decreases depth, 0, link, 0
  {
    Walk(lib, link.right, ctx, params, depth)
  }

  /** None is in no order, and a pair that cannot be compared does not hold. */
  function Holds(op: CmpOp, left: Value, right: Value): Result<bool, Fault> {
    if left.Null? && IsOrdering(op) then Ok(false)
    else
      var r := CompareOn(op, left, right);
      if r == Err(TypeError) then Ok(false) else r
  }

  /** A chained comparison: each right operand is evaluated only if the links before it hold. */
  function WalkLinks(lib: Library, left: Value, links: seq<Link>, ctx: Context, params: Context, depth: nat): Outcome
    decreases depth, 0, links, 0
  {
    if links == [] then Ok(Bool(true))
    else if !Supported(links[0].op) then Err(PolicyError("unsupported comparison operator"))
    else
      var right :- WalkRight(lib, links[0], ctx, params, depth);
      var holds :- Holds(links[0].op, left, right);
      if holds then WalkLinks(lib, right, links[1..], ctx, params, depth) else Ok(Bool(false))
  }

  /** The first argument is the collection, the second a predicate; any others are not looked at. */
  function WalkQuantifier(lib: Library, name: string,
      args: seq<Expr>, ctx: Context, params: Context, depth: nat): Outcome
    decreases depth, 0, args, 0
  {
    if args == [] then Ok(if name == "count" then Int(0) else Bool(false))
    else
      var collection :- Walk(lib, args[0], ctx, params, depth);
      var p :- if |args| >= 2 then Walk(lib, args[1], ctx, params, depth) else Ok(Null);
      var test :=
        if !p.Str? then TruthTest()
        else if depth == 0 then NoStackTest()
        else PredicateTest(lib, p.s, params, depth - 1);
      Quantify(name, test, if collection.List? then collection.items else [])
  }
}
