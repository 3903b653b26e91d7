/**
The expression evaluator of app/policy_as_code/cel.py. The evaluator keeps a mutable
stack of macro scopes; it is proved to compute a pure environment semantics and to leave
the stack as it found it, whether it succeeds or fails.
*/
module CelEval {
  import opened Common
  import opened CelSyntax
  import opened PyValue
  import CelParser
  import RegexSearch

  /** A fault the language raises itself, or one Python raises under it; `has` swallows only the first. */
  datatype Fault = CelFault | PyFault

  type Outcome = Result<Value, Fault>
  type Env = map<string, Value>

  /** The text and number conversions (lower, upper, int, double, string), as an arbitrary pure function. */
  type Conversion = (string, Value) -> Outcome

  // ---------- operators ----------

  function Abs(n: int): nat {
    if n < 0 then -n else n
  }

  /** Truncating division computed from floor division of magnitudes, as the code does. */
  function Quotient(a: int, b: int): int
    requires b != 0
  {
    var q := Abs(a) / Abs(b);
    if (a < 0) != (b < 0) then -q else q
  }

  function Remainder(a: int, b: int): int
    requires b != 0
  {
    a - b * Quotient(a, b)
  }

  /** CEL integer arithmetic: division truncates toward zero and the remainder follows the dividend. */
  lemma {:induction false} TruncatingDivision(a: int, b: int)
    requires b != 0
    ensures a == Quotient(a, b) * b + Remainder(a, b)
    ensures Abs(Remainder(a, b)) < Abs(b)
    ensures Remainder(a, b) != 0 ==> (Remainder(a, b) < 0 <==> a < 0)
    ensures Abs(Quotient(a, b) * b) <= Abs(a)
  {
    var q0, p := Magnitudes(Abs(a), Abs(b));
    Signs(a, b, q0, p);
    Recomposes(a, b, Quotient(a, b));
    SignedRemainder(a, b, p, Quotient(a, b) * b);
  }

  lemma {:induction false} Magnitudes(m: nat, n: nat) returns (q0: int, p: int)
    requires n > 0
    ensures q0 == m / n && p == q0 * n && 0 <= p <= m < p + n
  {
    q0 := m / n;
    p := q0 * n;
    assert m == p + m % n;
  }

  lemma {:induction false} Recomposes(a: int, b: int, q: int)
    ensures a - b * q == a - q * b
  {
  }

  /** The product of quotient and divisor is that of their magnitudes, with the dividend's sign. */
  lemma {:induction false} Signs(a: int, b: int, q0: int, p: int)
    requires b != 0 && p == q0 * Abs(b) && 0 <= Abs(a) - p < Abs(b)
    ensures (if (a < 0) != (b < 0) then -q0 else q0) * b == if a < 0 then -p else p
  {
    if b < 0 {
      assert q0 * b == -p;
    }
  }

  lemma {:induction false} SignedRemainder(a: int, b: int, p: int, qb: int)
    requires 0 <= p <= Abs(a) < p + Abs(b) && qb == if a < 0 then -p else p
    ensures Abs(a - qb) < Abs(b) && Abs(qb) <= Abs(a)
    ensures a - qb != 0 ==> (a - qb < 0 <==> a < 0)
  {
  }

  /** `_require_numbers` and the operators it guards; a bool is not a number. */
  function Arith(op: BinOp, a: Value, b: Value): Outcome {
    if !(a.Int? && b.Int?) then Err(CelFault)
    else
      match op
      case Add => Ok(Int(a.n + b.n))
      case Sub => Ok(Int(a.n - b.n))
      case Mul => Ok(Int(a.n * b.n))
      case Div => if b.n == 0 then Err(CelFault) else Ok(Int(Quotient(a.n, b.n)))
      case Mod => if b.n == 0 then Err(CelFault) else Ok(Int(Remainder(a.n, b.n)))
      case _ => Err(CelFault)
  }

  function Order(op: BinOp, a: Value, b: Value): Outcome {
    if a.Bool? || b.Bool? || a.Null? || b.Null? then Err(CelFault)
    else
      match PyOrder(a, b)
      case None => Err(PyFault)
      case Some(c) => Ok(Bool(match op case Lt => c < 0 case Le => c <= 0 case Gt => c > 0 case _ => c >= 0))
  }

  function IsIn(a: Value, b: Value): Outcome {
    match b
    case Dict(m) => (match ToKey(a) case None => Err(PyFault) case Some(k) => Ok(Bool(k in m)))
    case Str(s) => if a.Str? then Ok(Bool(Contains(s, a.s))) else Err(PyFault)
    case List(items) => Ok(Bool(Member(a, items)))
    case _ => Err(CelFault)
  }

  /** Every operator except the two that short-circuit. */
  function Binary(op: BinOp, a: Value, b: Value): Outcome {
    match op
    case Eq => Ok(Bool(PyEq(a, b)))
    case Ne => Ok(Bool(!PyEq(a, b)))
    case In => IsIn(a, b)
    case Lt => Order(op, a, b)
    case Le => Order(op, a, b)
    case Gt => Order(op, a, b)
    case Ge => Order(op, a, b)
    case Add =>
      if a.Str? && b.Str? then Ok(Value.Str(a.s + b.s))
      else if a.List? && b.List? then Ok(List(a.items + b.items))
      else Arith(op, a, b)
    case _ => Arith(op, a, b)
  }

  function Test(v: Value): Result<bool, Fault> {
    if v.Bool? then Ok(v.b) else Err(CelFault)
  }

  /** `base[idx]`: dictionaries by key, lists and strings by position, negative positions from the end. */
  function IndexOf(base: Value, idx: Value): Outcome {
    match base
    case Dict(m) =>
      (match ToKey(idx) case None => Err(CelFault) case Some(k) => if k in m then Ok(m[k]) else Err(CelFault))
    case List(items) =>
      if IsNumeric(idx) && -|items| <= AsInt(idx) < |items|
      then Ok(items[if AsInt(idx) < 0 then AsInt(idx) + |items| else AsInt(idx)]) else Err(CelFault)
    case Str(s) =>
      if IsNumeric(idx) && -|s| <= AsInt(idx) < |s|
      then Ok(Value.Str([s[if AsInt(idx) < 0 then AsInt(idx) + |s| else AsInt(idx)]])) else Err(CelFault)
    case _ => Err(CelFault)
  }

  function Field(base: Value, name: string): Outcome {
    if base.Dict? && StrKey(name) in base.m then Ok(base.m[StrKey(name)]) else Err(CelFault)
  }

  // ---------- functions ----------

  /** The first least (or greatest) element, or a TypeError. */
  function Extreme(best: Value, rest: seq<Value>, least: bool): Outcome
    decreases |rest|
  {
    if rest == [] then Ok(best)
    else
      match PyOrder(rest[0], best)
      case None => Err(PyFault)
      case Some(c) => Extreme(if (if least then c < 0 else c > 0) then rest[0] else best, rest[1..], least)
  }

  predicate IsTextTest(name: string) {
    name == "startsWith" || name == "endsWith" || name == "contains"
  }

  function TextTest(name: string, a: string, b: string): bool {
    if name == "startsWith" then b <= a
    else if name == "endsWith" then |b| <= |a| && a[|a| - |b|..] == b
    else Contains(a, b)
  }

  ghost function Builtin(name: string, vs: seq<Value>, conv: Conversion): Outcome {
    if name == "size" then
      if |vs| != 1 then Err(CelFault)
      else (match vs[0]
            case Str(s) => Ok(Int(|s|))
            case List(items) => Ok(Int(|items|))
            case Dict(m) => Ok(Int(|m|))
            case _ => Err(CelFault))
    else if IsTextTest(name) then
      if |vs| == 2 && vs[0].Str? && vs[1].Str? then Ok(Bool(TextTest(name, vs[0].s, vs[1].s))) else Err(CelFault)
    else if name == "matches" then
      if |vs| == 2 && vs[0].Str? && vs[1].Str? then
        (match RegexSearch.SearchMeaning(vs[1].s, vs[0].s)
         case Ok(found) => Ok(Bool(found))
         case Err(_) => Err(CelFault))
      else Err(CelFault)
    else Plain(name, vs, conv)
  }

  function Plain(name: string, vs: seq<Value>, conv: Conversion): Outcome {
    if name == "lower" || name == "upper" then
      if |vs| == 1 && vs[0].Str? then conv(name, vs[0]) else Err(CelFault)
    else if name == "int" || name == "double" || name == "string" then
      if |vs| == 1 then conv(name, vs[0]) else Err(CelFault)
    else if name == "abs" then
      if |vs| != 1 then Err(CelFault)
      else if IsNumeric(vs[0]) then Ok(Int(Abs(AsInt(vs[0])))) else Err(PyFault)
    else if name == "min" || name == "max" then
      var s := if |vs| == 1 && vs[0].List? then vs[0].items else vs;
      if s == [] then Err(CelFault) else Extreme(s[0], s[1..], name == "min")
    else Err(CelFault)
  }

  // ---------- macros ----------

  predicate IsMacro(name: string) {
    name == "all" || name == "exists" || name == "exists_one" || name == "filter" || name == "map"
  }

  /** The variable, predicate and collection of a macro call; None when it is malformed. */
  function MacroParts(args: seq<Expr>): (r: Option<(string, Expr, Expr)>)
    ensures r.Some? ==> r.value.1 in args && r.value.2 in args
  {
    if |args| == 3 && args[1].Name? then Some((args[1].name, args[2], args[0]))
    else if |args| == 2 then Some(("x", args[1], args[0]))
    else None
  }

  /** Is every (some) result true? Stops at the first that settles it, so later ones are not type-checked. */
  function Quantify(rs: seq<Value>, universal: bool): Result<bool, Fault> {
    if rs == [] then Ok(universal)
    else
      var b :- Test(rs[0]);
      if b != universal then Ok(b) else Quantify(rs[1..], universal)
  }

  /** The items whose result is true; every result is type-checked. */
  function Chosen(items: seq<Value>, rs: seq<Value>): Result<seq<Value>, Fault>
    requires |items| == |rs|
  {
    if rs == [] then Ok([])
    else
      var b :- Test(rs[0]);
      var rest :- Chosen(items[1..], rs[1..]);
      Ok(if b then [items[0]] + rest else rest)
  }

  function Combine(name: string, items: seq<Value>, rs: seq<Value>): Outcome
    requires |items| == |rs|
  {
    if name == "all" then (var b :- Quantify(rs, true); Ok(Bool(b)))
    else if name == "exists" then (var b :- Quantify(rs, false); Ok(Bool(b)))
    else if name == "exists_one" then (var c :- Chosen(items, rs); Ok(Bool(|c| == 1)))
    else if name == "filter" then (var c :- Chosen(items, rs); Ok(List(c)))
    else Ok(List(rs))
  }

  /** Left to right: the left operand decides if it can, and its fault is final. */
  function Logic(op: BinOp, l: Outcome, r: Outcome): Outcome {
    var a :- l;
    var t :- Test(a);
    if t == (op == Or) then Ok(Bool(t))
    else
      var b :- r;
      var u :- Test(b);
      Ok(Bool(u))
  }

  /** Both operands are needed, and the left one's fault comes first. */
  function Strict(op: BinOp, l: Outcome, r: Outcome): Outcome {
    var a :- l;
    var b :- r;
    Binary(op, a, b)
  }

  // ---------- meaning in an environment ----------

  ghost function Sem(e: Expr, env: Env, conv: Conversion): Outcome
    decreases e, 0
  {
    match e
    case Lit(IntLit(n)) => Ok(Int(n))
    case Lit(StrLit(s)) => Ok(Value.Str(s))
    case Lit(BoolLit(b)) => Ok(Bool(b))
    case Lit(NullLit) => Ok(Null)
    case Name(x) => if x in env then Ok(env[x]) else Err(CelFault)
    case ListOf(items) =>
      var vs :- SemAll(items, env, conv);
      Ok(List(vs))
    case MapOf(pairs) =>
      var m :- SemPairs(pairs, env, conv, map[]);
      Ok(Dict(m))
    case Not(x) =>
      var v :- Sem(x, env, conv);
      var b :- Test(v);
      Ok(Bool(!b))
    case Neg(x) =>
      var v :- Sem(x, env, conv);
      if v.Int? then Ok(Int(-v.n)) else Err(CelFault)
    case Cond(c, a, b) =>
      var v :- Sem(c, env, conv);
      var t :- Test(v);
      Sem(if t then a else b, env, conv)
    case Select(b, name) =>
      var v :- Sem(b, env, conv);
      Field(v, name)
    case Index(b, i) =>
      var v :- Sem(b, env, conv);
      var k :- Sem(i, env, conv);
      IndexOf(v, k)
    case Bin(op, l, r) =>
      if op == And || op == Or then Logic(op, Sem(l, env, conv), Sem(r, env, conv))
      else Strict(op, Sem(l, env, conv), Sem(r, env, conv))
    case Call(name, args) =>
      if IsMacro(name) then SemMacro(name, args, env, conv)
      else if name == "has" then SemHas(args, env, conv)
      else
        var vs :- SemAll(args, env, conv);
        Builtin(name, vs, conv)
  }

  lemma {:induction false} SemOfBinary(op: BinOp, l: Expr, r: Expr, env: Env, conv: Conversion)
    ensures Sem(Bin(op, l, r), env, conv)
            == if op == And || op == Or then Logic(op, Sem(l, env, conv), Sem(r, env, conv))
               else Strict(op, Sem(l, env, conv), Sem(r, env, conv))
  {
  }

  ghost function SemAll(es: seq<Expr>, env: Env, conv: Conversion): (r: Result<seq<Value>, Fault>)
    ensures r.Ok? ==> |r.value| == |es|
    decreases es, 0
  {
    if es == [] then Ok([])
    else
      var v :- Sem(es[0], env, conv);
      var vs :- SemAll(es[1..], env, conv);
      Ok([v] + vs)
  }

  /** A dictionary display: later keys win, and an unhashable key is a fault. */
  ghost function SemPairs(ps: seq<Pair>, env: Env, conv: Conversion, m: map<Key, Value>): Result<map<Key, Value>, Fault>
    decreases ps, 0
  {
    if ps == [] then Ok(m)
    else
      var m' :- SemPair(ps[0], env, conv, m);
      SemPairs(ps[1..], env, conv, m')
  }

  ghost function SemPair(p: Pair, env: Env, conv: Conversion, m: map<Key, Value>): Result<map<Key, Value>, Fault>
    decreases p, 0
  {
    var k :- Sem(p.key, env, conv);
    var v :- Sem(p.value, env, conv);
    if ToKey(k).None? then Err(PyFault) else Ok(m[ToKey(k).value := v])
  }

  /** Is the field present? A fault the language raises in the base counts as absence. */
  ghost function SemHas(args: seq<Expr>, env: Env, conv: Conversion): Outcome
    decreases args, 1
  {
    if |args| != 1 || !args[0].Select? then Err(CelFault)
    else
      match Sem(args[0].base, env, conv)
      case Err(CelFault) => Ok(Bool(false))
      case Err(PyFault) => Err(PyFault)
      case Ok(v) => Ok(Bool(v.Dict? && StrKey(args[0].field) in v.m))
  }

  ghost function SemMacro(name: string, args: seq<Expr>, env: Env, conv: Conversion): Outcome
    decreases args, 1
  {
    if MacroParts(args).None? then Err(CelFault)
    else
      var (x, pred, coll) := MacroParts(args).value;
      var v :- Sem(coll, env, conv);
      if !v.List? then Err(CelFault)
      else
        var rs :- SemItems(pred, x, v.items, env, conv);
        Combine(name, v.items, rs)
  }

  /** The predicate's value for each item, the variable bound to it. */
  ghost function SemItems(pred: Expr, x: string,
      items: seq<Value>, env: Env, conv: Conversion): (r: Result<seq<Value>, Fault>)
    ensures r.Ok? ==> |r.value| == |items|
    decreases pred, 1, |items|
  {
    if items == [] then Ok([])
    else
      var v :- Sem(pred, env[x := items[0]], conv);
      var vs :- SemItems(pred, x, items[1..], env, conv);
      Ok([v] + vs)
  }

  // ---------- the scope stack ----------

  /** What a stack of scopes over a context amounts to: inner scopes shadow outer ones. */
  ghost function Visible(ctx: Env, scopes: seq<Env>): Env {
    if scopes == [] then ctx else Visible(ctx, scopes[..|scopes| - 1]) + scopes[|scopes| - 1]
  }

  lemma {:induction false} PushedScope(ctx: Env, scopes: seq<Env>, x: string, v: Value)
    ensures Visible(ctx, scopes + [map[x := v]]) == Visible(ctx, scopes)[x := v]
  {
    assert (scopes + [map[x := v]])[..|scopes|] == scopes;
  }

  lemma {:induction false} VisibleBelow(ctx: Env, scopes: seq<Env>, k: nat, name: string)
    requires k <= |scopes| && forall j :: k <= j < |scopes| ==> name !in scopes[j]
    ensures name in Visible(ctx, scopes) <==> name in Visible(ctx, scopes[..k])
    ensures name in Visible(ctx, scopes) ==> Visible(ctx, scopes)[name] == Visible(ctx, scopes[..k])[name]
    decreases |scopes|
  {
    if k < |scopes| {
      var lower := scopes[..|scopes| - 1];
      VisibleBelow(ctx, lower, k, name);
      assert lower[..k] == scopes[..k];
    } else {
      assert scopes[..k] == scopes;
    }
  }

  class Evaluator {
    const ctx: Env
    const conv: Conversion
    var scopes: seq<Env>

    constructor (context: Env, conversion: Conversion)
      ensures ctx == context && conv == conversion && scopes == []
    {
      ctx := context;
      conv := conversion;
      scopes := [];
    }

    ghost function Env(): Env
      reads this
    {
      Visible(ctx, scopes)
    }

    method Lookup(name: string) returns (r: Outcome)
      ensures r == if name in Env() then Ok(Env()[name]) else Err(CelFault)
    {
      var k := |scopes|;
      while k > 0
        invariant 0 <= k <= |scopes|
        invariant forall j :: k <= j < |scopes| ==> name !in scopes[j]
      {
        k := k - 1;
        if name in scopes[k] {
          VisibleBelow(ctx, scopes, k + 1, name);
          assert scopes[..k + 1][..k] == scopes[..k];
          return Ok(scopes[k][name]);
        }
      }
      VisibleBelow(ctx, scopes, 0, name);
      assert scopes[..0] == [];
      r := if name in ctx then Ok(ctx[name]) else Err(CelFault);
    }

    /** The value in the current environment; the stack is as it was, on success and on every fault. */
    method Eval(e: Expr) returns (r: Outcome)
      modifies this
      ensures scopes == old(scopes)
      ensures r == Sem(e, old(Env()), conv)
      decreases e, 2
    {
      match e
      case Lit(IntLit(n)) => r := Ok(Int(n));
      case Lit(StrLit(s)) => r := Ok(Value.Str(s));
      case Lit(BoolLit(b)) => r := Ok(Bool(b));
      case Lit(NullLit) => r := Ok(Null);
      case Name(x) => r := Lookup(x);
      case ListOf(items) =>
        var vs :- EvalAll(items);
        r := Ok(List(vs));
      case MapOf(pairs) => r := EvalMap(pairs);
      case Not(x) =>
        var v :- Eval(x);
        var b :- Test(v);
        r := Ok(Bool(!b));
      case Neg(x) =>
        var v :- Eval(x);
        r := if v.Int? then Ok(Int(-v.n)) else Err(CelFault);
      case Cond(c, a, b) =>
        var v :- Eval(c);
        var t :- Test(v);
        if t {
          r := Eval(a);
        } else {
          r := Eval(b);
        }
      case Select(b, name) =>
        var v :- Eval(b);
        r := Field(v, name);
      case Index(b, i) =>
        var v :- Eval(b);
        var k :- Eval(i);
        r := IndexOf(v, k);
      case Bin(op, l, right) => r := EvalBinary(op, l, right);
      case Call(name, args) => r := EvalCall(name, args);
    }

    method EvalBinary(op: BinOp, l: Expr, right: Expr) returns (r: Outcome)
      modifies this
      ensures scopes == old(scopes)
      ensures r == Sem(Bin(op, l, right), old(Env()), conv)
      decreases Bin(op, l, right), 1
    {
      if op == And || op == Or {
        r := EvalLogic(op, l, right);
      } else {
        r := EvalStrict(op, l, right);
      }
    }

    /** The left operand decides if it can; only then is the right one evaluated. */
    method EvalLogic(op: BinOp, l: Expr, right: Expr) returns (r: Outcome)
      requires op == And || op == Or
      modifies this
      ensures scopes == old(scopes)
      ensures r == Sem(Bin(op, l, right), old(Env()), conv)
      decreases Bin(op, l, right), 0
    {
      ghost var env := Env();
      SemOfBinary(op, l, right, env, conv);
      var a :- Eval(l);
      var t :- Test(a);
      if t == (op == Or) {
        return Ok(Bool(t));
      }
      var b :- Eval(right);
      var u :- Test(b);
      r := Ok(Bool(u));
    }

    method EvalStrict(op: BinOp, l: Expr, right: Expr) returns (r: Outcome)
      requires op != And && op != Or
      modifies this
      ensures scopes == old(scopes)
      ensures r == Sem(Bin(op, l, right), old(Env()), conv)
      decreases Bin(op, l, right), 0
    {
      ghost var env := Env();
      SemOfBinary(op, l, right, env, conv);
      var a :- Eval(l);
      var b :- Eval(right);
      r := Binary(op, a, b);
    }

    method EvalAll(es: seq<Expr>) returns (r: Result<seq<Value>, Fault>)
      modifies this
      ensures scopes == old(scopes)
      ensures r == SemAll(es, old(Env()), conv)
      decreases es, 0
    {
      if es == [] {
        return Ok([]);
      }
      var v :- Eval(es[0]);
      var vs :- EvalAll(es[1..]);
      r := Ok([v] + vs);
    }

    method EvalMap(pairs: seq<Pair>) returns (r: Outcome)
      modifies this
      ensures scopes == old(scopes)
      ensures r == Sem(MapOf(pairs), old(Env()), conv)
      decreases pairs, 1
    {
      var m: map<Key, Value> := map[];
      var k := 0;
      while k < |pairs|
        invariant 0 <= k <= |pairs| && scopes == old(scopes)
        invariant SemPairs(pairs, Env(), conv, map[]) == SemPairs(pairs[k..], Env(), conv, m)
      {
        assert pairs[k..][1..] == pairs[k + 1..];
        m :- EvalPair(pairs[k], m);
        k := k + 1;
      }
      r := Ok(Dict(m));
    }

    method EvalPair(p: Pair, m: map<Key, Value>) returns (r: Result<map<Key, Value>, Fault>)
      modifies this
      ensures scopes == old(scopes)
      ensures r == SemPair(p, old(Env()), conv, m)
      decreases p, 1
    {
      var key :- Eval(p.key);
      var value :- Eval(p.value);
      if ToKey(key).None? {
        return Err(PyFault);
      }
      r := Ok(m[ToKey(key).value := value]);
    }

    method EvalCall(name: Word, args: seq<Expr>) returns (r: Outcome)
      modifies this
      ensures scopes == old(scopes)
      ensures r == Sem(Call(name, args), old(Env()), conv)
      decreases args, 3
    {
      if IsMacro(name) {
        r := Macro(name, args);
      } else if name == "has" {
        r := Has(args);
      } else {
        var vs :- EvalAll(args);
        r := Apply(name, vs);
      }
    }

    /** The functions on values; `matches` runs the automaton search. */
    method Apply(name: string, vs: seq<Value>) returns (r: Outcome)
      ensures r == Builtin(name, vs, conv)
    {
      if name == "size" {
        if |vs| != 1 {
          return Err(CelFault);
        }
        match vs[0]
        case Str(s) => r := Ok(Int(|s|));
        case List(items) => r := Ok(Int(|items|));
        case Dict(m) => r := Ok(Int(|m|));
        case _ => r := Err(CelFault);
      } else if IsTextTest(name) {
        r := if |vs| == 2 && vs[0].Str? && vs[1].Str? then Ok(Bool(TextTest(name, vs[0].s, vs[1].s)))
            else Err(CelFault);
      } else if name == "matches" {
        if !(|vs| == 2 && vs[0].Str? && vs[1].Str?) {
          return Err(CelFault);
        }
        var found, _ := RegexSearch.Search(vs[1].s, vs[0].s);
        r := if found.Ok? then Ok(Bool(found.value)) else Err(CelFault);
      } else {
        r := Plain(name, vs, conv);
      }
    }

    method Has(args: seq<Expr>) returns (r: Outcome)
      modifies this
      ensures scopes == old(scopes)
      ensures r == SemHas(args, old(Env()), conv)
      decreases args, 2
    {
      if |args| != 1 || !args[0].Select? {
        return Err(CelFault);
      }
      var base := Eval(args[0].base);
      match base
      case Err(CelFault) => r := Ok(Bool(false));
      case Err(PyFault) => r := Err(PyFault);
      case Ok(v) => r := Ok(Bool(v.Dict? && StrKey(args[0].field) in v.m));
    }

    method Macro(name: string, args: seq<Expr>) returns (r: Outcome)
      modifies this
      ensures scopes == old(scopes)
      ensures r == SemMacro(name, args, old(Env()), conv)
      decreases args, 2
    {
      if MacroParts(args).None? {
        return Err(CelFault);
      }
      var (x, pred, coll) := MacroParts(args).value;
      var v :- Eval(coll);
      if !v.List? {
        return Err(CelFault);
      }
      var items := v.items;
      ghost var env := Env();
      var results: seq<Value> := [];
      ThenNothing(SemItems(pred, x, items, env, conv));
      var k := 0;
      while k < |items|
        invariant 0 <= k <= |items| && |results| == k && scopes == old(scopes)
        invariant SemItems(pred, x, items, env, conv) == Then(results, SemItems(pred, x, items[k..], env, conv))
      {
        assert items[k..][1..] == items[k + 1..];
        PushedScope(ctx, scopes, x, items[k]);
        scopes := scopes + [map[x := items[k]]];
        var one := Eval(pred);
        scopes := scopes[..|scopes| - 1];
        if one.Err? {
          return Err(one.error);
        }
        ThenAssoc(results, one.value, SemItems(pred, x, items[k + 1..], env, conv));
        results := results + [one.value];
        k := k + 1;
      }
      assert results + [] == results;
      r := Combine(name, items, results);
    }
  }

  /** Results already collected, in front of what the rest yields. */
  ghost function Then(done: seq<Value>, rest: Result<seq<Value>, Fault>): Result<seq<Value>, Fault> {
    if rest.Ok? then Ok(done + rest.value) else rest
  }

  lemma {:induction false} ThenNothing(rest: Result<seq<Value>, Fault>)
    ensures Then([], rest) == rest
  {
    assert rest.Ok? ==> [] + rest.value == rest.value;
  }

  lemma {:induction false} ThenAssoc(done: seq<Value>, v: Value, rest: Result<seq<Value>, Fault>)
    ensures Then(done, Then([v], rest)) == Then(done + [v], rest)
  {
    if rest.Ok? {
      assert done + ([v] + rest.value) == done + [v] + rest.value;
    }
  }

  /** The library boundary: parse, evaluate from an empty stack, and turn every fault into a CEL one. */
  method Evaluate(tokens: seq<Token>, context: Env, conv: Conversion) returns (r: Outcome)
    ensures var tree := ParseTokens(CelParser.From(tokens, 0));
      r == if tree.Err? || Sem(tree.value, context, conv).Err? then Err(CelFault) else Sem(tree.value, context, conv)
  {
    var parser := new CelParser.Parser(tokens);
    var tree := parser.Parse();
    if tree.Err? {
      return Err(CelFault);
    }
    var evaluator := new Evaluator(context, conv);
    var v := evaluator.Eval(tree.value);
    r := if v.Err? then Err(CelFault) else v;
  }

  // ---------- only free names matter ----------

  /** The context names an expression can read; a macro's variable is bound in its predicate. */
  function FreeNames(e: Expr): set<string>
    decreases e, 0
  {
    match e
    case Lit(_) => {}
    case Name(x) => {x}
    case ListOf(items) => FreeAll(items)
    case MapOf(pairs) => FreePairs(pairs)
    case Not(x) => FreeNames(x)
    case Neg(x) => FreeNames(x)
    case Cond(c, a, b) => FreeNames(c) + FreeNames(a) + FreeNames(b)
    case Select(b, _) => FreeNames(b)
    case Index(b, i) => FreeNames(b) + FreeNames(i)
    case Bin(_, l, r) => FreeNames(l) + FreeNames(r)
    case Call(name, args) =>
      if IsMacro(name) then FreeMacro(args)
      else if name == "has" then (if |args| == 1 && args[0].Select? then FreeNames(args[0].base) else {})
      else FreeAll(args)
  }

  function FreeMacro(args: seq<Expr>): set<string>
    decreases args, 1
  {
    if MacroParts(args).None? then {}
    else
      var (x, pred, coll) := MacroParts(args).value;
      FreeNames(coll) + (FreeNames(pred) - {x})
  }

  function FreeAll(es: seq<Expr>): set<string>
    decreases es, 0
  {
    if es == [] then {} else FreeNames(es[0]) + FreeAll(es[1..])
  }

  function FreePairs(ps: seq<Pair>): set<string>
    decreases ps, 0
  {
    if ps == [] then {} else FreePair(ps[0]) + FreePairs(ps[1..])
  }

  function FreePair(p: Pair): set<string>
    decreases p, 0
  {
    FreeNames(p.key) + FreeNames(p.value)
  }

  ghost predicate Agree(names: set<string>, env: Env, env': Env) {
    forall x :: x in names ==> (x in env <==> x in env') && (x in env ==> env[x] == env'[x])
  }

  /** Two environments that agree on an expression's free names give it the same value or the same fault. */
  lemma {:induction false} Coincidence(e: Expr, env: Env, env': Env, conv: Conversion, names: set<string>)
    requires FreeNames(e) <= names && Agree(names, env, env')
    ensures Sem(e, env, conv) == Sem(e, env', conv)
    decreases e, 0
  {
    match e
    case Lit(_) =>
    case Name(_) =>
    case ListOf(items) => CoincidenceAll(items, env, env', conv, names);
    case MapOf(pairs) => CoincidencePairs(pairs, env, env', conv, map[], names);
    case Not(x) => Coincidence(x, env, env', conv, names);
    case Neg(x) => Coincidence(x, env, env', conv, names);
    case Cond(c, a, b) =>
      Coincidence(c, env, env', conv, names);
      Coincidence(a, env, env', conv, names);
      Coincidence(b, env, env', conv, names);
    case Select(b, _) => Coincidence(b, env, env', conv, names);
    case Index(b, i) =>
      Coincidence(b, env, env', conv, names);
      Coincidence(i, env, env', conv, names);
    case Bin(_, l, r) =>
      Coincidence(l, env, env', conv, names);
      Coincidence(r, env, env', conv, names);
    case Call(name, args) => CoincidenceCall(name, args, env, env', conv, names);
  }

  lemma {:induction false} CoincidenceCall(name: Word,
      args: seq<Expr>, env: Env, env': Env, conv: Conversion, names: set<string>)
    requires FreeNames(Call(name, args)) <= names && Agree(names, env, env')
    ensures Sem(Call(name, args), env, conv) == Sem(Call(name, args), env', conv)
    decreases args, 2
  {
    if IsMacro(name) {
      CoincidenceMacro(name, args, env, env', conv, names);
    } else if name == "has" {
      if |args| == 1 && args[0].Select? {
        Coincidence(args[0].base, env, env', conv, names);
      }
    } else {
      CoincidenceAll(args, env, env', conv, names);
    }
  }

  lemma {:induction false} CoincidenceAll(es: seq<Expr>, env: Env, env': Env, conv: Conversion, names: set<string>)
    requires FreeAll(es) <= names && Agree(names, env, env')
    ensures SemAll(es, env, conv) == SemAll(es, env', conv)
    decreases es, 0
  {
    if es != [] {
      Coincidence(es[0], env, env', conv, names);
      CoincidenceAll(es[1..], env, env', conv, names);
    }
  }

  lemma {:induction false} CoincidencePairs(ps: seq<Pair>, env: Env, env': Env, conv: Conversion,
      m: map<Key, Value>, names: set<string>)
    requires FreePairs(ps) <= names && Agree(names, env, env')
    ensures SemPairs(ps, env, conv, m) == SemPairs(ps, env', conv, m)
    decreases ps, 0
  {
    if ps != [] {
      CoincidencePair(ps[0], env, env', conv, m, names);
      var m' := SemPair(ps[0], env, conv, m);
      if m'.Ok? {
        CoincidencePairs(ps[1..], env, env', conv, m'.value, names);
      }
    }
  }

  lemma {:induction false} CoincidencePair(p: Pair, env: Env, env': Env, conv: Conversion,
      m: map<Key, Value>, names: set<string>)
    requires FreePair(p) <= names && Agree(names, env, env')
    ensures SemPair(p, env, conv, m) == SemPair(p, env', conv, m)
    decreases p, 0
  {
    Coincidence(p.key, env, env', conv, names);
    Coincidence(p.value, env, env', conv, names);
  }

  lemma {:induction false} CoincidenceMacro(name: string,
      args: seq<Expr>, env: Env, env': Env, conv: Conversion, names: set<string>)
    requires FreeMacro(args) <= names && Agree(names, env, env')
    ensures SemMacro(name, args, env, conv) == SemMacro(name, args, env', conv)
    decreases args, 1
  {
    if MacroParts(args).Some? {
      var (x, pred, coll) := MacroParts(args).value;
      Coincidence(coll, env, env', conv, names);
      var v := Sem(coll, env, conv);
      if v.Ok? && v.value.List? {
        CoincidenceItems(pred, x, v.value.items, env, env', conv, names);
      }
    }
  }

  lemma {:induction false} CoincidenceItems(pred: Expr, x: string,
      items: seq<Value>, env: Env, env': Env, conv: Conversion, names: set<string>)
    requires FreeNames(pred) - {x} <= names && Agree(names, env, env')
    ensures SemItems(pred, x, items, env, conv) == SemItems(pred, x, items, env', conv)
    decreases pred, 1, |items|
  {
    if items != [] {
      Coincidence(pred, env[x := items[0]], env'[x := items[0]], conv, names + {x});
      CoincidenceItems(pred, x, items[1..], env, env', conv, names);
    }
  }

  /** A macro's variable is bound afresh: what an outer scope bound it to cannot be seen inside. */
  lemma {:induction false} InnerMacroShadows(name: Word, x: Word, pred: Expr, coll: Expr, env: Env, v: Value,
      conv: Conversion)
    requires IsMacro(name) && x !in FreeNames(coll)
    ensures var e := Call(name, [coll, Name(x), pred]);
      Sem(e, env[x := v], conv) == Sem(e, env, conv)
  {
    var args := [coll, Name(x), pred];
    assert FreeNames(Call(name, args)) == FreeNames(coll) + (FreeNames(pred) - {x});
    Coincidence(Call(name, args), env[x := v], env, conv, FreeNames(Call(name, args)));
  }
}
