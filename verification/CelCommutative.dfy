/**
The expressions of app/policy_as_code/cel.py with the logical operators and quantifying macros of
the Common Expression Language definition in place of its own, all the way through a tree.
*/
module CelCommutative {
  import opened Common
  import opened CelSyntax
  import opened PyValue
  import opened CelEval
  import opened CelLogic

  // ---------- the commutative semantics ----------

  ghost function Com(e: Expr, env: Env, conv: Conversion): Outcome
    decreases e, 0
  {
    match e
    case Lit(_) => Sem(e, env, conv)
    case Name(_) => Sem(e, env, conv)
    case ListOf(items) =>
      var vs :- ComAll(items, env, conv);
      Ok(List(vs))
    case MapOf(pairs) =>
      var m :- ComPairs(pairs, env, conv, map[]);
      Ok(Dict(m))
    case Not(x) =>
      var v :- Com(x, env, conv);
      var b :- Test(v);
      Ok(Bool(!b))
    case Neg(x) =>
      var v :- Com(x, env, conv);
      if v.Int? then Ok(Int(-v.n)) else Err(CelFault)
    case Cond(c, a, b) =>
      var v :- Com(c, env, conv);
      var t :- Test(v);
      Com(if t then a else b, env, conv)
    case Select(b, name) =>
      var v :- Com(b, env, conv);
      Field(v, name)
    case Index(b, i) =>
      var v :- Com(b, env, conv);
      var k :- Com(i, env, conv);
      IndexOf(v, k)
    case Bin(op, l, r) => Operated(op, Com(l, env, conv), Com(r, env, conv))
    case Call(name, args) =>
      if IsMacro(name) then ComMacro(name, args, env, conv)
      else if name == "has" then ComHas(args, env, conv)
      else
        var vs :- ComAll(args, env, conv);
        Builtin(name, vs, conv)
  }

  function Operated(op: BinOp, l: Outcome, r: Outcome): Outcome {
    if op == And then AsValue(CommutativeAnd(AsBool(l), AsBool(r)))
    else if op == Or then AsValue(CommutativeOr(AsBool(l), AsBool(r)))
    else Strict(op, l, r)
  }

  ghost function ComAll(es: seq<Expr>, env: Env, conv: Conversion): Result<seq<Value>, Fault>
    decreases es, 0
  {
    if es == [] then Ok([])
    else
      var v :- Com(es[0], env, conv);
      var vs :- ComAll(es[1..], env, conv);
      Ok([v] + vs)
  }

  ghost function ComPairs(ps: seq<Pair>, env: Env, conv: Conversion, m: map<Key, Value>): Result<map<Key, Value>, Fault>
    decreases ps, 0
  {
    if ps == [] then Ok(m)
    else
      var m' :- ComPair(ps[0], env, conv, m);
      ComPairs(ps[1..], env, conv, m')
  }

  ghost function ComPair(p: Pair, env: Env, conv: Conversion, m: map<Key, Value>): Result<map<Key, Value>, Fault>
    decreases p, 0
  {
    var k :- Com(p.key, env, conv);
    var v :- Com(p.value, env, conv);
    if ToKey(k).None? then Err(PyFault) else Ok(m[ToKey(k).value := v])
  }

  ghost function ComHas(args: seq<Expr>, env: Env, conv: Conversion): Outcome
    decreases args, 1
  {
    if |args| != 1 || !args[0].Select? then Err(CelFault)
    else
      match Com(args[0].base, env, conv)
      case Err(CelFault) => Ok(Bool(false))
      case Err(PyFault) => Err(PyFault)
      case Ok(v) => Ok(Bool(v.Dict? && StrKey(args[0].field) in v.m))
  }

  ghost function ComMacro(name: string, args: seq<Expr>, env: Env, conv: Conversion): Outcome
    decreases args, 1
  {
    if MacroParts(args).None? then Err(CelFault)
    else
      var (x, pred, coll) := MacroParts(args).value;
      var v :- Com(coll, env, conv);
      if !v.List? then Err(CelFault)
      else Combined(name, v.items, ComItems(pred, x, v.items, env, conv))
  }

  /** `all` and `exists` absorb faults; the other macros need every result. */
  function Combined(name: string, items: seq<Value>, os: seq<Outcome>): Outcome
    requires |items| == |os|
  {
    if name == "all" || name == "exists" then AsValue(Absorbing(name == "all", os))
    else
      var rs :- Collect(os);
      Combine(name, items, rs)
  }

  ghost function ComItems(pred: Expr, x: string, items: seq<Value>, env: Env, conv: Conversion): (os: seq<Outcome>)
    ensures |os| == |items|
    decreases pred, 1, |items|
  {
    if items == [] then [] else [Com(pred, env[x := items[0]], conv)] + ComItems(pred, x, items[1..], env, conv)
  }

  // ---------- trees without `has` keep their values ----------

  predicate NoHas(e: Expr)
    decreases e, 0
  {
    match e
    case Lit(_) => true
    case Name(_) => true
    case ListOf(items) => NoHasAll(items)
    case MapOf(pairs) => NoHasPairs(pairs)
    case Not(x) => NoHas(x)
    case Neg(x) => NoHas(x)
    case Cond(c, a, b) => NoHas(c) && NoHas(a) && NoHas(b)
    case Select(b, _) => NoHas(b)
    case Index(b, i) => NoHas(b) && NoHas(i)
    case Bin(_, l, r) => NoHas(l) && NoHas(r)
    case Call(name, args) => name != "has" && NoHasAll(args)
  }

  predicate NoHasAll(es: seq<Expr>)
    decreases es, 0
  {
    es != [] ==> NoHas(es[0]) && NoHasAll(es[1..])
  }

  predicate NoHasPairs(ps: seq<Pair>)
    decreases ps, 0
  {
    ps != [] ==> NoHasPair(ps[0]) && NoHasPairs(ps[1..])
  }

  predicate NoHasPair(p: Pair)
    decreases p, 0
  {
    NoHas(p.key) && NoHas(p.value)
  }

  lemma {:induction false} NoHasIn(es: seq<Expr>, e: Expr)
    requires NoHasAll(es) && e in es
    ensures NoHas(e)
  {
    if e != es[0] { NoHasIn(es[1..], e); }
  }

  /** A commutative operator gives whatever value the one that looks from left to right gives. */
  lemma {:induction false} OperatorKeeps(op: BinOp, l: Outcome, r: Outcome, l': Outcome, r': Outcome)
    requires (l.Ok? ==> l' == l) && (r.Ok? ==> r' == r)
    ensures
      var code := if op == And || op == Or then Logic(op, l, r) else Strict(op, l, r);
      code.Ok? ==> Operated(op, l', r') == code
  {
  }

  /** An absorbing quantifier gives whatever value the eager one gives. */
  lemma {:induction false} QuantifierKeeps(universal: bool, os: seq<Outcome>)
    ensures Eager(universal, os).Ok? ==> Absorbing(universal, os) == Eager(universal, os)
  {
    CollectFaults(os);
    if !SomeFaults(os) {
      EagerMeans(universal, os);
      QuantifiersExactly(universal, os);
    }
  }

  lemma {:induction false} MacroKeeps(name: string, items: seq<Value>, os: seq<Outcome>)
    requires |items| == |os| && Collect(os).Ok? && Combine(name, items, Collect(os).value).Ok?
    ensures Combined(name, items, os) == Combine(name, items, Collect(os).value)
  {
    if name == "all" || name == "exists" { QuantifierKeeps(name == "all", os); }
  }

  /** A tree without `has` keeps every value the code gives it; only faults can become values. */
  lemma {:induction false} ValuesAreKept(e: Expr, env: Env, conv: Conversion)
    requires NoHas(e)
    ensures Sem(e, env, conv).Ok? ==> Com(e, env, conv) == Sem(e, env, conv)
    decreases e, 0
  {
    match e
    case Lit(_) =>
    case Name(_) =>
    case ListOf(items) => AllKept(items, env, conv);
    case MapOf(pairs) => PairsKept(pairs, env, conv, map[]);
    case Not(x) => ValuesAreKept(x, env, conv);
    case Neg(x) => ValuesAreKept(x, env, conv);
    case Cond(c, a, b) => ChoiceKept(c, a, b, env, conv);
    case Select(b, _) => ValuesAreKept(b, env, conv);
    case Index(b, i) => IndexKept(b, i, env, conv);
    case Bin(op, l, r) => OperandsKept(op, l, r, env, conv);
    case Call(name, args) => CallKept(name, args, env, conv);
  }

  lemma {:induction false} ChoiceKept(c: Expr, a: Expr, b: Expr, env: Env, conv: Conversion)
    requires NoHas(c) && NoHas(a) && NoHas(b)
    ensures Sem(Cond(c, a, b), env, conv).Ok? ==> Com(Cond(c, a, b), env, conv) == Sem(Cond(c, a, b), env, conv)
    decreases Cond(c, a, b), -1
  {
    ValuesAreKept(c, env, conv);
    ValuesAreKept(a, env, conv);
    ValuesAreKept(b, env, conv);
  }

  lemma {:induction false} IndexKept(b: Expr, i: Expr, env: Env, conv: Conversion)
    requires NoHas(b) && NoHas(i)
    ensures Sem(Index(b, i), env, conv).Ok? ==> Com(Index(b, i), env, conv) == Sem(Index(b, i), env, conv)
    decreases Index(b, i), -1
  {
    ValuesAreKept(b, env, conv);
    ValuesAreKept(i, env, conv);
  }

  lemma {:induction false} OperandsKept(op: BinOp, l: Expr, r: Expr, env: Env, conv: Conversion)
    requires NoHas(l) && NoHas(r)
    ensures Sem(Bin(op, l, r), env, conv).Ok? ==> Com(Bin(op, l, r), env, conv) == Sem(Bin(op, l, r), env, conv)
    decreases Bin(op, l, r), -1
  {
    var a, b, a', b' := Sem(l, env, conv), Sem(r, env, conv), Com(l, env, conv), Com(r, env, conv);
    assert a.Ok? ==> a' == a by { ValuesAreKept(l, env, conv); }
    assert b.Ok? ==> b' == b by { ValuesAreKept(r, env, conv); }
    SemOfBinary(op, l, r, env, conv);
    ComOfBinary(op, l, r, env, conv);
    OperatorKeeps(op, a, b, a', b');
  }

  lemma {:induction false} ComOfBinary(op: BinOp, l: Expr, r: Expr, env: Env, conv: Conversion)
    ensures Com(Bin(op, l, r), env, conv) == Operated(op, Com(l, env, conv), Com(r, env, conv))
  {
  }

  lemma {:induction false} CallKept(name: Word, args: seq<Expr>, env: Env, conv: Conversion)
    requires name != "has" && NoHasAll(args)
    ensures Sem(Call(name, args), env, conv).Ok? ==>
        Com(Call(name, args), env, conv) == Sem(Call(name, args), env, conv)
    decreases args, 2
  {
    if IsMacro(name) {
      MacroKept(name, args, env, conv);
    } else {
      AllKept(args, env, conv);
    }
  }

  lemma {:induction false} AllKept(es: seq<Expr>, env: Env, conv: Conversion)
    requires NoHasAll(es)
    ensures SemAll(es, env, conv).Ok? ==> ComAll(es, env, conv) == SemAll(es, env, conv)
    decreases es, 0
  {
    if es != [] {
      ValuesAreKept(es[0], env, conv);
      AllKept(es[1..], env, conv);
    }
  }

  lemma {:induction false} PairsKept(ps: seq<Pair>, env: Env, conv: Conversion, m: map<Key, Value>)
    requires NoHasPairs(ps)
    ensures SemPairs(ps, env, conv, m).Ok? ==> ComPairs(ps, env, conv, m) == SemPairs(ps, env, conv, m)
    decreases ps, 0
  {
    if ps != [] {
      PairKept(ps[0], env, conv, m);
      var m' := SemPair(ps[0], env, conv, m);
      if m'.Ok? { PairsKept(ps[1..], env, conv, m'.value); }
    }
  }

  lemma {:induction false} PairKept(p: Pair, env: Env, conv: Conversion, m: map<Key, Value>)
    requires NoHasPair(p)
    ensures SemPair(p, env, conv, m).Ok? ==> ComPair(p, env, conv, m) == SemPair(p, env, conv, m)
    decreases p, 0
  {
    ValuesAreKept(p.key, env, conv);
    ValuesAreKept(p.value, env, conv);
  }

  lemma {:induction false} MacroKept(name: string, args: seq<Expr>, env: Env, conv: Conversion)
    requires NoHasAll(args)
    ensures SemMacro(name, args, env, conv).Ok? ==> ComMacro(name, args, env, conv) == SemMacro(name, args, env, conv)
    decreases args, 1
  {
    if MacroParts(args).Some? {
      var (x, pred, coll) := MacroParts(args).value;
      NoHasIn(args, pred);
      NoHasIn(args, coll);
      ValuesAreKept(coll, env, conv);
      var v := Sem(coll, env, conv);
      if v.Ok? && v.value.List? {
        var items := v.value.items;
        ItemsKept(pred, x, items, env, conv);
        var os := ComItems(pred, x, items, env, conv);
        if Collect(os).Ok? && Combine(name, items, Collect(os).value).Ok? { MacroKeeps(name, items, os); }
      }
    }
  }

  lemma {:induction false} ItemsKept(pred: Expr, x: string, items: seq<Value>, env: Env, conv: Conversion)
    requires NoHas(pred)
    ensures SemItems(pred, x, items, env, conv).Ok? ==>
      Collect(ComItems(pred, x, items, env, conv)) == SemItems(pred, x, items, env, conv)
    decreases pred, 1, |items|
  {
    if items != [] {
      ValuesAreKept(pred, env[x := items[0]], conv);
      ItemsKept(pred, x, items[1..], env, conv);
      assert ComItems(pred, x, items, env, conv)[1..] == ComItems(pred, x, items[1..], env, conv);
    }
  }

  /** `x || true ? y : y`. */
  function Guarded(x: Word, y: Word): Expr {
    Cond(Bin(Or, Name(x), Lit(BoolLit(true))), Name(y), Name(y))
  }

  /** With `has` a value can change: it takes the fault of an unknown `x` for the field's absence. */
  lemma {:induction false} HasLosesTheField(x: Word, y: Word, f: Word, env: Env, conv: Conversion)
    requires x !in env && y in env && env[y].Dict? && StrKey(f) in env[y].m
    ensures
      var e := Call("has", [Select(Guarded(x, y), f)]);
      Sem(e, env, conv) == Ok(Bool(false)) && Com(e, env, conv) == Ok(Bool(true))
  {
    var t, or := Lit(BoolLit(true)), Bin(Or, Name(x), Lit(BoolLit(true)));
    UnknownOnTheLeft(x, env, conv);
    assert Com(t, env, conv) == Ok(Bool(true)) && Com(Name(x), env, conv) == Err(CelFault);
    assert Com(or, env, conv) == Ok(Bool(true));
    assert Com(Name(y), env, conv) == Ok(env[y]);
    assert Sem(Guarded(x, y), env, conv) == Err(CelFault);
    assert Com(Guarded(x, y), env, conv) == Ok(env[y]);
    var args := [Select(Guarded(x, y), f)];
    assert SemHas(args, env, conv) == Ok(Bool(false));
    assert ComHas(args, env, conv) == Ok(Bool(true));
  }
}
