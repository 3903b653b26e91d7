/**
How the logical operators and the quantifying macros of app/policy_as_code/cel.py, which take
the first fault they meet for final, compare with those of the Common Expression Language
definition ("Logical Operators", "Macros"), where an operand or item that decides absorbs faults.
*/
module CelLogic {
  import opened Common
  import opened CelSyntax
  import opened PyValue
  import opened CelEval

  type Operand = Result<bool, Fault>

  /** An operand as the logical operators see it: what is not a bool is a fault. */
  function AsBool(r: Outcome): Operand {
    var v :- r;
    Test(v)
  }

  function AsValue(r: Operand): Outcome {
    var b :- r;
    Ok(Bool(b))
  }

  /** A false operand decides, on whichever side; otherwise a fault does. */
  function CommutativeAnd(l: Operand, r: Operand): Operand {
    if l == Ok(false) || r == Ok(false) then Ok(false) else if l.Err? then l else r
  }

  /** A true operand decides, on whichever side; otherwise a fault does. */
  function CommutativeOr(l: Operand, r: Operand): Operand {
    if l == Ok(true) || r == Ok(true) then Ok(true) else if l.Err? then l else r
  }

  /** The order of the operands matters to them only where both are faults. */
  lemma {:induction false} Commute(l: Operand, r: Operand)
    ensures l.Ok? || r.Ok? ==> CommutativeAnd(l, r) == CommutativeAnd(r, l)
    ensures l.Ok? || r.Ok? ==> CommutativeOr(l, r) == CommutativeOr(r, l)
  {
    match (l, r)
    case (Ok(x), Ok(y)) => if x == y { assert l == r; } else { assert x || y; }
    case _ =>
  }

  /** `&&` is the commutative operator except exactly where the left operand faults and the right one is false. */
  lemma {:induction false} AndIsCommutativeExactly(l: Expr, r: Expr, env: Env, conv: Conversion)
    ensures
      var a, b := AsBool(Sem(l, env, conv)), AsBool(Sem(r, env, conv));
      Sem(Bin(And, l, r), env, conv) == AsValue(CommutativeAnd(a, b)) <==> !(a.Err? && b == Ok(false))
  {
    LeftToRight(And, l, r, env, conv);
  }

  /** `||` is the commutative operator except exactly where the left operand faults and the right one is true. */
  lemma {:induction false} OrIsCommutativeExactly(l: Expr, r: Expr, env: Env, conv: Conversion)
    ensures
      var a, b := AsBool(Sem(l, env, conv)), AsBool(Sem(r, env, conv));
      Sem(Bin(Or, l, r), env, conv) == AsValue(CommutativeOr(a, b)) <==> !(a.Err? && b == Ok(true))
  {
    LeftToRight(Or, l, r, env, conv);
  }

  /** What the code does: the left operand decides if it can, and its fault is final. */
  lemma {:induction false} LeftToRight(op: BinOp, l: Expr, r: Expr, env: Env, conv: Conversion)
    requires op == And || op == Or
    ensures
      var a, b := AsBool(Sem(l, env, conv)), AsBool(Sem(r, env, conv));
      Sem(Bin(op, l, r), env, conv) == AsValue(if a.Err? || a == Ok(op == Or) then a else b)
  {
    SemOfBinary(op, l, r, env, conv);
  }

  /** `x && false` and `x || true` fault for an unknown `x`, though the operands the other way round do not. */
  lemma {:induction false} UnknownOnTheLeft(x: Word, env: Env, conv: Conversion)
    requires x !in env
    ensures Sem(Bin(And, Name(x), Lit(BoolLit(false))), env, conv) == Err(CelFault)
    ensures Sem(Bin(And, Lit(BoolLit(false)), Name(x)), env, conv) == Ok(Bool(false))
    ensures Sem(Bin(Or, Name(x), Lit(BoolLit(true))), env, conv) == Err(CelFault)
    ensures Sem(Bin(Or, Lit(BoolLit(true)), Name(x)), env, conv) == Ok(Bool(true))
  {
    var f, t := Lit(BoolLit(false)), Lit(BoolLit(true));
    assert Sem(f, env, conv) == Ok(Bool(false)) && Sem(t, env, conv) == Ok(Bool(true))
        && Sem(Name(x), env, conv) == Err(CelFault);
    LeftToRight(And, Name(x), f, env, conv);
    LeftToRight(And, f, Name(x), env, conv);
    LeftToRight(Or, Name(x), t, env, conv);
    LeftToRight(Or, t, Name(x), env, conv);
  }

  // ---------- all and exists ----------

  /** The values of a list of outcomes, or its first fault. */
  function Collect(os: seq<Outcome>): (r: Result<seq<Value>, Fault>)
    ensures r.Ok? ==> |r.value| == |os|
  {
    if os == [] then Ok([])
    else
      var v :- os[0];
      var vs :- Collect(os[1..]);
      Ok([v] + vs)
  }

  /** `all` (or `exists`) on what its predicate gave for each item: all of it is evaluated before any is looked at. */
  function Eager(universal: bool, os: seq<Outcome>): Operand {
    var vs :- Collect(os);
    Quantify(vs, universal)
  }

  /** The macro of the definition: an item that decides does so whatever the others are; otherwise a fault does. */
  function Absorbing(universal: bool, os: seq<Outcome>): Operand {
    if os == [] then Ok(universal)
    else
      var first, rest := AsBool(os[0]), Absorbing(universal, os[1..]);
      if universal then CommutativeAnd(first, rest) else CommutativeOr(first, rest)
  }

  /** The same value, or a fault on both sides. */
  predicate SameAnswer<T(==)>(a: Result<T, Fault>, b: Result<T, Fault>) {
    a == b || (a.Err? && b.Err?)
  }

  /** The item's outcome settles the macro on its own. */
  predicate Decides(universal: bool, o: Outcome) {
    o == Ok(Bool(!universal))
  }

  predicate SomeDecides(universal: bool, os: seq<Outcome>) {
    exists k :: 0 <= k < |os| && Decides(universal, os[k])
  }

  predicate SomeFaults(os: seq<Outcome>) {
    exists k :: 0 <= k < |os| && os[k].Err?
  }

  /** A result that is no bool stands before every item that decides. */
  predicate NonBoolFirst(universal: bool, os: seq<Outcome>) {
    os != [] && !Decides(universal, os[0]) && (AsBool(os[0]).Err? || NonBoolFirst(universal, os[1..]))
  }

  lemma {:induction false} SomeSplit(universal: bool, os: seq<Outcome>)
    requires os != []
    ensures SomeDecides(universal, os) <==> Decides(universal, os[0]) || SomeDecides(universal, os[1..])
    ensures SomeFaults(os) <==> os[0].Err? || SomeFaults(os[1..])
  {
    if SomeDecides(universal, os[1..]) {
      var k :| 0 <= k < |os| - 1 && Decides(universal, os[1..][k]);
      assert Decides(universal, os[k + 1]);
    }
    if SomeFaults(os[1..]) {
      var k :| 0 <= k < |os| - 1 && os[1..][k].Err?;
      assert os[k + 1].Err?;
    }
    if k :| 1 <= k < |os| && Decides(universal, os[k]) { assert Decides(universal, os[1..][k - 1]); }
    if k :| 1 <= k < |os| && os[k].Err? { assert os[1..][k - 1].Err?; }
  }

  lemma {:induction false} CollectFaults(os: seq<Outcome>)
    ensures Collect(os).Err? <==> SomeFaults(os)
  {
    if os != [] {
      CollectFaults(os[1..]);
      SomeSplit(true, os);
    }
  }

  lemma {:induction false} AbsorbingMeans(universal: bool, os: seq<Outcome>)
    ensures Absorbing(universal, os) == Ok(!universal) <==> SomeDecides(universal, os)
    ensures Absorbing(universal, os).Err? <==> !SomeDecides(universal, os) && NonBoolFirst(universal, os)
    ensures !SomeDecides(universal, os) && !NonBoolFirst(universal, os) ==> Absorbing(universal, os) == Ok(universal)
  {
    if os != [] {
      AbsorbingMeans(universal, os[1..]);
      SomeSplit(universal, os);
      var first := AsBool(os[0]);
      assert first.Ok? ==> os[0] == Ok(Bool(first.value));
    }
  }

  lemma {:induction false} EagerMeans(universal: bool, os: seq<Outcome>)
    requires !SomeFaults(os)
    ensures Eager(universal, os).Err? <==> NonBoolFirst(universal, os)
    ensures Eager(universal, os) == Ok(!universal) <==> SomeDecides(universal, os) && !NonBoolFirst(universal, os)
    ensures !SomeDecides(universal, os) && !NonBoolFirst(universal, os) ==> Eager(universal, os) == Ok(universal)
  {
    CollectFaults(os);
    if os != [] {
      SomeSplit(universal, os);
      EagerMeans(universal, os[1..]);
      CollectFaults(os[1..]);
      assert Collect(os).value[1..] == Collect(os[1..]).value;
    }
  }

  /**
  `all` and `exists` answer as the definition's macros do except exactly where an item decides
  and yet an item faults, or a result that is no bool stands before every item that decides.
  */
  lemma {:induction false} QuantifiersExactly(universal: bool, os: seq<Outcome>)
    ensures SameAnswer(Eager(universal, os), Absorbing(universal, os))
            <==> !(SomeDecides(universal, os) && (SomeFaults(os) || NonBoolFirst(universal, os)))
  {
    AbsorbingMeans(universal, os);
    CollectFaults(os);
    if SomeFaults(os) {
      FaultIsNoBool(universal, os);
    } else {
      EagerMeans(universal, os);
    }
  }

  /** Where nothing decides, a fault stands before everything that does. */
  lemma {:induction false} FaultIsNoBool(universal: bool, os: seq<Outcome>)
    requires SomeFaults(os)
    ensures SomeDecides(universal, os) || NonBoolFirst(universal, os)
  {
    SomeSplit(universal, os);
    if !os[0].Err? { FaultIsNoBool(universal, os[1..]); }
  }

  /** What the predicate gives for each item. */
  ghost function Outcomes(pred: Expr, x: string, items: seq<Value>, env: Env, conv: Conversion): seq<Outcome> {
    if items == [] then [] else [Sem(pred, env[x := items[0]], conv)] + Outcomes(pred, x, items[1..], env, conv)
  }

  lemma {:induction false} ItemsAreCollected(pred: Expr, x: string, items: seq<Value>, env: Env, conv: Conversion)
    ensures |Outcomes(pred, x, items, env, conv)| == |items|
    ensures SemItems(pred, x, items, env, conv) == Collect(Outcomes(pred, x, items, env, conv))
  {
    if items != [] {
      ItemsAreCollected(pred, x, items[1..], env, conv);
      var os := Outcomes(pred, x, items, env, conv);
      assert os[1..] == Outcomes(pred, x, items[1..], env, conv);
    }
  }

  /** `all` and `exists` over a list evaluate their predicate on every item before they look at any result. */
  lemma {:induction false} MacroIsEager(name: Word, args: seq<Expr>, items: seq<Value>, env: Env, conv: Conversion)
    requires (name == "all" || name == "exists") && MacroParts(args).Some?
    requires Sem(MacroParts(args).value.2, env, conv) == Ok(List(items))
    ensures
      var (x, pred, _) := MacroParts(args).value;
      Sem(Call(name, args), env, conv) == AsValue(Eager(name == "all", Outcomes(pred, x, items, env, conv)))
  {
    var (x, pred, coll) := MacroParts(args).value;
    ItemsAreCollected(pred, x, items, env, conv);
    assert Sem(Call(name, args), env, conv) == SemMacro(name, args, env, conv);
  }
}
