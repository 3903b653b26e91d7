/**
What the expressions of app/policy_as_code/cel.py evaluate to: each operator, function and
macro, for any operands, in terms of the operands' values alone.
*/
module CelMeaning {
  import opened Common
  import opened CelSyntax
  import opened PyValue
  import opened CelEval
  import RegexSearch

  /** The expression has this value. */
  ghost predicate Has(e: Expr, env: Env, conv: Conversion, v: Value) {
    Sem(e, env, conv) == Ok(v)
  }

  /** The expression faults, in the language or under it. */
  ghost predicate Faults(e: Expr, env: Env, conv: Conversion) {
    Sem(e, env, conv).Err?
  }

  lemma {:induction false} BothOperands(op: BinOp, l: Expr, r: Expr, env: Env, conv: Conversion, a: Value, b: Value)
    requires op != And && op != Or && Has(l, env, conv, a) && Has(r, env, conv, b)
    ensures Sem(Bin(op, l, r), env, conv) == Binary(op, a, b)
  {
    SemOfBinary(op, l, r, env, conv);
  }

  // ---------- numbers ----------

  /** Two values with an order are compared by its sign. */
  lemma {:induction false} Ordered(l: Expr, r: Expr, env: Env, conv: Conversion, a: Value, b: Value, sign: int)
    requires Has(l, env, conv, a) && Has(r, env, conv, b) && PyOrder(a, b) == Some(sign)
    requires !a.Bool? && !b.Bool? && !a.Null? && !b.Null?
    ensures Has(Bin(Lt, l, r), env, conv, Bool(sign < 0)) && Has(Bin(Le, l, r), env, conv, Bool(sign <= 0))
    ensures Has(Bin(Gt, l, r), env, conv, Bool(sign > 0)) && Has(Bin(Ge, l, r), env, conv, Bool(sign >= 0))
  {
    BothOperands(Lt, l, r, env, conv, a, b);
    BothOperands(Le, l, r, env, conv, a, b);
    BothOperands(Gt, l, r, env, conv, a, b);
    BothOperands(Ge, l, r, env, conv, a, b);
  }

  lemma {:induction false} ComparedForEquality(l: Expr, r: Expr, env: Env, conv: Conversion, a: Value, b: Value)
    requires Has(l, env, conv, a) && Has(r, env, conv, b)
    ensures Has(Bin(Eq, l, r), env, conv, Bool(PyEq(a, b))) && Has(Bin(Ne, l, r), env, conv, Bool(!PyEq(a, b)))
  {
    BothOperands(Eq, l, r, env, conv, a, b);
    BothOperands(Ne, l, r, env, conv, a, b);
  }

  /** On integers each comparison is the comparison of its name. */
  lemma {:induction false} IntegersCompare(l: Expr, r: Expr, env: Env, conv: Conversion, a: int, b: int)
    requires Has(l, env, conv, Int(a)) && Has(r, env, conv, Int(b))
    ensures Has(Bin(Lt, l, r), env, conv, Bool(a < b)) && Has(Bin(Le, l, r), env, conv, Bool(a <= b))
    ensures Has(Bin(Gt, l, r), env, conv, Bool(a > b)) && Has(Bin(Ge, l, r), env, conv, Bool(a >= b))
    ensures Has(Bin(Eq, l, r), env, conv, Bool(a == b)) && Has(Bin(Ne, l, r), env, conv, Bool(a != b))
  {
    Ordered(l, r, env, conv, Int(a), Int(b), PyValue.Sign(a - b));
    ComparedForEquality(l, r, env, conv, Int(a), Int(b));
  }

  /** In particular on two literals. */
  lemma {:induction false} LiteralsCompare(a: nat, b: nat, env: Env, conv: Conversion)
    ensures
      var l, r := Lit(IntLit(a)), Lit(IntLit(b));
      && Has(Bin(Lt, l, r), env, conv, Bool(a < b)) && Has(Bin(Le, l, r), env, conv, Bool(a <= b))
      && Has(Bin(Gt, l, r), env, conv, Bool(a > b)) && Has(Bin(Ge, l, r), env, conv, Bool(a >= b))
  {
    IntegersCompare(Lit(IntLit(a)), Lit(IntLit(b)), env, conv, a, b);
  }

  lemma {:induction false} IntegersAdd(l: Expr, r: Expr, env: Env, conv: Conversion, a: int, b: int)
    requires Has(l, env, conv, Int(a)) && Has(r, env, conv, Int(b))
    ensures Has(Bin(Add, l, r), env, conv, Int(a + b)) && Has(Bin(Sub, l, r), env, conv, Int(a - b))
  {
    BothOperands(Add, l, r, env, conv, Int(a), Int(b));
    BothOperands(Sub, l, r, env, conv, Int(a), Int(b));
  }

  lemma {:induction false} IntegersMultiply(l: Expr, r: Expr, env: Env, conv: Conversion, a: int, b: int)
    requires Has(l, env, conv, Int(a)) && Has(r, env, conv, Int(b))
    ensures Has(Bin(Mul, l, r), env, conv, Int(a * b))
  {
    BothOperands(Mul, l, r, env, conv, Int(a), Int(b));
  }

  lemma {:induction false} Negation(e: Expr, env: Env, conv: Conversion, v: Value)
    requires Has(e, env, conv, v)
    ensures Sem(Neg(e), env, conv) == if v.Int? then Ok(Int(-v.n)) else Err(CelFault)
    ensures Sem(Not(e), env, conv) == if v.Bool? then Ok(Bool(!v.b)) else Err(CelFault)
  {
  }

  /** Division by zero faults; otherwise quotient and remainder recompose, the remainder with the dividend's sign. */
  lemma {:induction false} IntegersDivide(l: Expr, r: Expr, env: Env, conv: Conversion, a: int, b: int)
    returns (q: int, m: int)
    requires Has(l, env, conv, Int(a)) && Has(r, env, conv, Int(b))
    ensures b == 0 ==> Sem(Bin(Div, l, r), env, conv) == Err(CelFault) == Sem(Bin(Mod, l, r), env, conv)
    ensures b != 0 ==> Has(Bin(Div, l, r), env, conv, Int(q)) && Has(Bin(Mod, l, r), env, conv, Int(m))
    ensures b != 0 ==> a == q * b + m && (if m < 0 then -m else m) < (if b < 0 then -b else b)
    ensures b != 0 ==> if a < 0 then m <= 0 else m >= 0
  {
    BothOperands(Div, l, r, env, conv, Int(a), Int(b));
    BothOperands(Mod, l, r, env, conv, Int(a), Int(b));
    if b == 0 {
      q, m := 0, 0;
    } else {
      q, m := Quotient(a, b), Remainder(a, b);
      TruncatingDivision(a, b);
    }
  }

  /** Bools and null have no order, whatever they are compared with, and numbers and strings none between them. */
  lemma {:induction false} NoOrder(op: BinOp, l: Expr, r: Expr, env: Env, conv: Conversion, a: Value, b: Value)
    requires (op == Lt || op == Le || op == Gt || op == Ge) && Has(l, env, conv, a) && Has(r, env, conv, b)
    ensures a.Bool? || b.Bool? || a.Null? || b.Null? ==> Sem(Bin(op, l, r), env, conv) == Err(CelFault)
    ensures (a.Int? && b.Str?) || (a.Str? && b.Int?) || a.Dict? || b.Dict? ==> Faults(Bin(op, l, r), env, conv)
  {
    BothOperands(op, l, r, env, conv, a, b);
  }

  /** Arithmetic takes integers only; a bool is none. `+` also joins two strings or two lists. */
  lemma {:induction false} NoArithmetic(op: BinOp, l: Expr, r: Expr, env: Env, conv: Conversion, a: Value, b: Value)
    requires (op == Add || op == Sub || op == Mul || op == Div || op == Mod)
    requires Has(l, env, conv, a) && Has(r, env, conv, b) && !(a.Int? && b.Int?)
    requires op == Add ==> !(a.Str? && b.Str?) && !(a.List? && b.List?)
    ensures Sem(Bin(op, l, r), env, conv) == Err(CelFault)
  {
    BothOperands(op, l, r, env, conv, a, b);
  }

  // ---------- strings ----------

  /** At the first place where they differ, `a` has the smaller character or has ended. */
  ghost predicate Precedes(a: string, b: string) {
    exists k :: 0 <= k <= |a| && DiffersAt(a, b, k)
  }

  predicate DiffersAt(a: string, b: string, k: nat)
    requires k <= |a|
  {
    k < |b| && a[..k] == b[..k] && (k == |a| || a[k] < b[k])
  }

  lemma {:induction false} OrderIsFirstDifference(a: string, b: string)
    ensures StrOrder(a, b) < 0 <==> Precedes(a, b)
  {
    if a == "" || b == "" {
      if a == "" && b != "" {
        assert DiffersAt(a, b, 0);
      }
    } else if a[0] == b[0] {
      OrderIsFirstDifference(a[1..], b[1..]);
      PrecedesTail(a, b);
    } else if a[0] < b[0] {
      assert DiffersAt(a, b, 0);
    } else if k :| 0 <= k <= |a| && DiffersAt(a, b, k) {
      assert k > 0 ==> a[..k][0] == b[..k][0];
    }
  }

  lemma {:induction false} PrecedesTail(a: string, b: string)
    requires a != "" && b != "" && a[0] == b[0]
    ensures Precedes(a, b) <==> Precedes(a[1..], b[1..])
  {
    if k :| 0 <= k <= |a| && DiffersAt(a, b, k) {
      assert k > 0;
      assert a[1..][..k - 1] == a[..k][1..] && b[1..][..k - 1] == b[..k][1..];
      assert DiffersAt(a[1..], b[1..], k - 1);
    }
    if k :| 0 <= k <= |a[1..]| && DiffersAt(a[1..], b[1..], k) {
      assert a[..k + 1] == [a[0]] + a[1..][..k] && b[..k + 1] == [b[0]] + b[1..][..k];
      assert DiffersAt(a, b, k + 1);
    }
  }

  /** Strings are ordered by the first character in which they differ. */
  lemma {:induction false} StringsCompare(l: Expr, r: Expr, env: Env, conv: Conversion, a: string, b: string)
    requires Has(l, env, conv, Value.Str(a)) && Has(r, env, conv, Value.Str(b))
    ensures Has(Bin(Lt, l, r), env, conv, Bool(Precedes(a, b)))
    ensures Has(Bin(Gt, l, r), env, conv, Bool(Precedes(b, a)))
    ensures Has(Bin(Le, l, r), env, conv, Bool(!Precedes(b, a)))
    ensures Has(Bin(Ge, l, r), env, conv, Bool(!Precedes(a, b)))
    ensures Has(Bin(Eq, l, r), env, conv, Bool(a == b)) && Has(Bin(Ne, l, r), env, conv, Bool(a != b))
  {
    var x, y := Value.Str(a), Value.Str(b);
    OrderIsFirstDifference(a, b);
    OrderIsFirstDifference(b, a);
    OrderFlips(a, b);
    Ordered(l, r, env, conv, x, y, StrOrder(a, b));
    ComparedForEquality(l, r, env, conv, x, y);
  }

  /** `b` occurs in `a` at `i`. */
  predicate OccursAt(a: string, b: string, i: nat) {
    i + |b| <= |a| && a[i..i + |b|] == b
  }

  lemma {:induction false} ContainsIsOccurrence(a: string, b: string)
    ensures Contains(a, b) <==> exists i: nat :: OccursAt(a, b, i)
  {
    if i: nat :| OccursAt(a, b, i) {
      assert a[i..][..|b|] == a[i..i + |b|];
      assert b <= a[i..];
    }
    if i :| 0 <= i <= |a| && b <= a[i..] {
      assert a[i..][..|b|] == a[i..i + |b|];
      assert OccursAt(a, b, i);
    }
  }

  lemma {:induction false} StringsJoin(l: Expr, r: Expr, env: Env, conv: Conversion, a: string, b: string)
    requires Has(l, env, conv, Value.Str(a)) && Has(r, env, conv, Value.Str(b))
    ensures Has(Bin(Add, l, r), env, conv, Value.Str(a + b))
    ensures Has(Bin(In, l, r), env, conv, Bool(exists i: nat :: OccursAt(b, a, i)))
  {
    BothOperands(Add, l, r, env, conv, Value.Str(a), Value.Str(b));
    BothOperands(In, l, r, env, conv, Value.Str(a), Value.Str(b));
    ContainsIsOccurrence(b, a);
  }

  // ---------- equality ----------

  const LEFT: Word := "l"
  const RIGHT: Word := "r"

  /** The values are equal: `l == r` is true where the two names stand for them. */
  ghost predicate Same(v: Value, w: Value) {
    Has(Bin(Eq, Name(LEFT), Name(RIGHT)), map["l" := v, "r" := w], (_, x) => Ok(x), Bool(true))
  }

  lemma {:induction false} SameIsPyEq(v: Value, w: Value)
    ensures Same(v, w) <==> PyEq(v, w)
  {
    var env: Env := map["l" := v, "r" := w];
    assert LEFT in env && RIGHT in env && env[LEFT] == v && env[RIGHT] == w;
    BothOperands(Eq, Name(LEFT), Name(RIGHT), env, (_, x) => Ok(x), v, w);
  }

  /** `==` and `!=` depend on the values alone, never fault, and are each other's negation. */
  lemma {:induction false} EqualityIsSame(l: Expr, r: Expr, env: Env, conv: Conversion, v: Value, w: Value)
    requires Has(l, env, conv, v) && Has(r, env, conv, w)
    ensures Has(Bin(Eq, l, r), env, conv, Bool(Same(v, w))) && Has(Bin(Ne, l, r), env, conv, Bool(!Same(v, w)))
  {
    SameIsPyEq(v, w);
    ComparedForEquality(l, r, env, conv, v, w);
  }

  /** Scalars are equal if they are the same, except that a bool equals the integer 0 or 1 it stands for. */
  lemma {:induction false} SameScalars(v: Value, w: Value)
    requires !v.List? && !v.Dict?
    ensures (v.Bool? && w.Int?) || (v.Int? && w.Bool?) ==>
      var (b, n) := if v.Bool? then (v.b, w.n) else (w.b, v.n);
      Same(v, w) <==> n == if b then 1 else 0
    ensures !(v.Bool? && w.Int?) && !(v.Int? && w.Bool?) ==> (Same(v, w) <==> v == w)
  {
    SameIsPyEq(v, w);
  }

  /** A list equals only a list of the same length, item by item. */
  lemma {:induction false} SameLists(xs: seq<Value>, w: Value)
    ensures Same(List(xs), w) <==>
      w.List? && |w.items| == |xs| && forall k :: 0 <= k < |xs| ==> Same(xs[k], w.items[k])
  {
    SameIsPyEq(List(xs), w);
    if w.List? && |w.items| == |xs| {
      forall k | 0 <= k < |xs|
        ensures Same(xs[k], w.items[k]) <==> PyEq(xs[k], w.items[k])
      {
        SameIsPyEq(xs[k], w.items[k]);
      }
    }
  }

  /** A map equals only a map with the same keys, value by value. */
  lemma {:induction false} SameMaps(m: map<Key, Value>, w: Value)
    ensures Same(Dict(m), w) <==> w.Dict? && w.m.Keys == m.Keys && forall k :: k in m ==> Same(m[k], w.m[k])
  {
    SameIsPyEq(Dict(m), w);
    if w.Dict? && w.m.Keys == m.Keys {
      forall k | k in m
        ensures Same(m[k], w.m[k]) <==> PyEq(m[k], w.m[k])
      {
        SameIsPyEq(m[k], w.m[k]);
      }
    }
  }

  // ---------- lists and maps ----------

  /** The key that a value looks up: a bool is the integer 0 or 1, and a list or a map is no key. */
  predicate IsKeyOf(k: Key, v: Value) {
    match v
    case Null => k == NullKey
    case Bool(b) => k == IntKey(if b then 1 else 0)
    case Int(n) => k == IntKey(n)
    case Str(s) => k == StrKey(s)
    case _ => false
  }

  /** `in` looks for an equal item of a list and for a key of a map. */
  lemma {:induction false} Membership(l: Expr, r: Expr, env: Env, conv: Conversion, v: Value, w: Value)
    requires Has(l, env, conv, v) && Has(r, env, conv, w)
    ensures w.List? ==> Has(Bin(In, l, r), env, conv, Bool(exists k :: 0 <= k < |w.items| && Same(v, w.items[k])))
    ensures w.Dict? && !v.List? && !v.Dict?
            ==> Has(Bin(In, l, r), env, conv, Bool(exists k :: IsKeyOf(k, v) && k in w.m))
    ensures w.Dict? && (v.List? || v.Dict?) ==> Faults(Bin(In, l, r), env, conv)
    ensures w.Str? && !v.Str? ==> Faults(Bin(In, l, r), env, conv)
    ensures !w.List? && !w.Dict? && !w.Str? ==> Sem(Bin(In, l, r), env, conv) == Err(CelFault)
  {
    BothOperands(In, l, r, env, conv, v, w);
    match w
    case List(items) => MemberIsSame(v, items);
    case Dict(m) => assert ToKey(v).Some? ==> IsKeyOf(ToKey(v).value, v);
    case _ =>
  }

  lemma {:induction false} MemberIsSame(v: Value, items: seq<Value>)
    ensures Member(v, items) <==> exists k :: 0 <= k < |items| && Same(v, items[k])
  {
    forall k | 0 <= k < |items|
      ensures Same(v, items[k]) <==> PyEq(v, items[k])
    {
      SameIsPyEq(v, items[k]);
    }
  }

  lemma {:induction false} ListsJoin(l: Expr, r: Expr, env: Env, conv: Conversion, xs: seq<Value>, ys: seq<Value>)
    requires Has(l, env, conv, List(xs)) && Has(r, env, conv, List(ys))
    ensures Has(Bin(Add, l, r), env, conv, List(xs + ys))
  {
    BothOperands(Add, l, r, env, conv, List(xs), List(ys));
  }

  /** A position counts from the front, or from the end if it is negative; any other faults. */
  lemma {:induction false} ListIndex(l: Expr, r: Expr, env: Env, conv: Conversion, items: seq<Value>, i: int)
    requires Has(l, env, conv, List(items)) && Has(r, env, conv, Int(i))
    ensures 0 <= i < |items| ==> Has(Index(l, r), env, conv, items[i])
    ensures 0 < -i <= |items| ==> Has(Index(l, r), env, conv, items[|items| + i])
    ensures i >= |items| || -i > |items| ==> Sem(Index(l, r), env, conv) == Err(CelFault)
  {
  }

  lemma {:induction false} StringIndex(l: Expr, r: Expr, env: Env, conv: Conversion, s: string, i: int)
    requires Has(l, env, conv, Value.Str(s)) && Has(r, env, conv, Int(i))
    ensures 0 <= i < |s| ==> Has(Index(l, r), env, conv, Value.Str([s[i]]))
    ensures 0 < -i <= |s| ==> Has(Index(l, r), env, conv, Value.Str([s[|s| + i]]))
    ensures i >= |s| || -i > |s| ==> Sem(Index(l, r), env, conv) == Err(CelFault)
  {
  }

  /** A map gives the value under the key, by index or by field; a key it does not hold faults. */
  lemma {:induction false} MapIndex(l: Expr, r: Expr, f: Word, env: Env, conv: Conversion, m: map<Key, Value>,
                                    k: Key, v: Value)
    requires Has(l, env, conv, Dict(m)) && Has(r, env, conv, v) && IsKeyOf(k, v)
    ensures Sem(Index(l, r), env, conv) == if k in m then Ok(m[k]) else Err(CelFault)
    ensures Sem(Select(l, f), env, conv) == if StrKey(f) in m then Ok(m[StrKey(f)]) else Err(CelFault)
  {
    assert ToKey(v) == Some(k);
  }

  /** What has no fields has no field, and what is neither list, map nor string has no index. */
  lemma {:induction false} NoIndex(l: Expr, r: Expr, f: Word, env: Env, conv: Conversion, w: Value, v: Value)
    requires Has(l, env, conv, w) && Has(r, env, conv, v)
    ensures !w.Dict? ==> Sem(Select(l, f), env, conv) == Err(CelFault)
    ensures !w.Dict? && !w.List? && !w.Str? ==> Sem(Index(l, r), env, conv) == Err(CelFault)
    ensures !w.Dict? && !v.Int? && !v.Bool? ==> Sem(Index(l, r), env, conv) == Err(CelFault)
    ensures v.List? || v.Dict? ==> Sem(Index(l, r), env, conv) == Err(CelFault)
  {
  }

  /** Expressions and the values they have, one for one. */
  ghost predicate HaveAll(es: seq<Expr>, env: Env, conv: Conversion, vs: seq<Value>) {
    |es| == |vs| && forall k :: 0 <= k < |es| ==> Has(es[k], env, conv, vs[k])
  }

  lemma {:induction false} AllHave(es: seq<Expr>, env: Env, conv: Conversion, vs: seq<Value>)
    requires HaveAll(es, env, conv, vs)
    ensures SemAll(es, env, conv) == Ok(vs)
  {
    if es != [] {
      assert Has(es[0], env, conv, vs[0]);
      AllHave(es[1..], env, conv, vs[1..]);
      assert vs == [vs[0]] + vs[1..];
    }
  }

  /** Scalars are read as they are written, names in the environment, and lists item by item. */
  lemma {:induction false} Displays(n: nat, s: string, b: bool, x: Word, es: seq<Expr>, env: Env, conv: Conversion,
                                    vs: seq<Value>)
    requires HaveAll(es, env, conv, vs)
    ensures Has(Lit(IntLit(n)), env, conv, Int(n)) && Has(Lit(StrLit(s)), env, conv, Value.Str(s))
    ensures Has(Lit(BoolLit(b)), env, conv, Bool(b)) && Has(Lit(NullLit), env, conv, Null)
    ensures Sem(Name(x), env, conv) == if x in env then Ok(env[x]) else Err(CelFault)
    ensures Has(ListOf(es), env, conv, List(vs))
  {
    AllHave(es, env, conv, vs);
  }

  // ---------- logic ----------

  /** On bools the logical operators are those of their names, and a conditional answers with the chosen branch. */
  lemma {:induction false} LogicOnBools(l: Expr, r: Expr, env: Env, conv: Conversion, a: bool, b: bool)
    requires Has(l, env, conv, Bool(a)) && Has(r, env, conv, Bool(b))
    ensures Has(Bin(And, l, r), env, conv, Bool(a && b)) && Has(Bin(Or, l, r), env, conv, Bool(a || b))
    ensures Has(Not(l), env, conv, Bool(!a))
  {
    SemOfBinary(And, l, r, env, conv);
    SemOfBinary(Or, l, r, env, conv);
  }

  /** Only the chosen branch is evaluated, and only a bool chooses. */
  lemma {:induction false} Conditional(c: Expr, y: Expr, n: Expr, env: Env, conv: Conversion, v: Value)
    requires Has(c, env, conv, v)
    ensures v == Bool(true) ==> Sem(Cond(c, y, n), env, conv) == Sem(y, env, conv)
    ensures v == Bool(false) ==> Sem(Cond(c, y, n), env, conv) == Sem(n, env, conv)
    ensures !v.Bool? ==> Sem(Cond(c, y, n), env, conv) == Err(CelFault)
  {
  }

  // ---------- functions ----------

  lemma {:induction false} Called(f: Word, args: seq<Expr>, env: Env, conv: Conversion, vs: seq<Value>)
    requires !IsMacro(f) && f != "has" && HaveAll(args, env, conv, vs)
    ensures Sem(Call(f, args), env, conv) == Builtin(f, vs, conv)
  {
    AllHave(args, env, conv, vs);
  }

  lemma {:induction false} CalledOn(f: Word, e: Expr, env: Env, conv: Conversion, v: Value)
    requires !IsMacro(f) && f != "has" && Has(e, env, conv, v)
    ensures Sem(Call(f, [e]), env, conv) == Builtin(f, [v], conv)
  {
    Called(f, [e], env, conv, [v]);
  }

  lemma {:induction false} SizeOf(f: Word, e: Expr, env: Env, conv: Conversion, v: Value)
    requires f == "size" && Has(e, env, conv, v)
    ensures v.Str? ==> Has(Call(f, [e]), env, conv, Int(|v.s|))
    ensures v.List? ==> Has(Call(f, [e]), env, conv, Int(|v.items|))
    ensures v.Dict? ==> Has(Call(f, [e]), env, conv, Int(|v.m|))
    ensures !v.Str? && !v.List? && !v.Dict? ==> Sem(Call(f, [e]), env, conv) == Err(CelFault)
  {
    CalledOn(f, e, env, conv, v);
  }

  lemma {:induction false} AbsoluteValue(f: Word, e: Expr, env: Env, conv: Conversion, n: int)
    requires f == "abs" && Has(e, env, conv, Int(n))
    ensures Has(Call(f, [e]), env, conv, Int(if n < 0 then -n else n))
  {
    CalledOn(f, e, env, conv, Int(n));
  }

  /** `x.startsWith(y)`, `x.endsWith(y)` and `x.contains(y)` say where `y` occurs in `x`. */
  lemma {:induction false} TextTests(f: Word, x: Expr, y: Expr, env: Env, conv: Conversion, a: string, b: string)
    requires Has(x, env, conv, Value.Str(a)) && Has(y, env, conv, Value.Str(b))
    ensures f == "startsWith" ==> Has(Call(f, [x, y]), env, conv, Bool(OccursAt(a, b, 0)))
    ensures f == "endsWith" ==> Has(Call(f, [x, y]), env, conv, Bool(|b| <= |a| && OccursAt(a, b, |a| - |b|)))
    ensures f == "contains" ==> Has(Call(f, [x, y]), env, conv, Bool(exists i: nat :: OccursAt(a, b, i)))
  {
    if IsTextTest(f) {
      Called(f, [x, y], env, conv, [Value.Str(a), Value.Str(b)]);
      ContainsIsOccurrence(a, b);
      assert |b| <= |a| ==> a[|a| - |b|..] == a[|a| - |b|..|a| - |b| + |b|];
      assert |b| <= |a| ==> a[0..0 + |b|] == a[..|b|];
    }
  }

  /** `x.matches(p)` searches the text `x` for the pattern `p`, and a refused pattern is a fault. */
  lemma {:induction false} MatchesSearches(f: Word, x: Expr, p: Expr, env: Env, conv: Conversion, text: string,
                                           pattern: string)
    requires f == "matches" && Has(x, env, conv, Value.Str(text)) && Has(p, env, conv, Value.Str(pattern))
    ensures
      var found := RegexSearch.SearchMeaning(pattern, text);
      Sem(Call(f, [x, p]), env, conv) == if found.Ok? then Ok(Bool(found.value)) else Err(CelFault)
  {
    Called(f, [x, p], env, conv, [Value.Str(text), Value.Str(pattern)]);
  }

  /** The text tests and the search take exactly two strings. */
  lemma {:induction false} TextFunctionsNeedText(f: Word, args: seq<Expr>, env: Env, conv: Conversion, vs: seq<Value>)
    requires f == "startsWith" || f == "endsWith" || f == "contains" || f == "matches"
    requires HaveAll(args, env, conv, vs) && !(|vs| == 2 && vs[0].Str? && vs[1].Str?)
    ensures Sem(Call(f, args), env, conv) == Err(CelFault)
  {
    Called(f, args, env, conv, vs);
  }

  predicate AllInts(vs: seq<Value>) {
    forall k :: 0 <= k < |vs| ==> vs[k].Int?
  }

  /** `m` is among the integers, and none is below it (`least`) or above it. */
  predicate IsExtreme(m: int, vs: seq<Value>, least: bool)
    requires AllInts(vs)
  {
    Int(m) in vs && forall k :: 0 <= k < |vs| ==> if least then m <= vs[k].n else vs[k].n <= m
  }

  lemma {:induction false} ExtremeOfInts(best: int, rest: seq<Value>, least: bool) returns (m: int)
    requires AllInts(rest)
    ensures Extreme(Int(best), rest, least) == Ok(Int(m)) && IsExtreme(m, [Int(best)] + rest, least)
    decreases |rest|
  {
    if rest == [] {
      m := best;
      assert [Int(best)] + rest == [Int(best)];
    } else {
      var first := rest[0].n;
      var next := if least then (if first < best then first else best) else if first > best then first else best;
      m := ExtremeOfInts(next, rest[1..], least);
      var all, some := [Int(best)] + rest, [Int(next)] + rest[1..];
      assert all[0] == Int(best) && all[1] == Int(first);
      assert forall k :: 1 <= k < |some| ==> some[k] == all[k + 1];
      assert some[0] == Int(next);
      forall k | 0 <= k < |all|
        ensures if least then m <= all[k].n else all[k].n <= m
      {
        assert k >= 2 ==> all[k] == some[k - 1];
      }
    }
  }

  lemma {:induction false} ExtremeOf(f: Word, vs: seq<Value>, conv: Conversion) returns (m: int)
    requires (f == "min" || f == "max") && vs != [] && AllInts(vs)
    ensures IsExtreme(m, vs, f == "min")
    ensures Builtin(f, vs, conv) == Ok(Int(m)) && Builtin(f, [List(vs)], conv) == Ok(Int(m))
  {
    m := ExtremeOfInts(vs[0].n, vs[1..], f == "min");
    assert vs == [vs[0]] + vs[1..];
  }

  /** `min` and `max` of a list of integers, or of several arguments, are its least and its greatest. */
  lemma {:induction false} LeastAndGreatest(f: Word, e: Expr, args: seq<Expr>, env: Env, conv: Conversion,
                                            vs: seq<Value>)
    returns (m: int)
    requires (f == "min" || f == "max") && vs != [] && AllInts(vs)
    requires Has(e, env, conv, List(vs)) && HaveAll(args, env, conv, vs)
    ensures Has(Call(f, [e]), env, conv, Int(m)) && Has(Call(f, args), env, conv, Int(m))
    ensures IsExtreme(m, vs, f == "min")
  {
    m := ExtremeOf(f, vs, conv);
    CalledOn(f, e, env, conv, List(vs));
    Called(f, args, env, conv, vs);
  }

  lemma {:induction false} NothingIsExtreme(f: Word, e: Expr, env: Env, conv: Conversion)
    requires (f == "min" || f == "max") && Has(e, env, conv, List([]))
    ensures Sem(Call(f, [e]), env, conv) == Err(CelFault) && Sem(Call(f, []), env, conv) == Err(CelFault)
  {
    CalledOn(f, e, env, conv, List([]));
    Called(f, [], env, conv, []);
  }

  /** The conversions get their one argument, and `lower` and `upper` only a string. */
  lemma {:induction false} Conversions(f: Word, e: Expr, env: Env, conv: Conversion, v: Value)
    requires Has(e, env, conv, v)
    ensures f == "int" || f == "double" || f == "string" ==> Sem(Call(f, [e]), env, conv) == conv(f, v)
    ensures f == "lower" || f == "upper"
            ==> Sem(Call(f, [e]), env, conv) == if v.Str? then conv(f, v) else Err(CelFault)
  {
    if !IsMacro(f) && f != "has" {
      CalledOn(f, e, env, conv, v);
    }
  }

  predicate TakesOne(f: string) {
    f == "size" || f == "abs" || f == "lower" || f == "upper" || f == "int" || f == "double" || f == "string"
  }

  predicate IsFunction(f: string) {
    TakesOne(f) || f == "startsWith" || f == "endsWith" || f == "contains" || f == "matches" || f == "min" || f == "max"
  }

  /** A function with the wrong number of arguments faults, and so does one that does not exist. */
  lemma {:induction false} WrongCalls(f: Word, args: seq<Expr>, env: Env, conv: Conversion, vs: seq<Value>)
    requires HaveAll(args, env, conv, vs) && !IsMacro(f) && f != "has"
    requires !IsFunction(f) || (TakesOne(f) && |args| != 1)
    ensures Sem(Call(f, args), env, conv) == Err(CelFault)
  {
    Called(f, args, env, conv, vs);
  }

  // ---------- macros ----------

  /** The two ways to write a macro over the items of `coll`: with its variable named, or with `x`. */
  ghost predicate MacroCall(args: seq<Expr>, coll: Expr, x: Word, pred: Expr) {
    args == [coll, Name(x), pred] || (args == [coll, pred] && x == "x")
  }

  /** For the item bound to the variable, the predicate has this value. */
  ghost predicate PredHas(pred: Expr, x: Word, item: Value, env: Env, conv: Conversion, v: Value) {
    Has(pred, env[x := item], conv, v)
  }

  ghost predicate PredHasAll(pred: Expr, x: Word, items: seq<Value>, env: Env, conv: Conversion, vs: seq<Value>) {
    |vs| == |items| && forall k :: 0 <= k < |items| ==> PredHas(pred, x, items[k], env, conv, vs[k])
  }

  lemma {:induction false} ItemsHave(pred: Expr, x: Word, items: seq<Value>, env: Env, conv: Conversion,
                                     vs: seq<Value>)
    requires PredHasAll(pred, x, items, env, conv, vs)
    ensures SemItems(pred, x, items, env, conv) == Ok(vs)
  {
    if items != [] {
      assert PredHas(pred, x, items[0], env, conv, vs[0]);
      forall k | 0 <= k < |items| - 1
        ensures PredHas(pred, x, items[1..][k], env, conv, vs[1..][k])
      {
        assert PredHas(pred, x, items[k + 1], env, conv, vs[k + 1]);
      }
      ItemsHave(pred, x, items[1..], env, conv, vs[1..]);
      assert vs == [vs[0]] + vs[1..];
    }
  }

  lemma {:induction false} MacroOf(f: Word, args: seq<Expr>, coll: Expr, x: Word, pred: Expr, items: seq<Value>,
                                   env: Env, conv: Conversion, vs: seq<Value>)
    requires IsMacro(f) && MacroCall(args, coll, x, pred) && Has(coll, env, conv, List(items))
    requires PredHasAll(pred, x, items, env, conv, vs)
    ensures Sem(Call(f, args), env, conv) == Combine(f, items, vs)
  {
    assert MacroParts(args) == Some((x, pred, coll));
    ItemsHave(pred, x, items, env, conv, vs);
    assert Sem(Call(f, args), env, conv) == SemMacro(f, args, env, conv);
  }

  /** `map` gives the predicate's value for every item, in order. */
  lemma {:induction false} MapGivesEachValue(f: Word, args: seq<Expr>, coll: Expr, x: Word, pred: Expr,
                                             items: seq<Value>, env: Env, conv: Conversion, vs: seq<Value>)
    requires f == "map" && MacroCall(args, coll, x, pred) && Has(coll, env, conv, List(items))
    requires PredHasAll(pred, x, items, env, conv, vs)
    ensures Has(Call(f, args), env, conv, List(vs))
  {
    MacroOf(f, args, coll, x, pred, items, env, conv, vs);
  }

  function Bools(bs: seq<bool>): (vs: seq<Value>)
    ensures |vs| == |bs| && forall k :: 0 <= k < |bs| ==> vs[k] == Bool(bs[k])
  {
    if bs == [] then [] else [Bool(bs[0])] + Bools(bs[1..])
  }

  lemma {:induction false} QuantifyBools(bs: seq<bool>, universal: bool)
    ensures CelEval.Quantify(Bools(bs), universal)
            == Ok(if universal then forall k :: 0 <= k < |bs| ==> bs[k] else exists k :: 0 <= k < |bs| && bs[k])
  {
    if bs != [] {
      QuantifyBools(bs[1..], universal);
      assert Bools(bs)[1..] == Bools(bs[1..]);
      assert forall k :: 1 <= k < |bs| ==> bs[k] == bs[1..][k - 1];
    }
  }

  /** With a bool for every item, `all` holds if every one is true and `exists` if some one is. */
  lemma {:induction false} AllAndExists(f: Word, args: seq<Expr>, coll: Expr, x: Word, pred: Expr,
                                        items: seq<Value>, env: Env, conv: Conversion, bs: seq<bool>)
    requires MacroCall(args, coll, x, pred) && Has(coll, env, conv, List(items))
    requires PredHasAll(pred, x, items, env, conv, Bools(bs))
    ensures f == "all" ==> Has(Call(f, args), env, conv, Bool(forall k :: 0 <= k < |bs| ==> bs[k]))
    ensures f == "exists" ==> Has(Call(f, args), env, conv, Bool(exists k :: 0 <= k < |bs| && bs[k]))
  {
    if f == "all" || f == "exists" {
      MacroOf(f, args, coll, x, pred, items, env, conv, Bools(bs));
      QuantifyBools(bs, f == "all");
    }
  }

  /** How many are true. */
  function CountTrue(bs: seq<bool>): nat {
    if bs == [] then 0 else (if bs[0] then 1 else 0) + CountTrue(bs[1..])
  }

  /** An item whose bit is true stands behind as many items as have true bits before it, and there are no others. */
  predicate Kept(kept: seq<Value>, items: seq<Value>, bs: seq<bool>)
    requires |items| == |bs|
  {
    |kept| == CountTrue(bs) && forall k :: 0 <= k < |bs| && bs[k] ==> StandsAt(kept, CountTrue(bs[..k]), items[k])
  }

  predicate StandsAt(kept: seq<Value>, i: nat, v: Value) {
    i < |kept| && kept[i] == v
  }

  lemma {:induction false} CountBefore(bs: seq<bool>, k: nat)
    requires 0 < k <= |bs|
    ensures CountTrue(bs[..k]) == (if bs[0] then 1 else 0) + CountTrue(bs[1..][..k - 1])
  {
    assert bs[..k][1..] == bs[1..][..k - 1];
  }

  lemma {:induction false} ChosenAreKept(items: seq<Value>, bs: seq<bool>)
    requires |items| == |bs|
    ensures var c := CelEval.Chosen(items, Bools(bs)); c.Ok? && Kept(c.value, items, bs)
  {
    if bs != [] {
      ChosenAreKept(items[1..], bs[1..]);
      assert Bools(bs)[1..] == Bools(bs[1..]);
      var later := CelEval.Chosen(items[1..], Bools(bs[1..])).value;
      var kept := if bs[0] then [items[0]] + later else later;
      assert CelEval.Chosen(items, Bools(bs)) == Ok(kept);
      forall k | 0 <= k < |bs| && bs[k]
        ensures StandsAt(kept, CountTrue(bs[..k]), items[k])
      {
        if k == 0 {
          assert bs[..0] == [];
        } else {
          CountBefore(bs, k);
          assert bs[1..][k - 1];
          assert StandsAt(later, CountTrue(bs[1..][..k - 1]), items[1..][k - 1]);
        }
      }
    }
  }

  /** `filter` keeps exactly the items whose predicate is true, in their order; `exists_one` wants exactly one. */
  lemma {:induction false} FilterKeepsTheTrue(f: Word, args: seq<Expr>, coll: Expr, x: Word, pred: Expr,
                                              items: seq<Value>, env: Env, conv: Conversion, bs: seq<bool>)
    returns (kept: seq<Value>)
    requires MacroCall(args, coll, x, pred) && Has(coll, env, conv, List(items))
    requires PredHasAll(pred, x, items, env, conv, Bools(bs))
    ensures Kept(kept, items, bs)
    ensures f == "filter" ==> Has(Call(f, args), env, conv, List(kept))
    ensures f == "exists_one" ==> Has(Call(f, args), env, conv, Bool(ExactlyOne(bs)))
  {
    ChosenAreKept(items, bs);
    kept := CelEval.Chosen(items, Bools(bs)).value;
    OneTrue(bs);
    if f == "filter" || f == "exists_one" {
      MacroOf(f, args, coll, x, pred, items, env, conv, Bools(bs));
    }
  }

  ghost predicate OnlyAt(bs: seq<bool>, k: nat) {
    k < |bs| && bs[k] && forall j :: 0 <= j < |bs| && bs[j] ==> j == k
  }

  ghost predicate ExactlyOne(bs: seq<bool>) {
    exists k: nat :: OnlyAt(bs, k)
  }

  lemma {:induction false} NoneTrue(bs: seq<bool>)
    ensures CountTrue(bs) == 0 <==> forall k :: 0 <= k < |bs| ==> !bs[k]
  {
    if bs != [] {
      NoneTrue(bs[1..]);
      assert forall k :: 1 <= k < |bs| ==> bs[k] == bs[1..][k - 1];
    }
  }

  lemma {:induction false} OneTrue(bs: seq<bool>)
    ensures CountTrue(bs) == 1 <==> ExactlyOne(bs)
  {
    if bs != [] {
      var rest := bs[1..];
      OneTrue(rest);
      NoneTrue(rest);
      assert forall k :: 1 <= k < |bs| ==> bs[k] == rest[k - 1];
      if bs[0] && CountTrue(rest) == 0 {
        assert OnlyAt(bs, 0);
      }
      if !bs[0] && ExactlyOne(rest) {
        var k: nat :| OnlyAt(rest, k);
        assert OnlyAt(bs, k + 1);
      }
      if k: nat :| OnlyAt(bs, k) {
        assert k > 0 ==> OnlyAt(rest, k - 1);
        assert k == 0 ==> forall j :: 0 <= j < |rest| ==> !rest[j] by {
          forall j | 0 <= j < |rest| ensures k == 0 ==> !rest[j] { assert rest[j] == bs[j + 1]; }
        }
      }
    }
  }

  // ---------- faults in macros ----------

  /** A macro over what is no list, or one that is not written either way, faults. */
  lemma {:induction false} MacroNeedsAList(f: Word, args: seq<Expr>, coll: Expr, x: Word, pred: Expr, v: Value,
                                           env: Env, conv: Conversion)
    requires f == "all" || f == "exists" || f == "exists_one" || f == "filter" || f == "map"
    requires Has(coll, env, conv, v) && !v.List?
    ensures MacroCall(args, coll, x, pred) ==> Sem(Call(f, args), env, conv) == Err(CelFault)
    ensures |args| != 2 && !(|args| == 3 && args[1].Name?) ==> Sem(Call(f, args), env, conv) == Err(CelFault)
  {
    assert Sem(Call(f, args), env, conv) == SemMacro(f, args, env, conv);
    assert MacroCall(args, coll, x, pred) ==> MacroParts(args) == Some((x, pred, coll));
  }

  /** The first item whose predicate faults makes every macro fault, whatever comes before or after it. */
  lemma {:induction false} FirstFaultIsFinal(f: Word, args: seq<Expr>, coll: Expr, x: Word, pred: Expr,
                                             items: seq<Value>, env: Env, conv: Conversion, k: nat, fault: Fault)
    requires f == "all" || f == "exists" || f == "exists_one" || f == "filter" || f == "map"
    requires MacroCall(args, coll, x, pred) && Has(coll, env, conv, List(items)) && k < |items|
    requires forall j :: 0 <= j < k ==> Sem(pred, env[x := items[j]], conv).Ok?
    requires Sem(pred, env[x := items[k]], conv) == Err(fault)
    ensures Sem(Call(f, args), env, conv) == Err(fault)
  {
    assert MacroParts(args) == Some((x, pred, coll));
    ItemFaults(pred, x, items, env, conv, k, fault);
    assert Sem(Call(f, args), env, conv) == SemMacro(f, args, env, conv);
  }

  lemma {:induction false} ItemFaults(pred: Expr, x: Word, items: seq<Value>, env: Env, conv: Conversion, k: nat,
                                      fault: Fault)
    requires k < |items| && forall j :: 0 <= j < k ==> Sem(pred, env[x := items[j]], conv).Ok?
    requires Sem(pred, env[x := items[k]], conv) == Err(fault)
    ensures SemItems(pred, x, items, env, conv) == Err(fault)
    decreases k
  {
    if k > 0 {
      assert forall j :: 0 <= j < k - 1 ==> items[1..][j] == items[j + 1];
      ItemFaults(pred, x, items[1..], env, conv, k - 1, fault);
    }
  }

  /** A result that is no bool faults `filter` and `exists_one` wherever it stands. */
  lemma {:induction false} BoolsAreNeeded(f: Word, args: seq<Expr>, coll: Expr, x: Word, pred: Expr,
                                          items: seq<Value>, env: Env, conv: Conversion, vs: seq<Value>, k: nat)
    requires (f == "filter" || f == "exists_one") && MacroCall(args, coll, x, pred)
    requires Has(coll, env, conv, List(items)) && PredHasAll(pred, x, items, env, conv, vs)
    requires k < |vs| && !vs[k].Bool?
    ensures Sem(Call(f, args), env, conv) == Err(CelFault)
  {
    MacroOf(f, args, coll, x, pred, items, env, conv, vs);
    NotChosen(items, vs, k);
  }

  lemma {:induction false} NotChosen(items: seq<Value>, vs: seq<Value>, k: nat)
    requires |items| == |vs| && k < |vs| && !vs[k].Bool?
    ensures CelEval.Chosen(items, vs) == Err(CelFault)
  {
    if k > 0 {
      NotChosen(items[1..], vs[1..], k - 1);
    }
  }

  /**
  With a value for every item, `all` and `exists` are settled by the first result that is not
  the bool they wait through, `true` and `false` respectively: it answers if it is a bool, and faults if not.
  */
  lemma {:induction false} FirstDeciderDecides(f: Word, args: seq<Expr>, coll: Expr, x: Word, pred: Expr,
                                               items: seq<Value>, env: Env, conv: Conversion, vs: seq<Value>, k: nat)
    requires (f == "all" || f == "exists") && MacroCall(args, coll, x, pred)
    requires Has(coll, env, conv, List(items)) && PredHasAll(pred, x, items, env, conv, vs)
    requires k < |vs| && vs[k] != Bool(f == "all") && forall j :: 0 <= j < k ==> vs[j] == Bool(f == "all")
    ensures Sem(Call(f, args), env, conv) == if vs[k].Bool? then Ok(Bool(f == "exists")) else Err(CelFault)
  {
    MacroOf(f, args, coll, x, pred, items, env, conv, vs);
    QuantifyStops(vs, f == "all", k);
  }

  lemma {:induction false} QuantifyStops(vs: seq<Value>, universal: bool, k: nat)
    requires k < |vs| && vs[k] != Bool(universal) && forall j :: 0 <= j < k ==> vs[j] == Bool(universal)
    ensures CelEval.Quantify(vs, universal) == if vs[k].Bool? then Ok(!universal) else Err(CelFault)
  {
    if k > 0 {
      assert vs[0] == Bool(universal);
      QuantifyStops(vs[1..], universal, k - 1);
    }
  }

  // ---------- faults of operands ----------

  /** Of the strict operators' operands and an index's base and position, the first to fault decides the fault. */
  lemma {:induction false} FirstOperandFaults(op: BinOp, l: Expr, r: Expr, env: Env, conv: Conversion)
    requires op != And && op != Or
    ensures Sem(l, env, conv).Err? ==> Sem(Bin(op, l, r), env, conv) == Sem(l, env, conv) == Sem(Index(l, r), env, conv)
    ensures Sem(l, env, conv).Ok? && Sem(r, env, conv).Err?
            ==> Sem(Bin(op, l, r), env, conv) == Sem(r, env, conv) == Sem(Index(l, r), env, conv)
  {
    SemOfBinary(op, l, r, env, conv);
  }

  /** Of a call's arguments and a list's items likewise. */
  lemma {:induction false} FirstArgumentFaults(f: Word, es: seq<Expr>, k: nat, env: Env, conv: Conversion, fault: Fault)
    requires k < |es| && Sem(es[k], env, conv) == Err(fault) && forall j :: 0 <= j < k ==> Sem(es[j], env, conv).Ok?
    ensures Sem(ListOf(es), env, conv) == Err(fault)
    ensures !IsMacro(f) && f != "has" ==> Sem(Call(f, es), env, conv) == Err(fault)
  {
    ArgumentFaults(es, k, env, conv, fault);
  }

  lemma {:induction false} ArgumentFaults(es: seq<Expr>, k: nat, env: Env, conv: Conversion, fault: Fault)
    requires k < |es| && Sem(es[k], env, conv) == Err(fault) && forall j :: 0 <= j < k ==> Sem(es[j], env, conv).Ok?
    ensures SemAll(es, env, conv) == Err(fault)
    decreases k
  {
    if k > 0 {
      assert forall j :: 0 <= j < k - 1 ==> es[1..][j] == es[j + 1];
      ArgumentFaults(es[1..], k - 1, env, conv, fault);
    }
  }

  /** `has(b.f)` asks whether the map `b` has the field; a fault the language raises in `b` counts as no. */
  lemma {:induction false} HasAsksForAField(h: Word, b: Expr, f: Word, env: Env, conv: Conversion)
    requires h == "has"
    ensures
      var v, r := Sem(b, env, conv), Sem(Call(h, [Select(b, f)]), env, conv);
      && (v.Ok? ==> r == Ok(Bool(v.value.Dict? && StrKey(f) in v.value.m)))
      && (v == Err(CelFault) ==> r == Ok(Bool(false)))
      && (v == Err(PyFault) ==> r == Err(PyFault))
  {
    assert !IsMacro(h);
    var args := [Select(b, f)];
    assert Sem(Call(h, args), env, conv) == SemHas(args, env, conv);
    assert args[0].base == b;
  }

  // ---------- map displays ----------

  /** Each pair's key and value. */
  ghost predicate PairsHave(ps: seq<Pair>, env: Env, conv: Conversion, ks: seq<Key>, vs: seq<Value>) {
    && |ps| == |ks| == |vs|
    && forall k :: 0 <= k < |ps| ==> KeyIs(ps[k].key, env, conv, ks[k]) && Has(ps[k].value, env, conv, vs[k])
  }

  /** The expression's value looks up this key. */
  ghost predicate KeyIs(e: Expr, env: Env, conv: Conversion, k: Key) {
    exists v :: Has(e, env, conv, v) && IsKeyOf(k, v)
  }

  /** A map display holds each key that is written in it, with the last value written for it. */
  lemma {:induction false} LastValueWins(ps: seq<Pair>, env: Env, conv: Conversion, ks: seq<Key>, vs: seq<Value>)
    returns (m: map<Key, Value>)
    requires PairsHave(ps, env, conv, ks, vs)
    ensures Has(MapOf(ps), env, conv, Dict(m)) && m.Keys == set k | k in ks
    ensures forall i :: 0 <= i < |ks| && ks[i] !in ks[i + 1..] ==> m[ks[i]] == vs[i]
  {
    m := PairsAdd(ps, env, conv, ks, vs, map[]);
  }

  lemma {:induction false} PairsAdd(ps: seq<Pair>, env: Env, conv: Conversion, ks: seq<Key>, vs: seq<Value>,
                                    m0: map<Key, Value>)
    returns (m: map<Key, Value>)
    requires PairsHave(ps, env, conv, ks, vs)
    ensures SemPairs(ps, env, conv, m0) == Ok(m)
    ensures forall k :: k in m <==> k in m0 || k in ks
    ensures forall k :: k in m0 && k !in ks ==> m[k] == m0[k]
    ensures forall i :: 0 <= i < |ks| && ks[i] !in ks[i + 1..] ==> m[ks[i]] == vs[i]
    decreases |ps|
  {
    if ps == [] {
      m := m0;
    } else {
      var k, v := ks[0], vs[0];
      assert KeyIs(ps[0].key, env, conv, k) && Has(ps[0].value, env, conv, v);
      PairAdds(ps[0], env, conv, k, v, m0);
      m := PairsAdd(ps[1..], env, conv, ks[1..], vs[1..], m0[k := v]);
      assert ks == [k] + ks[1..];
      forall i | 0 <= i < |ks| && ks[i] !in ks[i + 1..]
        ensures m[ks[i]] == vs[i]
      {
        if i > 0 {
          assert ks[1..][i - 1] == ks[i] && ks[1..][i..] == ks[i + 1..];
        }
      }
    }
  }

  lemma {:induction false} PairAdds(p: Pair, env: Env, conv: Conversion, k: Key, v: Value, m0: map<Key, Value>)
    requires KeyIs(p.key, env, conv, k) && Has(p.value, env, conv, v)
    ensures SemPair(p, env, conv, m0) == Ok(m0[k := v])
  {
    var kv :| Has(p.key, env, conv, kv) && IsKeyOf(k, kv);
    assert ToKey(kv) == Some(k);
  }

  // ---------- ordering of lists ----------

  /** Whether the item order is defined at the top: bools and null are ordered only inside lists. */
  predicate Orderable(v: Value) {
    !v.Bool? && !v.Null?
  }

  /** Up to `k` the lists are equal item by item. */
  ghost predicate SamePrefix(xs: seq<Value>, ys: seq<Value>, k: nat) {
    k <= |xs| && k <= |ys| && forall j :: 0 <= j < k ==> Same(xs[j], ys[j])
  }

  lemma {:induction false} ListOrderSkips(xs: seq<Value>, ys: seq<Value>, k: nat)
    requires SamePrefix(xs, ys, k)
    ensures ListOrder(xs, ys) == ListOrder(xs[k..], ys[k..])
    decreases k
  {
    if k == 0 {
      assert xs[0..] == xs && ys[0..] == ys;
    } else {
      assert Same(xs[0], ys[0]);
      SameIsPyEq(xs[0], ys[0]);
      assert forall j :: 0 <= j < k - 1 ==> xs[1..][j] == xs[j + 1] && ys[1..][j] == ys[j + 1];
      ListOrderSkips(xs[1..], ys[1..], k - 1);
      assert xs[1..][k - 1..] == xs[k..] && ys[1..][k - 1..] == ys[k..];
    }
  }

  /** Where one list ends the other's length decides. */
  lemma {:induction false} ShorterListIsLess(l: Expr, r: Expr, env: Env, conv: Conversion, xs: seq<Value>,
                                             ys: seq<Value>)
    requires Has(l, env, conv, List(xs)) && Has(r, env, conv, List(ys))
    requires SamePrefix(xs, ys, if |xs| < |ys| then |xs| else |ys|)
    ensures Has(Bin(Lt, l, r), env, conv, Bool(|xs| < |ys|)) && Has(Bin(Le, l, r), env, conv, Bool(|xs| <= |ys|))
    ensures Has(Bin(Gt, l, r), env, conv, Bool(|xs| > |ys|)) && Has(Bin(Ge, l, r), env, conv, Bool(|xs| >= |ys|))
  {
    var k := if |xs| < |ys| then |xs| else |ys|;
    ListOrderSkips(xs, ys, k);
    Ordered(l, r, env, conv, List(xs), List(ys), PyValue.Sign(|xs| - |ys|));
  }

  /** Otherwise the first unequal items decide, as they compare on their own. */
  lemma {:induction false} FirstUnequalItemDecides(op: BinOp, l: Expr, r: Expr, x: Expr, y: Expr, env: Env,
                                                   conv: Conversion, xs: seq<Value>, ys: seq<Value>, k: nat)
    requires (op == Lt || op == Le || op == Gt || op == Ge) && k < |xs| && k < |ys|
    requires Has(l, env, conv, List(xs)) && Has(r, env, conv, List(ys))
    requires Has(x, env, conv, xs[k]) && Has(y, env, conv, ys[k]) && Orderable(xs[k]) && Orderable(ys[k])
    requires SamePrefix(xs, ys, k) && !Same(xs[k], ys[k])
    ensures Sem(Bin(op, l, r), env, conv) == Sem(Bin(op, x, y), env, conv)
  {
    ListOrderSkips(xs, ys, k);
    SameIsPyEq(xs[k], ys[k]);
    assert ListOrder(xs, ys) == PyOrder(xs[k], ys[k]);
    BothOperands(op, l, r, env, conv, List(xs), List(ys));
    BothOperands(op, x, y, env, conv, xs[k], ys[k]);
  }
}