/**
What the rule expressions of app/policy_as_code/evaluator.py evaluate to: names, logic,
comparisons and quantifiers, for any operands, in terms of the operands' values alone.
*/
module PolicyMeaning {
  import opened Common
  import opened PyValue
  import opened PolicyExpr
  import CelMeaning

  /** In Python every value counts as true but None, False, 0 and what is empty. */
  predicate IsTrue(v: Value) {
    v != Null && v != Bool(false) && v != Int(0) && v != Str("") && v != List([]) && v != Dict(map[])
  }

  lemma {:induction false} TruthOf(v: Value)
    ensures Truthy(v) <==> IsTrue(v)
  {
  }

  // ---------- names and fields ----------

  predicate IsLiteral(id: string) {
    id == "True" || id == "true" || id == "False" || id == "false" || id == "None" || id == "null"
  }

  /** Two underscores side by side. */
  ghost predicate IsIllegal(name: string) {
    exists i: nat :: CelMeaning.OccursAt(name, "__", i)
  }

  /** The six literals first, then what the context holds, then the parameters; what nothing holds is None. */
  lemma {:induction false} NamesAreLookedUp(lib: Library, id: string, ctx: Context, params: Context, depth: nat)
    ensures
      var r, key := Walk(lib, Name(id), ctx, params, depth), StrKey(id);
      && (id == "True" || id == "true" ==> r == Ok(Bool(true)))
      && (id == "False" || id == "false" ==> r == Ok(Bool(false)))
      && (id == "None" || id == "null" ==> r == Ok(Null))
      && (!IsLiteral(id) && IsIllegal(id) ==> r == Err(PolicyError("illegal name")))
      && (!IsLiteral(id) && !IsIllegal(id) ==>
            r == Ok(if key in ctx then ctx[key] else if key in params then params[key] else Null))
  {
    CelMeaning.ContainsIsOccurrence(id, "__");
  }

  /** A field of a dictionary, or None where there is no such field or no dictionary. */
  lemma {:induction false} FieldsAreFollowed(lib: Library, base: Expr, attr: string, ctx: Context, params: Context,
                                             depth: nat, v: Value)
    requires base.Attr? || (base.Name? && !IsLiteral(base.id) && !IsIllegal(base.id))
    requires Walk(lib, base, ctx, params, depth) == Ok(v)
    ensures
      var r := Walk(lib, Attr(base, attr), ctx, params, depth);
      && (IsIllegal(attr) ==> r == Err(PolicyError("illegal attribute")))
      && (!IsIllegal(attr) ==> r == Ok(if v.Dict? && StrKey(attr) in v.m then v.m[StrKey(attr)] else Null))
  {
    CelMeaning.ContainsIsOccurrence(attr, "__");
    if base.Name? {
      CelMeaning.ContainsIsOccurrence(base.id, "__");
    }
    assert Dotted(base, ctx, params) == Ok(v);
    var path := Path(base).value;
    if !Dunder(attr) {
      assert (path + [attr])[1..] == path[1..] + [attr];
      NavigateOne(if StrKey(path[0]) in ctx then ctx[StrKey(path[0])] else Get(params, path[0]), path[1..], attr);
    }
  }

  lemma {:induction false} NavigateOne(v: Value, path: seq<string>, attr: string)
    ensures
      var w := Navigate(v, path);
      Navigate(v, path + [attr]) == if w.Dict? then Get(w.m, attr) else Null
    decreases path
  {
    if path == [] {
      assert path + [attr] == [attr];
    } else {
      assert (path + [attr])[1..] == path[1..] + [attr];
      if v.Dict? {
        NavigateOne(Get(v.m, path[0]), path[1..], attr);
      }
    }
  }

  // ---------- logic ----------

  /** Every operand has its value. */
  predicate GiveAll(lib: Library, es: seq<Expr>, ctx: Context, params: Context, depth: nat, vs: seq<Value>) {
    |es| == |vs| && forall k :: 0 <= k < |es| ==> Walk(lib, es[k], ctx, params, depth) == Ok(vs[k])
  }

  /** `and` wants every operand true and `or` some one; either answers with a bool. */
  lemma {:induction false} AndOr(lib: Library, es: seq<Expr>, ctx: Context, params: Context, depth: nat,
                                 vs: seq<Value>)
    requires GiveAll(lib, es, ctx, params, depth, vs)
    ensures Walk(lib, BoolOp(true, es), ctx, params, depth) == Ok(Bool(forall k :: 0 <= k < |vs| ==> IsTrue(vs[k])))
    ensures Walk(lib, BoolOp(false, es), ctx, params, depth) == Ok(Bool(exists k :: 0 <= k < |vs| && IsTrue(vs[k])))
  {
    BoolOf(lib, true, es, ctx, params, depth, vs);
    BoolOf(lib, false, es, ctx, params, depth, vs);
  }

  lemma {:induction false} BoolOf(lib: Library, isAnd: bool, es: seq<Expr>, ctx: Context, params: Context, depth: nat,
                                  vs: seq<Value>)
    requires GiveAll(lib, es, ctx, params, depth, vs)
    ensures WalkBool(lib, isAnd, es, ctx, params, depth)
            == Ok(Bool(if isAnd then forall k :: 0 <= k < |vs| ==> IsTrue(vs[k])
                       else exists k :: 0 <= k < |vs| && IsTrue(vs[k])))
    decreases |es|
  {
    if es != [] {
      TruthOf(vs[0]);
      BoolOf(lib, isAnd, es[1..], ctx, params, depth, vs[1..]);
      assert forall k :: 1 <= k < |vs| ==> vs[k] == vs[1..][k - 1];
    }
  }

  /** Operands are taken in order up to the first that settles the matter or faults; later ones are not evaluated. */
  lemma {:induction false} FirstOperandDecides(lib: Library, isAnd: bool, es: seq<Expr>, ctx: Context,
                                               params: Context, depth: nat, vs: seq<Value>, k: nat)
    requires k < |es| && |vs| == k && GiveAll(lib, es[..k], ctx, params, depth, vs)
    requires forall j :: 0 <= j < k ==> IsTrue(vs[j]) == isAnd
    ensures
      var here, r := Walk(lib, es[k], ctx, params, depth), Walk(lib, BoolOp(isAnd, es), ctx, params, depth);
      && (here.Err? ==> r == here)
      && (here.Ok? && IsTrue(here.value) != isAnd ==> r == Ok(Bool(!isAnd)))
  {
    BoolStops(lib, isAnd, es, ctx, params, depth, vs, k);
  }

  lemma {:induction false} BoolStops(lib: Library, isAnd: bool, es: seq<Expr>, ctx: Context, params: Context,
                                     depth: nat, vs: seq<Value>, k: nat)
    requires k < |es| && |vs| == k && GiveAll(lib, es[..k], ctx, params, depth, vs)
    requires forall j :: 0 <= j < k ==> IsTrue(vs[j]) == isAnd
    ensures
      var here, r := Walk(lib, es[k], ctx, params, depth), WalkBool(lib, isAnd, es, ctx, params, depth);
      && (here.Err? ==> r == here)
      && (here.Ok? && IsTrue(here.value) != isAnd ==> r == Ok(Bool(!isAnd)))
    decreases k
  {
    if k == 0 {
      var here := Walk(lib, es[0], ctx, params, depth);
      if here.Ok? { TruthOf(here.value); }
    } else {
      assert es[..k][0] == es[0];
      TruthOf(vs[0]);
      assert es[1..][..k - 1] == es[..k][1..];
      BoolStops(lib, isAnd, es[1..], ctx, params, depth, vs[1..], k - 1);
    }
  }

  lemma {:induction false} NotAndMinus(lib: Library, e: Expr, ctx: Context, params: Context, depth: nat, v: Value)
    requires Walk(lib, e, ctx, params, depth) == Ok(v)
    ensures Walk(lib, Unary(Not, e), ctx, params, depth) == Ok(Bool(!IsTrue(v)))
    ensures v.Int? ==> Walk(lib, Unary(USub, e), ctx, params, depth) == Ok(Int(-v.n))
    ensures v.Int? ==> Walk(lib, Unary(UAdd, e), ctx, params, depth) == Ok(v)
  {
    TruthOf(v);
  }

  // ---------- comparisons ----------

  /** The comparison of the two values is true. */
  ghost predicate Stands(lib: Library, op: CmpOp, v: Value, w: Value) {
    Walk(lib, Compare(Const(v), [Link(op, Const(w))]), map[], map[], 0) == Ok(Bool(true))
  }

  lemma {:induction false} StandsIfHolds(lib: Library, op: CmpOp, v: Value, w: Value)
    requires op != Is && op != IsNot
    ensures Holds(op, v, w) == Ok(Stands(lib, op, v, w))
  {
    OneLink(lib, v, Link(op, Const(w)), map[], map[], 0, w);
    assert Walk(lib, Const(v), map[], map[], 0) == Ok(v);
  }

  lemma {:induction false} OneLink(lib: Library, v: Value, link: Link, ctx: Context, params: Context, depth: nat,
                                   w: Value)
    requires link.op != Is && link.op != IsNot && Walk(lib, link.right, ctx, params, depth) == Ok(w)
    ensures Holds(link.op, v, w).Ok?
    ensures WalkLinks(lib, v, [link], ctx, params, depth) == Ok(Bool(Holds(link.op, v, w).value))
  {
    HoldsAnswers(link.op, v, w);
    assert [link][1..] == [];
    assert WalkLinks(lib, w, [], ctx, params, depth) == Ok(Bool(true));
  }

  lemma {:induction false} HoldsAnswers(op: CmpOp, v: Value, w: Value)
    requires op != Is && op != IsNot
    ensures Holds(op, v, w).Ok?
  {
    match op
    case In =>
    case NotIn =>
    case _ =>
  }

  /** A chain holds if every link holds between its neighbours, whatever the operands are that have these values. */
  lemma {:induction false} ChainsAreConjunctions(lib: Library, first: Expr, links: seq<Link>, ctx: Context,
                                                 params: Context, depth: nat, vs: seq<Value>)
    requires |vs| == |links| + 1 && Walk(lib, first, ctx, params, depth) == Ok(vs[0])
    requires forall k :: 0 <= k < |links| ==> links[k].op != Is && links[k].op != IsNot
                                              && Walk(lib, links[k].right, ctx, params, depth) == Ok(vs[k + 1])
    ensures Walk(lib, Compare(first, links), ctx, params, depth)
            == Ok(Bool(forall k :: 0 <= k < |links| ==> Stands(lib, links[k].op, vs[k], vs[k + 1])))
  {
    ComparedFrom(lib, first, links, ctx, params, depth, vs[0]);
    LinksOf(lib, links, ctx, params, depth, vs);
  }

  lemma {:induction false} LinksOf(lib: Library, links: seq<Link>, ctx: Context, params: Context, depth: nat,
                                   vs: seq<Value>)
    requires |vs| == |links| + 1
    requires forall k :: 0 <= k < |links| ==> links[k].op != Is && links[k].op != IsNot
                                              && Walk(lib, links[k].right, ctx, params, depth) == Ok(vs[k + 1])
    ensures WalkLinks(lib, vs[0], links, ctx, params, depth)
            == Ok(Bool(forall k :: 0 <= k < |links| ==> Stands(lib, links[k].op, vs[k], vs[k + 1])))
    decreases |links|
  {
    if links != [] {
      StandsIfHolds(lib, links[0].op, vs[0], vs[1]);
      assert WalkRight(lib, links[0], ctx, params, depth) == Ok(vs[1]);
      LinksOf(lib, links[1..], ctx, params, depth, vs[1..]);
      LaterLinks(lib, links, vs);
    }
  }

  lemma {:induction false} LaterLinks(lib: Library, links: seq<Link>, vs: seq<Value>)
    requires |vs| == |links| + 1 && links != []
    ensures
      var rest, ws := links[1..], vs[1..];
      (forall k :: 0 <= k < |links| ==> Stands(lib, links[k].op, vs[k], vs[k + 1]))
      <==> Stands(lib, links[0].op, vs[0], vs[1])
           && forall k :: 0 <= k < |rest| ==> Stands(lib, rest[k].op, ws[k], ws[k + 1])
  {
    var rest, ws := links[1..], vs[1..];
    if forall k :: 0 <= k < |rest| ==> Stands(lib, rest[k].op, ws[k], ws[k + 1]) {
      forall k | 1 <= k < |links|
        ensures Stands(lib, links[k].op, vs[k], vs[k + 1])
      {
        assert Stands(lib, rest[k - 1].op, ws[k - 1], ws[k]);
      }
    }
    if forall k :: 0 <= k < |links| ==> Stands(lib, links[k].op, vs[k], vs[k + 1]) {
      forall k | 0 <= k < |rest|
        ensures Stands(lib, rest[k].op, ws[k], ws[k + 1])
      {
        assert Stands(lib, links[k + 1].op, vs[k + 1], vs[k + 2]);
      }
    }
  }

  /** A first link that does not hold settles a chain, whatever follows; one with `is` is refused. */
  lemma {:induction false} ChainStops(lib: Library, first: Expr, links: seq<Link>, ctx: Context, params: Context,
                                      depth: nat, v: Value, w: Value)
    requires links != [] && Walk(lib, first, ctx, params, depth) == Ok(v)
    requires Walk(lib, links[0].right, ctx, params, depth) == Ok(w)
    ensures
      var op, r := links[0].op, Walk(lib, Compare(first, links), ctx, params, depth);
      && (op == Is || op == IsNot ==> r == Err(PolicyError("unsupported comparison operator")))
      && (op != Is && op != IsNot && !Stands(lib, op, v, w) ==> r == Ok(Bool(false)))
  {
    FirstLink(lib, links, ctx, params, depth, v, w);
    ComparedFrom(lib, first, links, ctx, params, depth, v);
    if links[0].op != Is && links[0].op != IsNot {
      StandsIfHolds(lib, links[0].op, v, w);
    }
  }

  lemma {:induction false} ComparedFrom(lib: Library, first: Expr, links: seq<Link>, ctx: Context, params: Context,
                                        depth: nat, v: Value)
    requires Walk(lib, first, ctx, params, depth) == Ok(v)
    ensures Walk(lib, Compare(first, links), ctx, params, depth) == WalkLinks(lib, v, links, ctx, params, depth)
  {
  }

  lemma {:induction false} FirstLink(lib: Library, links: seq<Link>, ctx: Context, params: Context, depth: nat,
                                     v: Value, w: Value)
    requires links != [] && Walk(lib, links[0].right, ctx, params, depth) == Ok(w)
    ensures
      var op, r := links[0].op, WalkLinks(lib, v, links, ctx, params, depth);
      && (op == Is || op == IsNot ==> r == Err(PolicyError("unsupported comparison operator")))
      && (op != Is && op != IsNot && Holds(op, v, w) == Ok(false) ==> r == Ok(Bool(false)))
  {
    assert WalkRight(lib, links[0], ctx, params, depth) == Ok(w);
  }

  lemma {:induction false} IntegersCompare(lib: Library, a: int, b: int)
    ensures Stands(lib, Lt, Int(a), Int(b)) <==> a < b
    ensures Stands(lib, LtE, Int(a), Int(b)) <==> a <= b
    ensures Stands(lib, Gt, Int(a), Int(b)) <==> a > b
    ensures Stands(lib, GtE, Int(a), Int(b)) <==> a >= b
  {
    StandsIfHolds(lib, Lt, Int(a), Int(b));
    StandsIfHolds(lib, LtE, Int(a), Int(b));
    StandsIfHolds(lib, Gt, Int(a), Int(b));
    StandsIfHolds(lib, GtE, Int(a), Int(b));
  }

  /** Strings are ordered by the first character in which they differ. */
  lemma {:induction false} StringsCompare(lib: Library, a: string, b: string)
    ensures Stands(lib, Lt, Str(a), Str(b)) <==> CelMeaning.Precedes(a, b)
    ensures Stands(lib, LtE, Str(a), Str(b)) <==> !CelMeaning.Precedes(b, a)
    ensures Stands(lib, Gt, Str(a), Str(b)) <==> CelMeaning.Precedes(b, a)
    ensures Stands(lib, GtE, Str(a), Str(b)) <==> !CelMeaning.Precedes(a, b)
  {
    CelMeaning.OrderIsFirstDifference(a, b);
    CelMeaning.OrderIsFirstDifference(b, a);
    OrderFlips(a, b);
    StandsIfHolds(lib, Lt, Str(a), Str(b));
    StandsIfHolds(lib, LtE, Str(a), Str(b));
    StandsIfHolds(lib, Gt, Str(a), Str(b));
    StandsIfHolds(lib, GtE, Str(a), Str(b));
  }

  /** None satisfies no ordering on either side, and neither does a pair that has no order. */
  lemma {:induction false} NoOrder(lib: Library, op: CmpOp, v: Value, w: Value)
    requires op == Lt || op == LtE || op == Gt || op == GtE
    ensures v.Null? || w.Null? ==> !Stands(lib, op, v, w)
    ensures v.Dict? || w.Dict? || v.Str? != w.Str? || v.List? != w.List? ==> !Stands(lib, op, v, w)
  {
    StandsIfHolds(lib, op, v, w);
  }

  /** `==` and `!=` are equality of values and its negation. */
  lemma {:induction false} EqualityIsSame(lib: Library, v: Value, w: Value)
    ensures Stands(lib, Eq, v, w) <==> CelMeaning.Same(v, w)
    ensures Stands(lib, NotEq, v, w) <==> !CelMeaning.Same(v, w)
  {
    CelMeaning.SameIsPyEq(v, w);
    StandsIfHolds(lib, Eq, v, w);
    StandsIfHolds(lib, NotEq, v, w);
  }

  /** What `in` can look into: a list, a string for a string, a map for what can be a key. */
  predicate CanHold(w: Value, v: Value) {
    w.List? || (w.Str? && v.Str?) || (w.Dict? && !v.List? && !v.Dict?)
  }

  /** `in` looks for an equal item, a substring or a key; where it cannot look, neither it nor `not in` holds. */
  lemma {:induction false} Membership(lib: Library, v: Value, w: Value)
    ensures w.List? ==> (Stands(lib, In, v, w) <==> exists k :: 0 <= k < |w.items| && CelMeaning.Same(v, w.items[k]))
    ensures w.Str? && v.Str? ==> (Stands(lib, In, v, w) <==> exists i: nat :: CelMeaning.OccursAt(w.s, v.s, i))
    ensures w.Dict? && CanHold(w, v) ==> (Stands(lib, In, v, w) <==> exists k :: CelMeaning.IsKeyOf(k, v) && k in w.m)
    ensures CanHold(w, v) ==> (Stands(lib, NotIn, v, w) <==> !Stands(lib, In, v, w))
    ensures !CanHold(w, v) ==> !Stands(lib, In, v, w) && !Stands(lib, NotIn, v, w)
  {
    StandsIfHolds(lib, In, v, w);
    StandsIfHolds(lib, NotIn, v, w);
    match w
    case List(items) => CelMeaning.MemberIsSame(v, items);
    case Str(s) => if v.Str? { CelMeaning.ContainsIsOccurrence(s, v.s); }
    case Dict(m) => assert ToKey(v).Some? ==> CelMeaning.IsKeyOf(ToKey(v).value, v);
    case _ =>
  }

  // ---------- quantifiers ----------

  function Truths(vs: seq<Value>): (bs: seq<bool>)
    ensures |bs| == |vs| && forall k :: 0 <= k < |vs| ==> bs[k] == IsTrue(vs[k])
  {
    if vs == [] then [] else [IsTrue(vs[0])] + Truths(vs[1..])
  }

  /** How many of the values are true. */
  function CountTrue(vs: seq<Value>): nat {
    CelMeaning.CountTrue(Truths(vs))
  }

  /** The test of the kth item answers with the truth of the kth value. */
  predicate TestsGive(test: PolicyExpr.Test, items: seq<Value>, vs: seq<Value>) {
    |items| == |vs| && forall k :: 0 <= k < |items| ==> test(items[k]) == Ok(IsTrue(vs[k]))
  }

  predicate EveryTrue(vs: seq<Value>) {
    forall k :: 0 <= k < |vs| ==> IsTrue(vs[k])
  }

  predicate SomeTrue(vs: seq<Value>) {
    exists k :: 0 <= k < |vs| && IsTrue(vs[k])
  }

  lemma {:induction false} OneMore(vs: seq<Value>)
    requires vs != []
    ensures EveryTrue(vs) <==> IsTrue(vs[0]) && EveryTrue(vs[1..])
    ensures SomeTrue(vs) <==> IsTrue(vs[0]) || SomeTrue(vs[1..])
    ensures CountTrue(vs) == (if IsTrue(vs[0]) then 1 else 0) + CountTrue(vs[1..])
  {
    assert forall k :: 1 <= k < |vs| ==> vs[k] == vs[1..][k - 1];
    assert Truths(vs)[1..] == Truths(vs[1..]);
    if SomeTrue(vs[1..]) {
      var k :| 0 <= k < |vs| - 1 && IsTrue(vs[1..][k]);
      assert IsTrue(vs[k + 1]);
    }
  }

  lemma {:induction false} QuantifyOn(test: PolicyExpr.Test, items: seq<Value>, vs: seq<Value>)
    requires TestsGive(test, items, vs)
    ensures AllItems(test, items) == Ok(EveryTrue(vs)) && AnyItem(test, items) == Ok(SomeTrue(vs))
    ensures CountItems(test, items) == Ok(CountTrue(vs))
    decreases |items|
  {
    if items != [] {
      assert test(items[0]) == Ok(IsTrue(vs[0]));
      QuantifyOn(test, items[1..], vs[1..]);
      OneMore(vs);
    }
  }

  /** What a quantifier answers where the tests of the items have these values. */
  predicate Answers(r: Outcome, f: string, vs: seq<Value>) {
    && (f == "all" ==> r == Ok(Bool(EveryTrue(vs))))
    && (f == "any" ==> r == Ok(Bool(SomeTrue(vs))))
    && (f == "count" ==> r == Ok(Int(CountTrue(vs))))
  }

  predicate IsQuantifier(f: string) {
    f == "all" || f == "any" || f == "count"
  }

  lemma {:induction false} QuantifierCall(lib: Library, f: string, args: seq<Expr>, ctx: Context, params: Context,
                                          depth: nat)
    requires IsQuantifier(f)
    ensures Walk(lib, Call(Name(f), args, []), ctx, params, depth) == WalkQuantifier(lib, f, args, ctx, params, depth)
  {
    assert f in QUANTIFIERS && f in FUNCTIONS;
  }

  /** No second argument, or one that is no text: the items themselves are tested. */
  predicate TestsItems(lib: Library, args: seq<Expr>, ctx: Context, params: Context, depth: nat) {
    |args| >= 1 && (|args| >= 2 ==> var p := Walk(lib, args[1], ctx, params, depth); p.Ok? && !p.value.Str?)
  }

  /** `all` is "for every item", `any` "for some item" and `count` the number of the items that are true. */
  lemma {:induction false} QuantifierOnItems(lib: Library, f: string, args: seq<Expr>, ctx: Context, params: Context,
                                             depth: nat, items: seq<Value>)
    requires IsQuantifier(f) && TestsItems(lib, args, ctx, params, depth)
    requires Walk(lib, args[0], ctx, params, depth) == Ok(List(items))
    ensures Answers(Walk(lib, Call(Name(f), args, []), ctx, params, depth), f, items)
  {
    QuantifierCall(lib, f, args, ctx, params, depth);
    forall k | 0 <= k < |items|
      ensures TruthTest()(items[k]) == Ok(IsTrue(items[k]))
    {
      TruthOf(items[k]);
    }
    QuantifyOn(TruthTest(), items, items);
  }

  /** Spelled out: `all(mfa)` on a list is true exactly if every item is, and `any(mfa)` if some item is. */
  lemma {:induction false} AllMeansAll(lib: Library, id: string, ctx: Context, params: Context, depth: nat,
                                       items: seq<Value>)
    requires Walk(lib, Name(id), ctx, params, depth) == Ok(List(items))
    ensures Walk(lib, Call(Name("all"), [Name(id)], []), ctx, params, depth)
            == Ok(Bool(forall k :: 0 <= k < |items| ==> IsTrue(items[k])))
    ensures Walk(lib, Call(Name("any"), [Name(id)], []), ctx, params, depth)
            == Ok(Bool(exists k :: 0 <= k < |items| && IsTrue(items[k])))
  {
    QuantifierOnItems(lib, "all", [Name(id)], ctx, params, depth, items);
    QuantifierOnItems(lib, "any", [Name(id)], ctx, params, depth, items);
  }

  /** The context a predicate text is evaluated in: the item's own fields, or the item under the name `value`. */
  function FieldsOf(item: Value): Context {
    match item
    case Dict(m) => m
    case _ => map[StrKey("value") := item]
  }

  /** The second argument is the text `p`, and there is stack left to evaluate it. */
  predicate TestsText(lib: Library, args: seq<Expr>, ctx: Context, params: Context, depth: nat, p: string) {
    depth > 0 && |args| >= 2 && Walk(lib, args[1], ctx, params, depth) == Ok(Str(p))
  }

  /** With a predicate text the value of the text for each item is tested instead. */
  lemma {:induction false} QuantifierOnText(lib: Library, f: string, args: seq<Expr>, ctx: Context, params: Context,
                                            depth: nat, items: seq<Value>, p: string, vs: seq<Value>)
    requires IsQuantifier(f) && TestsText(lib, args, ctx, params, depth, p)
    requires Walk(lib, args[0], ctx, params, depth) == Ok(List(items)) && |vs| == |items|
    requires forall k :: 0 <= k < |items| ==> EvalText(lib, p, FieldsOf(items[k]), params, depth - 1) == Ok(vs[k])
    ensures Answers(Walk(lib, Call(Name(f), args, []), ctx, params, depth), f, vs)
  {
    QuantifierCall(lib, f, args, ctx, params, depth);
    var test := PredicateTest(lib, p, params, depth - 1);
    forall k | 0 <= k < |items|
      ensures test(items[k]) == Ok(IsTrue(vs[k]))
    {
      assert ItemContext(items[k]) == FieldsOf(items[k]);
      TruthOf(vs[k]);
    }
    QuantifyOn(test, items, vs);
  }

  /**
  Items are tested in order. `all` stops at the first untrue one, `any` at the first true one, `count`
  at none; the first fault met on the way is the answer, whatever the later items are.
  */
  lemma {:induction false} FirstItemDecides(lib: Library, f: string, args: seq<Expr>, ctx: Context, params: Context,
                                            depth: nat, items: seq<Value>, p: string, vs: seq<Value>, k: nat)
    requires IsQuantifier(f) && TestsText(lib, args, ctx, params, depth, p)
    requires Walk(lib, args[0], ctx, params, depth) == Ok(List(items)) && |vs| == k < |items|
    requires forall j :: 0 <= j < k ==> EvalText(lib, p, FieldsOf(items[j]), params, depth - 1) == Ok(vs[j])
    requires (f == "all" ==> EveryTrue(vs)) && (f == "any" ==> !SomeTrue(vs))
    ensures
      var here, r := EvalText(lib, p, FieldsOf(items[k]), params, depth - 1),
                     Walk(lib, Call(Name(f), args, []), ctx, params, depth);
      && (here.Err? ==> r == Err(here.error))
      && (f == "all" && here.Ok? && !IsTrue(here.value) ==> r == Ok(Bool(false)))
      && (f == "any" && here.Ok? && IsTrue(here.value) ==> r == Ok(Bool(true)))
  {
    QuantifierCall(lib, f, args, ctx, params, depth);
    var test := PredicateTest(lib, p, params, depth - 1);
    forall j | 0 <= j < k
      ensures test(items[..k][j]) == Ok(IsTrue(vs[j]))
    {
      TruthOf(vs[j]);
    }
    var here := EvalText(lib, p, FieldsOf(items[k]), params, depth - 1);
    if here.Ok? {
      TruthOf(here.value);
    }
    assert test(items[k]) == if here.Ok? then Ok(IsTrue(here.value)) else Err(here.error);
    StopsAt(test, items, vs, k);
  }

  lemma {:induction false} StopsAt(test: PolicyExpr.Test, items: seq<Value>, vs: seq<Value>, k: nat)
    requires |vs| == k < |items| && TestsGive(test, items[..k], vs)
    ensures
      var here := test(items[k]);
      && (EveryTrue(vs) && here.Err? ==> AllItems(test, items) == here)
      && (EveryTrue(vs) && here == Ok(false) ==> AllItems(test, items) == Ok(false))
      && (!SomeTrue(vs) && here.Err? ==> AnyItem(test, items) == here)
      && (!SomeTrue(vs) && here == Ok(true) ==> AnyItem(test, items) == Ok(true))
      && (here.Err? ==> CountItems(test, items) == Err(here.error))
    decreases k
  {
    if k > 0 {
      assert test(items[..k][0]) == Ok(IsTrue(vs[0]));
      assert items[..k][1..] == items[1..][..k - 1];
      StopsAt(test, items[1..], vs[1..], k - 1);
      OneMore(vs);
    }
  }

  /** What is no list has no items, and a quantifier of nothing at all is untrue or 0. */
  lemma {:induction false} QuantifierOfNothing(lib: Library, f: string, args: seq<Expr>, ctx: Context,
                                               params: Context, depth: nat, v: Value)
    requires IsQuantifier(f)
    ensures Walk(lib, Call(Name(f), [], []), ctx, params, depth) == Ok(if f == "count" then Int(0) else Bool(false))
    ensures |args| == 1 && Walk(lib, args[0], ctx, params, depth) == Ok(v) && !v.List?
            ==> Answers(Walk(lib, Call(Name(f), args, []), ctx, params, depth), f, [])
  {
    QuantifierCall(lib, f, [], ctx, params, depth);
    QuantifierCall(lib, f, args, ctx, params, depth);
    assert Truths([]) == [];
  }

  /** Where the stack is used up, a predicate text faults on the first item. */
  lemma {:induction false} NoStackLeft(lib: Library, f: string, args: seq<Expr>, ctx: Context, params: Context,
                                       items: seq<Value>, p: string)
    requires IsQuantifier(f) && |args| >= 2 && Walk(lib, args[1], ctx, params, 0) == Ok(Str(p)) && items != []
    requires Walk(lib, args[0], ctx, params, 0) == Ok(List(items))
    ensures Walk(lib, Call(Name(f), args, []), ctx, params, 0) == Err(Recursion)
  {
    QuantifierCall(lib, f, args, ctx, params, 0);
  }

  // ---------- calls, arithmetic and what is refused ----------

  /** A registry function's TypeError or ValueError is None, arithmetic's TypeError or division by zero is 0. */
  lemma {:induction false} FaultsThatAreForgiven(lib: Library, f: string, args: seq<Expr>, vs: seq<Value>, op: ArithOp,
                                                 ctx: Context, params: Context, depth: nat)
    requires f in {"len", "abs", "round", "min", "max", "sum", "lower", "upper", "startswith", "endswith", "contains",
                   "matches"}
    requires GiveAll(lib, args, ctx, params, depth, vs) && !op.OtherArith?
    ensures
      var own, r := lib.apply(f, vs), Walk(lib, Call(Name(f), args, []), ctx, params, depth);
      r == if own == Err(TypeError) || own == Err(ValueError) then Ok(Null) else own
    ensures |args| == 2 ==>
      var own, r := lib.arith(op, vs[0], vs[1]), Walk(lib, BinOp(op, args[0], args[1]), ctx, params, depth);
      r == if own == Err(TypeError) || own == Err(ZeroDivision) then Ok(Int(0)) else own
  {
    AllGive(lib, args, ctx, params, depth, vs);
  }

  lemma {:induction false} AllGive(lib: Library, es: seq<Expr>, ctx: Context, params: Context, depth: nat,
                                   vs: seq<Value>)
    requires GiveAll(lib, es, ctx, params, depth, vs)
    ensures WalkAll(lib, es, ctx, params, depth) == Ok(vs)
    decreases |es|
  {
    if es != [] {
      AllGive(lib, es[1..], ctx, params, depth, vs[1..]);
      assert vs == [vs[0]] + vs[1..];
    }
  }

  /** Only the named functions can be called, by name and without keywords. */
  lemma {:induction false} CallsThatAreRefused(lib: Library, func: Expr, args: seq<Expr>, keywords: seq<Expr>,
                                               ctx: Context, params: Context, depth: nat)
    requires !func.Name? || keywords != [] || func.id !in
               {"len", "abs", "round", "min", "max", "sum", "lower", "upper", "startswith", "endswith", "contains",
                "matches", "all", "any", "count"}
    ensures Walk(lib, Call(func, args, keywords), ctx, params, depth).Err?
  {
    if func.Name? && func.id in FUNCTIONS {
      KnownFunction(func.id);
    }
  }

  lemma {:induction false} KnownFunction(f: string)
    requires f in FUNCTIONS
    ensures f in {"len", "abs", "round", "min", "max", "sum", "lower", "upper", "startswith", "endswith", "contains",
                  "matches", "all", "any", "count"}
  {
  }

  /** A list is its items; constructs without a meaning, and the bitwise complement, are refused. */
  lemma {:induction false} ListsAndRefusals(lib: Library, es: seq<Expr>, e: Expr, ctx: Context, params: Context,
                                            depth: nat, vs: seq<Value>)
    requires GiveAll(lib, es, ctx, params, depth, vs)
    ensures Walk(lib, ListOf(es), ctx, params, depth) == Ok(List(vs))
    ensures Walk(lib, Other(es), ctx, params, depth).Err? && Walk(lib, Unary(Invert, e), ctx, params, depth).Err?
  {
    AllGive(lib, es, ctx, params, depth, vs);
  }
}
