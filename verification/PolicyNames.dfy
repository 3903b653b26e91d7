/**
The free-name analysis (app/policy_as_code/evaluator.py, `free_names`) and what it guarantees:
which entries of the evidence a verdict can depend on.
*/
module PolicyNames {
  import opened Common
  import opened PyValue
  import opened PolicyExpr

  // ---------- the analysis ----------

  /** What a syntax tree mentions: the names in it, and the names it calls. */
  datatype Mentions = Mentions(names: set<string>, called: set<string>)

  const NOTHING := Mentions({}, {})

  function Join(a: Mentions, b: Mentions): Mentions {
    Mentions(a.names + b.names, a.called + b.called)
  }

  /** The name at the base of a dotted path, if it is one. */
  function BaseName(e: Expr): Option<string> {
    match e
    case Name(id) => Some(id)
    case Attr(base, _) => BaseName(base)
    case _ => None
  }

  /** What a node itself contributes. */
  function Own(e: Expr): Mentions {
    match e
    case Name(id) => Mentions({id}, {})
    case Attr(_, _) => if BaseName(e).Some? then Mentions({BaseName(e).value}, {}) else NOTHING
    case Call(func, _, _) => if func.Name? then Mentions({}, {func.id}) else NOTHING
    case _ => NOTHING
  }

  function Rights(links: seq<Link>): seq<Expr> {
    if links == [] then [] else [links[0].right] + Rights(links[1..])
  }

  function Children(e: Expr): seq<Expr> {
    match e
    case Const(_) => []
    case Name(_) => []
    case ListOf(items) => items
    case Attr(base, _) => [base]
    case BoolOp(_, operands) => operands
    case Unary(_, operand) => [operand]
    case BinOp(_, l, r) => [l, r]
    case Compare(first, links) => [first] + Rights(links)
    case Call(func, args, keywords) => [func] + args + keywords
    case Other(children) => children
  }

  function MentionsOf(e: Expr): Mentions
    decreases e, 1
  {
    Join(Own(e),
         match e
         case Const(_) => NOTHING
         case Name(_) => NOTHING
         case ListOf(items) => MentionsAll(items)
         case Attr(base, _) => MentionsOf(base)
         case BoolOp(_, operands) => MentionsAll(operands)
         case Unary(_, operand) => MentionsOf(operand)
         case BinOp(_, l, r) => Join(MentionsOf(l), MentionsOf(r))
         case Compare(first, links) => Join(MentionsOf(first), MentionsLinks(links))
         case Call(func, args, keywords) => Join(MentionsOf(func), Join(MentionsAll(args), MentionsAll(keywords)))
         case Other(children) => MentionsAll(children))
  }

  function MentionsAll(es: seq<Expr>): Mentions
    decreases es, 0
  {
    if es == [] then NOTHING else Join(MentionsOf(es[0]), MentionsAll(es[1..]))
  }

  function MentionsLinks(links: seq<Link>): Mentions
    decreases links, 0
  {
    if links == [] then NOTHING else Join(MentionsRight(links[0]), MentionsLinks(links[1..]))
  }

  function MentionsRight(link: Link): Mentions
    decreases link, 0
  {
    MentionsOf(link.right)
  }

  function FreeNames(e: Expr): set<string> {
    MentionsOf(e).names - LITERALS - MentionsOf(e).called
  }

  // ---------- the worklist ----------

  function Size(e: Expr): nat
    decreases e, 1
  {
    1 + match e
        case Const(_) => 0
        case Name(_) => 0
        case ListOf(items) => SizeAll(items)
        case Attr(base, _) => Size(base)
        case BoolOp(_, operands) => SizeAll(operands)
        case Unary(_, operand) => Size(operand)
        case BinOp(_, l, r) => Size(l) + Size(r)
        case Compare(first, links) => Size(first) + SizeLinks(links)
        case Call(func, args, keywords) => Size(func) + SizeAll(args) + SizeAll(keywords)
        case Other(children) => SizeAll(children)
  }

  function SizeAll(es: seq<Expr>): nat
    decreases es, 0
  {
    if es == [] then 0 else Size(es[0]) + SizeAll(es[1..])
  }

  function SizeLinks(links: seq<Link>): nat
    decreases links, 0
  {
    if links == [] then 0 else SizeRight(links[0]) + SizeLinks(links[1..])
  }

  function SizeRight(link: Link): nat
    decreases link, 0
  {
    Size(link.right)
  }

  lemma {:induction false} AllAppend(a: seq<Expr>, b: seq<Expr>)
    ensures MentionsAll(a + b) == Join(MentionsAll(a), MentionsAll(b))
    ensures SizeAll(a + b) == SizeAll(a) + SizeAll(b)
  {
    if a == [] {
      assert a + b == b;
    } else {
      assert (a + b)[1..] == a[1..] + b;
      AllAppend(a[1..], b);
    }
  }

  lemma {:induction false} OfOne(e: Expr)
    ensures MentionsAll([e]) == MentionsOf(e) && SizeAll([e]) == Size(e)
  {
  }

  lemma {:induction false} OfRights(links: seq<Link>)
    ensures MentionsAll(Rights(links)) == MentionsLinks(links)
    ensures SizeAll(Rights(links)) == SizeLinks(links)
  {
    if links != [] {
      OfRights(links[1..]);
      assert Rights(links)[1..] == Rights(links[1..]);
    }
  }

  /** A tree's mentions are its root's and those of its children. */
  lemma {:induction false} OfChildren(e: Expr)
    ensures MentionsOf(e) == Join(Own(e), MentionsAll(Children(e)))
    ensures Size(e) == 1 + SizeAll(Children(e))
  {
    match e
    case Attr(base, _) => OfOne(base);
    case Unary(_, operand) => OfOne(operand);
    case BinOp(_, l, r) => OfTwo(l, r);
    case Compare(first, links) =>
      OfOne(first);
      OfRights(links);
      AllAppend([first], Rights(links));
    case Call(func, args, keywords) => OfCall(func, args, keywords);
    case _ =>
  }

  lemma {:induction false} OfTwo(l: Expr, r: Expr)
    ensures MentionsAll([l, r]) == Join(MentionsOf(l), MentionsOf(r)) && SizeAll([l, r]) == Size(l) + Size(r)
  {
    OfOne(l);
    OfOne(r);
    AllAppend([l], [r]);
    assert [l] + [r] == [l, r];
  }

  lemma {:induction false} OfCall(func: Expr, args: seq<Expr>, keywords: seq<Expr>)
    ensures MentionsAll([func] + args + keywords)
        == Join(MentionsOf(func), Join(MentionsAll(args), MentionsAll(keywords)))
    ensures SizeAll([func] + args + keywords) == Size(func) + SizeAll(args) + SizeAll(keywords)
  {
    OfOne(func);
    AllAppend([func], args);
    AllAppend([func] + args, keywords);
  }

  method FindBase(e: Expr) returns (base: Option<string>)
    ensures base == BaseName(e)
  {
    var cur := e;
    while cur.Attr?
      invariant BaseName(cur) == BaseName(e)
      decreases cur
    {
      cur := cur.base;
    }
    return if cur.Name? then Some(cur.id) else None;
  }

  lemma {:induction false} NextNode(todo: seq<Expr>)
    requires todo != []
    ensures MentionsAll(todo) == Join(Own(todo[0]), MentionsAll(todo[1..] + Children(todo[0])))
    ensures SizeAll(todo) == 1 + SizeAll(todo[1..] + Children(todo[0]))
  {
    OfChildren(todo[0]);
    AllAppend(todo[1..], Children(todo[0]));
  }

  /** What one node of the walk contributes. */
  method Contribution(node: Expr) returns (own: Mentions)
    ensures own == Own(node)
  {
    own := NOTHING;
    if node.Call? && node.func.Name? {
      own := Mentions({}, {node.func.id});
    }
    if node.Attr? {
      var base := FindBase(node);
      if base.Some? {
        own := Mentions({base.value}, {});
      }
    } else if node.Name? {
      own := Mentions({node.id}, {});
    }
  }

  /** `free_names` on a parsed expression: one pass over a queue of nodes. */
  method CollectFreeNames(e: Expr) returns (free: set<string>)
    ensures free == FreeNames(e)
  {
    var called: set<string> := {};
    var names: set<string> := {};
    var todo := [e];
    OfOne(e);
    while todo != []
      invariant MentionsOf(e) == Join(Mentions(names, called), MentionsAll(todo))
      decreases SizeAll(todo)
    {
      NextNode(todo);
      var own := Contribution(todo[0]);
      todo := todo[1..] + Children(todo[0]);
      names := names + own.names;
      called := called + own.called;
    }
    return names - LITERALS - called;
  }

  // ---------- what the evaluator reads ----------

  /** The entries of the context that evaluating the expression may look at. */
  function Reads(e: Expr): set<string>
    decreases e, 1
  {
    match e
    case Const(_) => {}
    case ListOf(items) => ReadsAll(items)
    case Name(id) => if id in LITERALS || Dunder(id) then {} else {id}
    case Attr(_, _) => if Path(e).Ok? then {Path(e).value[0]} else {}
    case BoolOp(_, operands) => ReadsAll(operands)
    case Unary(_, operand) => Reads(operand)
    case BinOp(_, l, r) => Reads(l) + Reads(r)
    case Compare(first, links) => Reads(first) + ReadsLinks(links)
    case Call(func, args, _) => if func.Name? then ReadsAll(args) else {}
    case Other(_) => {}
  }

  function ReadsAll(es: seq<Expr>): set<string>
    decreases es, 0
  {
    if es == [] then {} else Reads(es[0]) + ReadsAll(es[1..])
  }

  function ReadsLinks(links: seq<Link>): set<string>
    decreases links, 0
  {
    if links == [] then {} else ReadsRight(links[0]) + ReadsLinks(links[1..])
  }

  function ReadsRight(link: Link): set<string>
    decreases link, 0
  {
    Reads(link.right)
  }

  ghost predicate Agree(names: set<string>, one: Context, two: Context) {
    forall n :: n in names ==>
      (StrKey(n) in one <==> StrKey(n) in two) && (StrKey(n) in one ==> one[StrKey(n)] == two[StrKey(n)])
  }

  /** Contexts that agree on what an expression reads give it the same value or the same fault. */
  lemma {:induction false} Coincidence(lib: Library, e: Expr, one: Context, two: Context, params: Context,
    depth: nat, names: set<string>)
    requires Reads(e) <= names && Agree(names, one, two)
    ensures Walk(lib, e, one, params, depth) == Walk(lib, e, two, params, depth)
    decreases e, 1
  {
    match e
    case Const(_) =>
    case ListOf(items) => CoincidenceAll(lib, items, one, two, params, depth, names);
    case Name(_) =>
    case Attr(_, _) => if Path(e).Ok? { assert Path(e).value[0] in Reads(e); }
    case BoolOp(isAnd, operands) => CoincidenceBool(lib, isAnd, operands, one, two, params, depth, names);
    case Unary(_, operand) => Coincidence(lib, operand, one, two, params, depth, names);
    case BinOp(_, l, r) =>
      Coincidence(lib, l, one, two, params, depth, names);
      Coincidence(lib, r, one, two, params, depth, names);
    case Compare(first, links) =>
      Coincidence(lib, first, one, two, params, depth, names);
      var left := Walk(lib, first, one, params, depth);
      if left.Ok? { CoincidenceLinks(lib, left.value, links, one, two, params, depth, names); }
    case Call(func, args, _) =>
      if func.Name? {
        CoincidenceAll(lib, args, one, two, params, depth, names);
        CoincidenceQuantifier(lib, func.id, args, one, two, params, depth, names);
      }
    case Other(_) =>
  }

  lemma {:induction false} CoincidenceAll(lib: Library, es: seq<Expr>, one: Context, two: Context, params: Context,
    depth: nat, names: set<string>)
    requires ReadsAll(es) <= names && Agree(names, one, two)
    ensures WalkAll(lib, es, one, params, depth) == WalkAll(lib, es, two, params, depth)
    decreases es, 0
  {
    if es != [] {
      Coincidence(lib, es[0], one, two, params, depth, names);
      CoincidenceAll(lib, es[1..], one, two, params, depth, names);
    }
  }

  lemma {:induction false} CoincidenceBool(lib: Library, isAnd: bool,
      es: seq<Expr>, one: Context, two: Context, params: Context,
    depth: nat, names: set<string>)
    requires ReadsAll(es) <= names && Agree(names, one, two)
    ensures WalkBool(lib, isAnd, es, one, params, depth) == WalkBool(lib, isAnd, es, two, params, depth)
    decreases es, 0
  {
    if es != [] {
      Coincidence(lib, es[0], one, two, params, depth, names);
      CoincidenceBool(lib, isAnd, es[1..], one, two, params, depth, names);
    }
  }

  lemma {:induction false} CoincidenceLinks(lib: Library, left: Value, links: seq<Link>, one: Context, two: Context,
    params: Context, depth: nat, names: set<string>)
    requires ReadsLinks(links) <= names && Agree(names, one, two)
    ensures WalkLinks(lib, left, links, one, params, depth) == WalkLinks(lib, left, links, two, params, depth)
    decreases links, 0
  {
    if links != [] {
      CoincidenceRight(lib, links[0], one, two, params, depth, names);
      var right := WalkRight(lib, links[0], one, params, depth);
      if right.Ok? { CoincidenceLinks(lib, right.value, links[1..], one, two, params, depth, names); }
    }
  }

  lemma {:induction false} CoincidenceRight(lib: Library, link: Link, one: Context, two: Context, params: Context,
    depth: nat, names: set<string>)
    requires ReadsRight(link) <= names && Agree(names, one, two)
    ensures WalkRight(lib, link, one, params, depth) == WalkRight(lib, link, two, params, depth)
    decreases link, 0
  {
    Coincidence(lib, link.right, one, two, params, depth, names);
  }

  lemma {:induction false} CoincidenceQuantifier(lib: Library, name: string,
      args: seq<Expr>, one: Context, two: Context,
    params: Context, depth: nat, names: set<string>)
    requires ReadsAll(args) <= names && Agree(names, one, two)
    ensures WalkQuantifier(lib, name, args, one, params, depth) == WalkQuantifier(lib, name, args, two, params, depth)
    decreases args, 0
  {
    if args != [] {
      Coincidence(lib, args[0], one, two, params, depth, names);
      if |args| >= 2 {
        assert Reads(args[1]) <= ReadsAll(args[1..]);
        Coincidence(lib, args[1], one, two, params, depth, names);
      }
    }
  }

  // ---------- does the analysis cover what is read? ----------

  /** No field that is read is spelled like a function that is called, and no dotted path starts with a literal word. */
  predicate Clean(e: Expr, called: set<string>)
    decreases e, 1
  {
    match e
    case Const(_) => true
    case ListOf(items) => CleanAll(items, called)
    case Name(id) => id in LITERALS || Dunder(id) || id !in called
    case Attr(_, _) => Path(e).Ok? ==> Path(e).value[0] !in LITERALS && Path(e).value[0] !in called
    case BoolOp(_, operands) => CleanAll(operands, called)
    case Unary(_, operand) => Clean(operand, called)
    case BinOp(_, l, r) => Clean(l, called) && Clean(r, called)
    case Compare(first, links) => Clean(first, called) && CleanLinks(links, called)
    case Call(func, args, _) => func.Name? ==> CleanAll(args, called)
    case Other(_) => true
  }

  predicate CleanAll(es: seq<Expr>, called: set<string>)
    decreases es, 0
  {
    es != [] ==> Clean(es[0], called) && CleanAll(es[1..], called)
  }

  predicate CleanLinks(links: seq<Link>, called: set<string>)
    decreases links, 0
  {
    links != [] ==> CleanRight(links[0], called) && CleanLinks(links[1..], called)
  }

  predicate CleanRight(link: Link, called: set<string>)
    decreases link, 0
  {
    Clean(link.right, called)
  }

  predicate WellFormed(e: Expr) {
    Clean(e, MentionsOf(e).called)
  }

  /** A path that resolves starts at the base name. */
  lemma {:induction false} PathBase(e: Expr)
    requires Path(e).Ok?
    ensures BaseName(e) == Some(Path(e).value[0])
  {
    if e.Attr? { PathBase(e.base); }
  }

  /** Everything that is read is mentioned, and cleanliness is having no read dropped by the analysis. */
  lemma {:induction false} ReadsOf(e: Expr, called: set<string>)
    ensures Reads(e) <= MentionsOf(e).names
    ensures Clean(e, called) <==> Reads(e) !! LITERALS + called
    decreases e, 1
  {
    match e
    case Const(_) =>
    case ListOf(items) => ReadsOfAll(items, called);
    case Name(_) =>
    case Attr(_, _) => if Path(e).Ok? { PathBase(e); }
    case BoolOp(_, operands) => ReadsOfAll(operands, called);
    case Unary(_, operand) => ReadsOf(operand, called);
    case BinOp(_, l, r) =>
      ReadsOf(l, called);
      ReadsOf(r, called);
    case Compare(first, links) =>
      ReadsOf(first, called);
      ReadsOfLinks(links, called);
    case Call(func, args, _) => if func.Name? { ReadsOfAll(args, called); }
    case Other(_) =>
  }

  lemma {:induction false} ReadsOfAll(es: seq<Expr>, called: set<string>)
    ensures ReadsAll(es) <= MentionsAll(es).names
    ensures CleanAll(es, called) <==> ReadsAll(es) !! LITERALS + called
    decreases es, 0
  {
    if es != [] {
      ReadsOf(es[0], called);
      ReadsOfAll(es[1..], called);
    }
  }

  lemma {:induction false} ReadsOfLinks(links: seq<Link>, called: set<string>)
    ensures ReadsLinks(links) <= MentionsLinks(links).names
    ensures CleanLinks(links, called) <==> ReadsLinks(links) !! LITERALS + called
    decreases links, 0
  {
    if links != [] {
      ReadsOfRight(links[0], called);
      ReadsOfLinks(links[1..], called);
    }
  }

  lemma {:induction false} ReadsOfRight(link: Link, called: set<string>)
    ensures ReadsRight(link) <= MentionsRight(link).names
    ensures CleanRight(link, called) <==> ReadsRight(link) !! LITERALS + called
    decreases link, 0
  {
    ReadsOf(link.right, called);
  }

  /** The free names cover every read exactly when the expression is well formed. */
  lemma {:induction false} CoverageIsWellFormedness(e: Expr)
    ensures Reads(e) <= FreeNames(e) <==> WellFormed(e)
  {
    ReadsOf(e, MentionsOf(e).called);
  }

  /** Two contexts that agree on the free names of a well-formed expression evaluate it alike. */
  lemma {:induction false} FreeNamesDecide(lib: Library, e: Expr, one: Context, two: Context, params: Context,
      depth: nat)
    requires WellFormed(e) && Agree(FreeNames(e), one, two)
    ensures Walk(lib, e, one, params, depth) == Walk(lib, e, two, params, depth)
  {
    CoverageIsWellFormedness(e);
    Coincidence(lib, e, one, two, params, depth, FreeNames(e));
  }

  const ANY_CALL := Call(Name("any"), [], [])

  /** `any() or any`. */
  const ANY_OR_ANY := BoolOp(false, [ANY_CALL, Name("any")])

  lemma {:induction false} AnyOrAnyMentions()
    ensures FreeNames(ANY_OR_ANY) == {} && !WellFormed(ANY_OR_ANY)
  {
    var es := [ANY_CALL, Name("any")];
    NotDunder("any");
    OfOne(Name("any"));
    OfOne(ANY_CALL);
    assert es[1..] == [Name("any")];
    assert MentionsAll(es) == Join(MentionsOf(ANY_CALL), MentionsOf(Name("any")));
    assert "any" in Reads(es[1]) && Reads(es[1]) <= ReadsAll(es[1..]) <= ReadsAll(es);
    CoverageIsWellFormedness(ANY_OR_ANY);
  }

  lemma {:induction false} AnyOrAnyWalk(lib: Library, ctx: Context, params: Context, depth: nat)
    ensures Walk(lib, ANY_OR_ANY, ctx, params, depth)
            == Ok(Bool(Truthy(if StrKey("any") in ctx then ctx[StrKey("any")] else Get(params, "any"))))
  {
    var es, last := [ANY_CALL, Name("any")], [Name("any")];
    NotDunder("any");
    assert es[1..] == last && last[1..] == [];
    assert Walk(lib, ANY_CALL, ctx, params, depth) == Ok(Bool(false));
    assert WalkBool(lib, false, es, ctx, params, depth) == WalkBool(lib, false, last, ctx, params, depth);
    assert Walk(lib, last[0], ctx, params, depth) == ResolveName("any", ctx, params);
    assert WalkBool(lib, false, [], ctx, params, depth) == Ok(Bool(false));
  }

  /** A field spelled like a called function decides, and is not among the free names. */
  lemma {:induction false} CalledNameIsDropped(lib: Library, params: Context, depth: nat)
    requires StrKey("any") !in params
    ensures FreeNames(ANY_OR_ANY) == {} && !WellFormed(ANY_OR_ANY)
    ensures Walk(lib, ANY_OR_ANY, map[], params, depth) == Ok(Bool(false))
    ensures Walk(lib, ANY_OR_ANY, map[StrKey("any") := Int(1)], params, depth) == Ok(Bool(true))
  {
    AnyOrAnyMentions();
    AnyOrAnyWalk(lib, map[], params, depth);
    AnyOrAnyWalk(lib, map[StrKey("any") := Int(1)], params, depth);
  }

  lemma {:induction false} NotDunder(name: string)
    requires forall i :: 0 <= i < |name| ==> name[i] != '_'
    ensures !Dunder(name)
  {
    forall i | 0 <= i <= |name|
      ensures !("__" <= name[i..])
    {
      if |name[i..]| >= 2 { assert name[i..][0] == name[i]; }
    }
  }

  /** `true.x`: the entry `true` decides, and is not among the free names. */
  lemma {:induction false} LiteralBaseIsDropped(lib: Library, params: Context, depth: nat)
    requires StrKey("true") !in params
    ensures
      var e := Attr(Name("true"), "x");
      && FreeNames(e) == {} && !WellFormed(e)
      && Walk(lib, e, map[], params, depth) == Ok(Null)
      && Walk(lib, e, map[StrKey("true") := Dict(map[StrKey("x") := Int(1)])], params, depth) == Ok(Int(1))
  {
    var e := Attr(Name("true"), "x");
    NotDunder("x");
    assert Path(e.base) == Ok(["true"]) && ["true"] + ["x"] == ["true", "x"];
    assert Path(e) == Ok(["true", "x"]);
    assert ["true", "x"][1..] == ["x"] && ["x"][1..] == [];
    CoverageIsWellFormedness(e);
    var inner := Dict(map[StrKey("x") := Int(1)]);
    assert Navigate(inner, ["x"]) == Navigate(Int(1), []);
  }

  // ---------- the interpreter's depth ----------

  /** `two` answers as `one` does wherever `one` did not run out of stack. */
  ghost predicate Extends(one: Test, two: Test) {
    forall v :: one(v) != Err(Recursion) ==> two(v) == one(v)
  }

  lemma {:induction false} QuantifyExtends(name: string, one: Test, two: Test, items: seq<Value>)
    requires Extends(one, two)
    ensures Quantify(name, one, items) != Err(Recursion) ==> Quantify(name, two, items) == Quantify(name, one, items)
  {
    AllExtends(one, two, items);
    AnyExtends(one, two, items);
    CountExtends(one, two, items);
  }

  lemma {:induction false} AllExtends(one: Test, two: Test, items: seq<Value>)
    requires Extends(one, two)
    ensures AllItems(one, items) != Err(Recursion) ==> AllItems(two, items) == AllItems(one, items)
  {
    if items != [] { AllExtends(one, two, items[1..]); }
  }

  lemma {:induction false} AnyExtends(one: Test, two: Test, items: seq<Value>)
    requires Extends(one, two)
    ensures AnyItem(one, items) != Err(Recursion) ==> AnyItem(two, items) == AnyItem(one, items)
  {
    if items != [] { AnyExtends(one, two, items[1..]); }
  }

  lemma {:induction false} CountExtends(one: Test, two: Test, items: seq<Value>)
    requires Extends(one, two)
    ensures CountItems(one, items) != Err(Recursion) ==> CountItems(two, items) == CountItems(one, items)
  {
    if items != [] { CountExtends(one, two, items[1..]); }
  }

  /** More stack changes no answer: an evaluation that did not run out has its final result. */
  lemma {:induction false} DeeperAgrees(lib: Library, e: Expr, ctx: Context, params: Context, depth: nat, deeper: nat)
    requires depth <= deeper && Walk(lib, e, ctx, params, depth) != Err(Recursion)
    ensures Walk(lib, e, ctx, params, deeper) == Walk(lib, e, ctx, params, depth)
    decreases depth, 0, e, 1
  {
    match e
    case ListOf(items) => DeeperAll(lib, items, ctx, params, depth, deeper);
    case BoolOp(isAnd, operands) => DeeperBool(lib, isAnd, operands, ctx, params, depth, deeper);
    case Unary(_, operand) => if !e.uop.Invert? { DeeperAgrees(lib, operand, ctx, params, depth, deeper); }
    case BinOp(op, l, r) =>
      if !op.OtherArith? {
        DeeperAgrees(lib, l, ctx, params, depth, deeper);
        if Walk(lib, l, ctx, params, depth).Ok? { DeeperAgrees(lib, r, ctx, params, depth, deeper); }
      }
    case Compare(first, links) =>
      DeeperAgrees(lib, first, ctx, params, depth, deeper);
      var left := Walk(lib, first, ctx, params, depth);
      if left.Ok? { DeeperLinks(lib, left.value, links, ctx, params, depth, deeper); }
    case Call(func, args, keywords) =>
      if func.Name? && func.id in FUNCTIONS && keywords == [] {
        if func.id in QUANTIFIERS {
          DeeperQuantifier(lib, func.id, args, ctx, params, depth, deeper);
        } else {
          DeeperAll(lib, args, ctx, params, depth, deeper);
        }
      }
    case _ =>
  }

  lemma {:induction false} DeeperAll(lib: Library,
      es: seq<Expr>, ctx: Context, params: Context, depth: nat, deeper: nat)
    requires depth <= deeper && WalkAll(lib, es, ctx, params, depth) != Err(Recursion)
    ensures WalkAll(lib, es, ctx, params, deeper) == WalkAll(lib, es, ctx, params, depth)
    decreases depth, 0, es, 0
  {
    if es != [] {
      DeeperAgrees(lib, es[0], ctx, params, depth, deeper);
      if Walk(lib, es[0], ctx, params, depth).Ok? { DeeperAll(lib, es[1..], ctx, params, depth, deeper); }
    }
  }

  lemma {:induction false} DeeperBool(lib: Library, isAnd: bool,
      es: seq<Expr>, ctx: Context, params: Context, depth: nat, deeper: nat)
    requires depth <= deeper && WalkBool(lib, isAnd, es, ctx, params, depth) != Err(Recursion)
    ensures WalkBool(lib, isAnd, es, ctx, params, deeper) == WalkBool(lib, isAnd, es, ctx, params, depth)
    decreases depth, 0, es, 0
  {
    if es != [] {
      DeeperAgrees(lib, es[0], ctx, params, depth, deeper);
      var v := Walk(lib, es[0], ctx, params, depth);
      if v.Ok? && Truthy(v.value) == isAnd { DeeperBool(lib, isAnd, es[1..], ctx, params, depth, deeper); }
    }
  }

  lemma {:induction false} DeeperLinks(lib: Library, left: Value,
      links: seq<Link>, ctx: Context, params: Context, depth: nat,
                                       deeper: nat)
    requires depth <= deeper && WalkLinks(lib, left, links, ctx, params, depth) != Err(Recursion)
    ensures WalkLinks(lib, left, links, ctx, params, deeper) == WalkLinks(lib, left, links, ctx, params, depth)
    decreases depth, 0, links, 0
  {
    if links != [] && Supported(links[0].op) {
      DeeperRight(lib, links[0], ctx, params, depth, deeper);
      var right := WalkRight(lib, links[0], ctx, params, depth);
      if right.Ok? && Holds(links[0].op, left, right.value) == Ok(true) {
        DeeperLinks(lib, right.value, links[1..], ctx, params, depth, deeper);
      }
    }
  }

  lemma {:induction false} DeeperRight(lib: Library, link: Link, ctx: Context, params: Context, depth: nat, deeper: nat)
    requires depth <= deeper && WalkRight(lib, link, ctx, params, depth) != Err(Recursion)
    ensures WalkRight(lib, link, ctx, params, deeper) == WalkRight(lib, link, ctx, params, depth)
    decreases depth, 0, link, 0
  {
    DeeperAgrees(lib, link.right, ctx, params, depth, deeper);
  }

  lemma {:induction false} DeeperQuantifier(lib: Library, name: string,
      args: seq<Expr>, ctx: Context, params: Context, depth: nat,
                                            deeper: nat)
    requires depth <= deeper && WalkQuantifier(lib, name, args, ctx, params, depth) != Err(Recursion)
    ensures WalkQuantifier(lib, name, args, ctx, params, deeper) == WalkQuantifier(lib, name, args, ctx, params, depth)
    decreases depth, 0, args, 0
  {
    if args != [] {
      DeeperAgrees(lib, args[0], ctx, params, depth, deeper);
      var collection := Walk(lib, args[0], ctx, params, depth);
      if collection.Ok? && |args| >= 2 {
        DeeperAgrees(lib, args[1], ctx, params, depth, deeper);
        var p := Walk(lib, args[1], ctx, params, depth);
        if p.Ok? && p.value.Str? && collection.value.List? {
          DeeperTests(lib, name, p.value.s, params, depth, deeper, collection.value.items);
        }
      }
    }
  }

  /** The test a predicate text gives when `depth` nested evaluations remain. */
  function TestAt(lib: Library, pred: string, params: Context, depth: nat): Test {
    if depth == 0 then NoStackTest() else PredicateTest(lib, pred, params, depth - 1)
  }

  function TestResult(lib: Library, pred: string, params: Context, depth: nat, item: Value): Result<bool, Fault> {
    if depth == 0 then Err(Recursion) else AsTruth(EvalText(lib, pred, ItemContext(item), params, depth - 1))
  }

  lemma {:induction false} TestAtItem(lib: Library, pred: string, params: Context, depth: nat, item: Value)
    ensures TestAt(lib, pred, params, depth)(item) == TestResult(lib, pred, params, depth, item)
  {
  }

  lemma {:induction false} DeeperTests(lib: Library, name: string, pred: string, params: Context, depth: nat,
      deeper: nat, items: seq<Value>)
    requires depth <= deeper
    ensures
      var one, two := TestAt(lib, pred, params, depth), TestAt(lib, pred, params, deeper);
      Quantify(name, one, items) != Err(Recursion) ==> Quantify(name, two, items) == Quantify(name, one, items)
    decreases depth, -1, 1
  {
    var one, two := TestAt(lib, pred, params, depth), TestAt(lib, pred, params, deeper);
    forall v
      ensures one(v) != Err(Recursion) ==> two(v) == one(v)
    {
      TestAtItem(lib, pred, params, depth, v);
      TestAtItem(lib, pred, params, deeper, v);
      DeeperTest(lib, pred, params, depth, deeper, v);
    }
    QuantifyExtends(name, one, two, items);
  }

  lemma {:induction false} DeeperTest(lib: Library, pred: string, params: Context, depth: nat, deeper: nat, item: Value)
    requires depth <= deeper
    ensures TestResult(lib, pred, params, depth, item) != Err(Recursion) ==>
              TestResult(lib, pred, params, deeper, item) == TestResult(lib, pred, params, depth, item)
    decreases depth, -1, 0
  {
    if depth > 0 { DeeperText(lib, pred, ItemContext(item), params, depth - 1, deeper - 1); }
  }

  /** More stack changes no answer of an expression given as text. */
  lemma {:induction false} DeeperText(lib: Library, text: string, ctx: Context, params: Context, depth: nat,
      deeper: nat)
    requires depth <= deeper
    ensures EvalText(lib, text, ctx, params, depth) != Err(Recursion) ==>
              EvalText(lib, text, ctx, params, deeper) == EvalText(lib, text, ctx, params, depth)
    decreases depth, 1
  {
    if lib.parse(text).Ok? && Walk(lib, lib.parse(text).value, ctx, params, depth) != Err(Recursion) {
      DeeperAgrees(lib, lib.parse(text).value, ctx, params, depth, deeper);
    }
  }
}
