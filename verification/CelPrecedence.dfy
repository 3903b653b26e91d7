/**
What the parser of app/policy_as_code/cel.py makes of an expression, read off its tokens
alone: which operator takes which operands, and what each construct stands for. The
operands are any expressions in parentheses, or plain names.
*/
module CelPrecedence {
  import opened Common
  import opened CelSyntax

  /** One list of tokens in front of another. */
  function Append(ts: Tokens, u: Tokens): Tokens {
    if ts.Eof? then u else Tok(ts.head, Append(ts.tail, u))
  }

  /** Nothing that continues an expression comes next. */
  predicate Closes(u: Tokens) {
    u.Tok? && u.head in {Punct(RParen), Punct(RBracket), Punct(RBrace), Punct(Comma), Punct(Colon)}
  }

  // ---------- an expression reads the same in front of a closing symbol as on its own ----------

  lemma {:induction false} TernaryFollowed(ts: Tokens, u: Tokens)
    requires Closes(u) && GTernary(ts).Ok?
    ensures GTernary(Append(ts, u)) == Ok((GTernary(ts).value.0, Append(GTernary(ts).value.1, u)))
    decreases Size(ts), 20
  {
    BinaryFollowed(ts, 0, u);
    var r1 := GBinary(ts, 0).value.1;
    if Reads(r1, Question) {
      TernaryFollowed(r1.tail, u);
      var r2 := GTernary(r1.tail).value.1;
      TernaryFollowed(r2.tail, u);
    }
  }

  lemma {:induction false} BinaryFollowed(ts: Tokens, level: nat, u: Tokens)
    requires level <= LEVELS && Closes(u) && GBinary(ts, level).Ok?
    ensures GBinary(Append(ts, u), level) == Ok((GBinary(ts, level).value.0, Append(GBinary(ts, level).value.1, u)))
    decreases Size(ts), 15 - level
  {
    if level >= LEVELS {
      UnaryFollowed(ts, u);
    } else {
      BinaryFollowed(ts, level + 1, u);
      var (node, rest) := GBinary(ts, level + 1).value;
      BinaryRestFollowed(rest, level, node, u);
    }
  }

  lemma {:induction false} BinaryRestFollowed(ts: Tokens, level: nat, node: Expr, u: Tokens)
    requires level < LEVELS && Closes(u) && GBinaryRest(ts, level, node).Ok?
    ensures var g := GBinaryRest(ts, level, node).value;
      GBinaryRest(Append(ts, u), level, node) == Ok((g.0, Append(g.1, u)))
    decreases Size(ts), 0
  {
    if AtLevel(ts, level) {
      BinaryFollowed(ts.tail, level + 1, u);
      var (right, rest) := GBinary(ts.tail, level + 1).value;
      BinaryRestFollowed(rest, level, Bin(OpAt(ts).value, node, right), u);
    }
  }

  lemma {:induction false} UnaryFollowed(ts: Tokens, u: Tokens)
    requires Closes(u) && GUnary(ts).Ok?
    ensures GUnary(Append(ts, u)) == Ok((GUnary(ts).value.0, Append(GUnary(ts).value.1, u)))
    decreases Size(ts), 9
  {
    if Reads(ts, Bang) || Reads(ts, Op(Sub)) {
      UnaryFollowed(ts.tail, u);
    } else {
      PrimaryFollowed(ts, u);
      var (node, rest) := GPrimary(ts).value;
      PostfixFollowed(rest, node, u);
    }
  }

  lemma {:induction false} PostfixFollowed(ts: Tokens, node: Expr, u: Tokens)
    requires Closes(u) && GPostfixRest(ts, node).Ok?
    ensures var g := GPostfixRest(ts, node).value;
      GPostfixRest(Append(ts, u), node) == Ok((g.0, Append(g.1, u)))
    decreases Size(ts), 1
  {
    if Reads(ts, Dot) {
      DotFollowed(ts, node, u);
    } else if Reads(ts, LBracket) {
      TernaryFollowed(ts.tail, u);
      var (index, r1) := GTernary(ts.tail).value;
      PostfixFollowed(r1.tail, Index(node, index), u);
    }
  }

  lemma {:induction false} DotFollowed(ts: Tokens, node: Expr, u: Tokens)
    requires Reads(ts, Dot) && Closes(u) && GPostfixRest(ts, node).Ok?
    ensures var g := GPostfixRest(ts, node).value;
      GPostfixRest(Append(ts, u), node) == Ok((g.0, Append(g.1, u)))
    decreases Size(ts), 0
  {
    match ts.tail
    case Tok(Ident(name), rest) =>
      assert Size(ts.tail) == 1 + Size(rest);
      if Reads(rest, LParen) {
        ArgsFollowed(rest, u);
        var (args, after) := GArgs(rest).value;
        PostfixFollowed(after, Call(name, [node] + args), u);
      } else {
        PostfixFollowed(rest, Select(node, name), u);
      }
  }

  lemma {:induction false} ArgsFollowed(ts: Tokens, u: Tokens)
    requires Reads(ts, LParen) && Closes(u) && GArgs(ts).Ok?
    ensures GArgs(Append(ts, u)) == Ok((GArgs(ts).value.0, Append(GArgs(ts).value.1, u)))
    decreases Size(ts), 2
  {
    ExprsFollowed(ts.tail, RParen, u);
  }

  lemma {:induction false} ExprsFollowed(ts: Tokens, closer: Sym, u: Tokens)
    requires Closes(u) && GExprs(ts, closer).Ok? && GExprs(ts, closer).value.1.Tok?
    ensures GExprs(Append(ts, u), closer) == Ok((GExprs(ts, closer).value.0, Append(GExprs(ts, closer).value.1, u)))
    decreases Size(ts), 22
  {
    if !Reads(ts, closer) {
      MoreFollowed(ts, [], u);
    }
  }

  lemma {:induction false} MoreFollowed(ts: Tokens, acc: seq<Expr>, u: Tokens)
    requires Closes(u) && GMore(ts, acc).Ok? && GMore(ts, acc).value.1.Tok?
    ensures GMore(Append(ts, u), acc) == Ok((GMore(ts, acc).value.0, Append(GMore(ts, acc).value.1, u)))
    decreases Size(ts), 21
  {
    TernaryFollowed(ts, u);
    var (e, rest) := GTernary(ts).value;
    if Reads(rest, Comma) {
      MoreFollowed(rest.tail, acc + [e], u);
    }
  }

  lemma {:induction false} PairsFollowed(ts: Tokens, acc: seq<Pair>, u: Tokens)
    requires Closes(u) && GPairs(ts, acc).Ok? && GPairs(ts, acc).value.1.Tok?
    ensures GPairs(Append(ts, u), acc) == Ok((GPairs(ts, acc).value.0, Append(GPairs(ts, acc).value.1, u)))
    decreases Size(ts), 21
  {
    TernaryFollowed(ts, u);
    var (k, r1) := GTernary(ts).value;
    TernaryFollowed(r1.tail, u);
    var (v, r3) := GTernary(r1.tail).value;
    if Reads(r3, Comma) {
      PairsFollowed(r3.tail, acc + [Pair(k, v)], u);
    }
  }

  lemma {:induction false} PrimaryFollowed(ts: Tokens, u: Tokens)
    requires Closes(u) && GPrimary(ts).Ok?
    ensures GPrimary(Append(ts, u)) == Ok((GPrimary(ts).value.0, Append(GPrimary(ts).value.1, u)))
    decreases Size(ts), 7
  {
    match ts
    case Tok(Num(n), t) =>
    case Tok(Str(s), t) =>
    case Tok(Ident(name), t) =>
      if !IsKeyword(name) && Reads(t, LParen) {
        ArgsFollowed(t, u);
      }
    case Tok(Punct(LParen), t) => TernaryFollowed(t, u);
    case Tok(Punct(LBracket), t) => ExprsFollowed(t, RBracket, u);
    case Tok(Punct(LBrace), t) =>
      if !Reads(t, RBrace) {
        PairsFollowed(t, [], u);
      }
  }

  // ---------- operands ----------

  /** No selection, index or call continues the operand before. */
  predicate Ends(rest: Tokens) {
    !(rest.Tok? && rest.head in {Punct(Dot), Punct(LBracket), Punct(LParen)})
  }

  /** The tokens stand for `e` wherever an operand is wanted. */
  ghost predicate Operand(ts: Tokens, e: Expr) {
    forall rest :: Ends(rest) ==> GUnary(Append(ts, rest)) == Ok((e, rest))
  }

  /** They also do where selections and indexes follow. */
  ghost predicate Chain(ts: Tokens, e: Expr) {
    forall rest :: !Reads(rest, LParen) ==> GUnary(Append(ts, rest)) == GPostfixRest(rest, e)
  }

  function One(t: Token): Tokens {
    Tok(t, Eof)
  }

  /** `ts` in parentheses. */
  function Paren(ts: Tokens): Tokens {
    Tok(Punct(LParen), Append(ts, One(Punct(RParen))))
  }

  lemma {:induction false} AppendTwice(ts: Tokens, u: Tokens, v: Tokens)
    ensures Append(Append(ts, u), v) == Append(ts, Append(u, v))
  {
    if ts.Tok? { AppendTwice(ts.tail, u, v); }
  }

  lemma {:induction false} AppendNothing(ts: Tokens)
    ensures Append(ts, Eof) == ts
  {
    if ts.Tok? { AppendNothing(ts.tail); }
  }

  lemma {:induction false} ChainIsOperand(ts: Tokens, e: Expr)
    requires Chain(ts, e)
    ensures Operand(ts, e)
  {
    forall rest | Ends(rest)
      ensures GUnary(Append(ts, rest)) == Ok((e, rest))
    {
      assert GPostfixRest(rest, e) == Ok((e, rest));
    }
  }

  lemma {:induction false} PrimaryChains(ts: Tokens, e: Expr, rest: Tokens)
    requires GPrimary(ts) == Ok((e, rest)) && !Reads(ts, Bang) && !Reads(ts, Op(Sub))
    ensures GUnary(ts) == GPostfixRest(rest, e)
  {
  }

  lemma {:induction false} NameIsChain(x: Word)
    requires !IsKeyword(x)
    ensures Chain(One(Ident(x)), Name(x))
  {
    forall rest | !Reads(rest, LParen)
      ensures GUnary(Append(One(Ident(x)), rest)) == GPostfixRest(rest, Name(x))
    {
      var ts := Tok(Ident(x), rest);
      assert Append(One(Ident(x)), rest) == ts;
      assert GPrimary(ts) == Ok((Name(x), rest));
      PrimaryChains(ts, Name(x), rest);
    }
  }

  /** An expression in parentheses stands for itself. */
  lemma {:induction false} ParenIsChain(ts: Tokens, e: Expr)
    requires ParseTokens(ts) == Ok(e)
    ensures Chain(Paren(ts), e)
  {
    forall rest | !Reads(rest, LParen)
      ensures GUnary(Append(Paren(ts), rest)) == GPostfixRest(rest, e)
    {
      var close := Tok(Punct(RParen), rest);
      var whole := Tok(Punct(LParen), Append(ts, close));
      AppendTwice(ts, One(Punct(RParen)), rest);
      assert Append(Paren(ts), rest) == whole;
      TernaryFollowed(ts, close);
      assert GPrimary(whole) == Ok((e, rest));
      PrimaryChains(whole, e, rest);
    }
  }

  /** `!` and `-` apply to the operand right behind them. */
  lemma {:induction false} PrefixIsOperand(ts: Tokens, e: Expr)
    requires Operand(ts, e)
    ensures Operand(Tok(Punct(Bang), ts), Not(e)) && Operand(Tok(Punct(Op(Sub)), ts), Neg(e))
  {
    forall rest | Ends(rest)
      ensures GUnary(Append(Tok(Punct(Bang), ts), rest)) == Ok((Not(e), rest))
      ensures GUnary(Append(Tok(Punct(Op(Sub)), ts), rest)) == Ok((Neg(e), rest))
    {
      assert GUnary(Append(ts, rest)) == Ok((e, rest));
    }
  }

  // ---------- operators between operands ----------

  /** The token of an operator: `in` is an identifier, the others are punctuation. */
  function Sign(op: BinOp): Token {
    if op == In then Ident(IN) else Punct(Op(op))
  }

  /** What comes next is neither an operator nor the continuation of an operand. */
  predicate Over(rest: Tokens) {
    Ends(rest) && OpAt(rest).None?
  }

  /** No operator tighter than this level comes next. */
  predicate AtMost(rest: Tokens, level: nat) {
    OpAt(rest).Some? ==> OpLevel(OpAt(rest).value) <= level
  }

  lemma {:induction false} Descend(ts: Tokens, e: Expr, rest: Tokens, k: nat, j: nat)
    requires j < k <= LEVELS && GBinary(ts, k) == Ok((e, rest)) && AtMost(rest, j)
    ensures GBinary(ts, j) == GBinaryRest(rest, j, e)
    decreases k - j
  {
    if j + 1 < k {
      Descend(ts, e, rest, k, j + 1);
    }
  }

  lemma {:induction false} OperandAt(ts: Tokens, e: Expr, rest: Tokens, level: nat)
    requires Operand(ts, e) && Ends(rest) && 0 < level <= LEVELS && AtMost(rest, level - 1)
    ensures GBinary(Append(ts, rest), level) == Ok((e, rest))
  {
    assert GBinary(Append(ts, rest), LEVELS) == Ok((e, rest));
    if level < LEVELS {
      Descend(Append(ts, rest), e, rest, LEVELS, level);
    }
  }

  /** An operator of the level takes the operand read so far and what binds tighter behind it. */
  lemma {:induction false} Takes(op: BinOp, left: Expr, t: Tokens, right: Expr, rest: Tokens)
    requires GBinary(t, OpLevel(op) + 1) == Ok((right, rest))
    ensures GBinaryRest(Tok(Sign(op), t), OpLevel(op), left) == GBinaryRest(rest, OpLevel(op), Bin(op, left, right))
  {
    assert OpAt(Tok(Sign(op), t)) == Some(op);
  }

  lemma {:induction false} FirstTakes(A: Tokens, a: Expr, op: BinOp, t: Tokens, right: Expr, rest: Tokens)
    requires Operand(A, a) && GBinary(t, OpLevel(op) + 1) == Ok((right, rest))
    ensures GBinary(Append(A, Tok(Sign(op), t)), OpLevel(op)) == GBinaryRest(rest, OpLevel(op), Bin(op, a, right))
  {
    OperandAt(A, a, Tok(Sign(op), t), OpLevel(op) + 1);
    Takes(op, a, t, right, rest);
  }

  lemma {:induction false} OneOperator(A: Tokens, a: Expr, op: BinOp, B: Tokens, b: Expr, rest: Tokens, level: nat)
    requires Operand(A, a) && Operand(B, b) && Over(rest) && level <= OpLevel(op)
    ensures GBinary(Append(A, Tok(Sign(op), Append(B, rest))), level) == Ok((Bin(op, a, b), rest))
  {
    OperandAt(B, b, rest, OpLevel(op) + 1);
    var ts := Append(A, Tok(Sign(op), Append(B, rest)));
    FirstTakes(A, a, op, Append(B, rest), b, rest);
    if level < OpLevel(op) {
      Descend(ts, Bin(op, a, b), rest, OpLevel(op), level);
    }
  }

  lemma {:induction false} LeftFirst(A: Tokens, a: Expr, op1: BinOp, B: Tokens, b: Expr, op2: BinOp, C: Tokens,
                                     c: Expr, rest: Tokens)
    requires Operand(A, a) && Operand(B, b) && Operand(C, c) && Over(rest) && OpLevel(op1) >= OpLevel(op2)
    ensures GBinary(Append(A, Tok(Sign(op1), Append(B, Tok(Sign(op2), Append(C, rest))))), 0)
            == Ok((Bin(op2, Bin(op1, a, b), c), rest))
  {
    var after := Tok(Sign(op2), Append(C, rest));
    var ts := Append(A, Tok(Sign(op1), Append(B, after)));
    OperandAt(B, b, after, OpLevel(op1) + 1);
    FirstTakes(A, a, op1, Append(B, after), b, after);
    ThenTakes(ts, Bin(op1, a, b), OpLevel(op1), op2, C, c, rest);
  }

  lemma {:induction false} ThenTakes(ts: Tokens, left: Expr, k: nat, op2: BinOp, C: Tokens, c: Expr, rest: Tokens)
    requires Operand(C, c) && Over(rest) && OpLevel(op2) <= k < LEVELS
    requires GBinary(ts, k) == GBinaryRest(Tok(Sign(op2), Append(C, rest)), k, left)
    ensures GBinary(ts, 0) == Ok((Bin(op2, left, c), rest))
  {
    var last := Append(C, rest);
    var after := Tok(Sign(op2), last);
    if OpLevel(op2) < k {
      Descend(ts, left, after, k, OpLevel(op2));
    }
    OperandAt(C, c, rest, OpLevel(op2) + 1);
    Takes(op2, left, last, c, rest);
    if 0 < OpLevel(op2) {
      Descend(ts, Bin(op2, left, c), rest, OpLevel(op2), 0);
    }
  }

  lemma {:induction false} RightFirst(A: Tokens, a: Expr, op1: BinOp, B: Tokens, b: Expr, op2: BinOp, C: Tokens,
                                      c: Expr, rest: Tokens)
    requires Operand(A, a) && Operand(B, b) && Operand(C, c) && Over(rest) && OpLevel(op1) < OpLevel(op2)
    ensures GBinary(Append(A, Tok(Sign(op1), Append(B, Tok(Sign(op2), Append(C, rest))))), 0)
            == Ok((Bin(op1, a, Bin(op2, b, c)), rest))
  {
    var after := Append(B, Tok(Sign(op2), Append(C, rest)));
    var ts := Append(A, Tok(Sign(op1), after));
    OneOperator(B, b, op2, C, c, rest, OpLevel(op1) + 1);
    FirstTakes(A, a, op1, after, Bin(op2, b, c), rest);
    if 0 < OpLevel(op1) {
      Descend(ts, Bin(op1, a, Bin(op2, b, c)), rest, OpLevel(op1), 0);
    }
  }

  lemma {:induction false} WholeExpression(ts: Tokens, e: Expr)
    requires GBinary(ts, 0) == Ok((e, Eof))
    ensures ParseTokens(ts) == Ok(e)
  {
    assert GTernary(ts) == Ok((e, Eof));
  }

  /**
  The five rows, loosest first. Of two operators between three operands the first takes the middle
  one if it binds at least as tightly as the second, and the second takes it otherwise.
  */
  lemma {:induction false} TwoOperators(A: Tokens, a: Expr, op1: BinOp, B: Tokens, b: Expr, op2: BinOp, C: Tokens,
                                        c: Expr, i: nat, j: nat)
    requires Operand(A, a) && Operand(B, b) && Operand(C, c) && i < 5 && j < 5
    requires var rows := [{Or}, {And}, {Eq, Ne, Lt, Le, Gt, Ge, In}, {Add, Sub}, {Mul, Div, Mod}];
      op1 in rows[i] && op2 in rows[j]
    ensures ParseTokens(Append(A, Tok(Sign(op1), Append(B, Tok(Sign(op2), C)))))
            == Ok(if i >= j then Bin(op2, Bin(op1, a, b), c) else Bin(op1, a, Bin(op2, b, c)))
  {
    AppendNothing(C);
    var ts := Append(A, Tok(Sign(op1), Append(B, Tok(Sign(op2), C))));
    RowIsLevel(op1, i);
    RowIsLevel(op2, j);
    if i >= j {
      LeftFirst(A, a, op1, B, b, op2, C, c, Eof);
      WholeExpression(ts, Bin(op2, Bin(op1, a, b), c));
    } else {
      RightFirst(A, a, op1, B, b, op2, C, c, Eof);
      WholeExpression(ts, Bin(op1, a, Bin(op2, b, c)));
    }
  }

  /** For three names, with the operators' rows spelled out. */
  lemma {:induction false} TwoOperatorsOnNames(a: Word, op1: BinOp, b: Word, op2: BinOp, c: Word, i: nat, j: nat)
    requires !IsKeyword(a) && !IsKeyword(b) && !IsKeyword(c) && i < 5 && j < 5
    requires var rows := [{Or}, {And}, {Eq, Ne, Lt, Le, Gt, Ge, In}, {Add, Sub}, {Mul, Div, Mod}];
      op1 in rows[i] && op2 in rows[j]
    ensures ParseTokens(Tok(Ident(a), Tok(Sign(op1), Tok(Ident(b), Tok(Sign(op2), Tok(Ident(c), Eof))))))
            == Ok(if i >= j then Bin(op2, Bin(op1, Name(a), Name(b)), Name(c))
                  else Bin(op1, Name(a), Bin(op2, Name(b), Name(c))))
  {
    NameIsOperand(a);
    NameIsOperand(b);
    NameIsOperand(c);
    TwoOperators(One(Ident(a)), Name(a), op1, One(Ident(b)), Name(b), op2, One(Ident(c)), Name(c), i, j);
    OneFirst(Ident(a), Tok(Sign(op1), Append(One(Ident(b)), Tok(Sign(op2), One(Ident(c))))));
    OneFirst(Ident(b), Tok(Sign(op2), One(Ident(c))));
  }

  lemma {:induction false} OneFirst(t: Token, rest: Tokens)
    ensures Append(One(t), rest) == Tok(t, rest)
  {
    assert Append(One(t), rest) == Tok(t, Append(Eof, rest));
  }

  lemma {:induction false} NameIsOperand(x: Word)
    requires !IsKeyword(x)
    ensures Operand(One(Ident(x)), Name(x))
  {
    NameIsChain(x);
    ChainIsOperand(One(Ident(x)), Name(x));
  }

  lemma {:induction false} ParenIsOperand(ts: Tokens, e: Expr)
    requires ParseTokens(ts) == Ok(e)
    ensures Operand(Paren(ts), e)
  {
    ParenIsChain(ts, e);
    ChainIsOperand(Paren(ts), e);
  }

  /** And for any three expressions in parentheses. */
  lemma {:induction false} TwoOperatorsOnGroups(A: Tokens, a: Expr, op1: BinOp, B: Tokens, b: Expr, op2: BinOp,
                                                C: Tokens, c: Expr, i: nat, j: nat)
    requires ParseTokens(A) == Ok(a) && ParseTokens(B) == Ok(b) && ParseTokens(C) == Ok(c) && i < 5 && j < 5
    requires var rows := [{Or}, {And}, {Eq, Ne, Lt, Le, Gt, Ge, In}, {Add, Sub}, {Mul, Div, Mod}];
      op1 in rows[i] && op2 in rows[j]
    ensures ParseTokens(Append(Paren(A), Tok(Sign(op1), Append(Paren(B), Tok(Sign(op2), Paren(C))))))
            == Ok(if i >= j then Bin(op2, Bin(op1, a, b), c) else Bin(op1, a, Bin(op2, b, c)))
  {
    ParenIsOperand(A, a);
    ParenIsOperand(B, b);
    ParenIsOperand(C, c);
    TwoOperators(Paren(A), a, op1, Paren(B), b, op2, Paren(C), c, i, j);
  }

  /** `a > n && b <= m`, the shape of a range check, is the conjunction of its two comparisons. */
  lemma {:induction false} RangeCheckReads(a: Word, b: Word, n: nat, m: nat)
    requires !IsKeyword(a) && !IsKeyword(b)
    ensures ParseTokens(Tok(Ident(a), Tok(Punct(Op(Gt)), Tok(Num(n), Tok(Punct(Op(And)),
                        Tok(Ident(b), Tok(Punct(Op(Le)), Tok(Num(m), Eof))))))))
            == Ok(Bin(And, Bin(Gt, Name(a), Lit(IntLit(n))), Bin(Le, Name(b), Lit(IntLit(m)))))
  {
    var last := Tok(Ident(b), Tok(Punct(Op(Le)), Tok(Num(m), Eof)));
    var after := Tok(Punct(Op(And)), last);
    var first := Tok(Ident(a), Tok(Punct(Op(Gt)), Tok(Num(n), after)));
    var x, y := Bin(Gt, Name(a), Lit(IntLit(n))), Bin(Le, Name(b), Lit(IntLit(m)));
    Comparison(a, Gt, n, after);
    Comparison(b, Le, m, Eof);
    assert Sign(Gt) == Punct(Op(Gt)) && Sign(Le) == Punct(Op(Le)) && Sign(And) == Punct(Op(And));
    assert GBinary(first, 1) == GBinaryRest(after, 1, x) by { Descend(first, x, after, 2, 1); }
    Descend(last, y, Eof, 2, 1);
    assert GBinary(last, 2) == Ok((y, Eof));
    Takes(And, x, last, y, Eof);
    assert GBinary(first, 1) == Ok((Bin(And, x, y), Eof));
    Descend(first, Bin(And, x, y), Eof, 1, 0);
    WholeExpression(first, Bin(And, x, y));
  }

  lemma {:induction false} Comparison(x: Word, op: BinOp, n: nat, rest: Tokens)
    requires !IsKeyword(x) && OpLevel(op) == 2 && Ends(rest) && AtMost(rest, 1)
    ensures GBinary(Tok(Ident(x), Tok(Sign(op), Tok(Num(n), rest))), 2)
            == Ok((Bin(op, Name(x), Lit(IntLit(n))), rest))
  {
    var t := Tok(Num(n), rest);
    PrimaryChains(t, Lit(IntLit(n)), rest);
    assert GBinary(t, LEVELS) == Ok((Lit(IntLit(n)), rest));
    Descend(t, Lit(IntLit(n)), rest, LEVELS, 3);
    NameIsOperand(x);
    OneFirst(Ident(x), Tok(Sign(op), t));
    FirstTakes(One(Ident(x)), Name(x), op, t, Lit(IntLit(n)), rest);
  }

  /** `!` and `-` bind tighter than every binary operator, on either side of it. */
  lemma {:induction false} PrefixBindsTighter(A: Tokens, a: Expr, op: BinOp, B: Tokens, b: Expr)
    requires ParseTokens(A) == Ok(a) && ParseTokens(B) == Ok(b)
    ensures ParseTokens(Tok(Punct(Bang), Append(Paren(A), Tok(Sign(op), Paren(B))))) == Ok(Bin(op, Not(a), b))
    ensures ParseTokens(Tok(Punct(Op(Sub)), Append(Paren(A), Tok(Sign(op), Paren(B))))) == Ok(Bin(op, Neg(a), b))
    ensures ParseTokens(Append(Paren(A), Tok(Sign(op), Tok(Punct(Bang), Paren(B))))) == Ok(Bin(op, a, Not(b)))
    ensures ParseTokens(Append(Paren(A), Tok(Sign(op), Tok(Punct(Op(Sub)), Paren(B))))) == Ok(Bin(op, a, Neg(b)))
  {
    ParenIsOperand(A, a);
    ParenIsOperand(B, b);
    PrefixIsOperand(Paren(A), a);
    PrefixIsOperand(Paren(B), b);
    OneOperatorOnly(Tok(Punct(Bang), Paren(A)), Not(a), op, Paren(B), b);
    OneOperatorOnly(Tok(Punct(Op(Sub)), Paren(A)), Neg(a), op, Paren(B), b);
    OneOperatorOnly(Paren(A), a, op, Tok(Punct(Bang), Paren(B)), Not(b));
    OneOperatorOnly(Paren(A), a, op, Tok(Punct(Op(Sub)), Paren(B)), Neg(b));
  }

  lemma {:induction false} OneOperatorOnly(A: Tokens, a: Expr, op: BinOp, B: Tokens, b: Expr)
    requires Operand(A, a) && Operand(B, b)
    ensures ParseTokens(Append(A, Tok(Sign(op), B))) == Ok(Bin(op, a, b))
  {
    OneOperator(A, a, op, B, b, Eof, 0);
    AppendNothing(B);
    WholeExpression(Append(A, Tok(Sign(op), B)), Bin(op, a, b));
  }

  /**
  A conditional takes a whole operation for its test and any expressions for its two answers. With
  a second conditional as the last answer this is the nesting of `a ? b : c ? d : e` to the right.
  */
  lemma {:induction false} ConditionalIsLoosest(A: Tokens, a: Expr, op: BinOp, B: Tokens, b: Expr, Y: Tokens, y: Expr,
                                                Z: Tokens, z: Expr)
    requires ParseTokens(A) == Ok(a) && ParseTokens(B) == Ok(b) && ParseTokens(Y) == Ok(y) && ParseTokens(Z) == Ok(z)
    ensures ParseTokens(Append(Paren(A), Tok(Sign(op), Append(Paren(B),
                        Tok(Punct(Question), Append(Y, Tok(Punct(Colon), Z)))))))
            == Ok(Cond(Bin(op, a, b), y, z))
  {
    var colon := Tok(Punct(Colon), Z);
    var question := Tok(Punct(Question), Append(Y, colon));
    var ts := Append(Paren(A), Tok(Sign(op), Append(Paren(B), question)));
    ParenIsOperand(A, a);
    ParenIsOperand(B, b);
    OneOperator(Paren(A), a, op, Paren(B), b, question, 0);
    TernaryFollowed(Y, colon);
    CondStep(ts, Bin(op, a, b), Append(Y, colon), y, Z, z, Eof);
  }

  lemma {:induction false} RowIsLevel(op: BinOp, i: nat)
    requires i < 5
    requires var rows := [{Or}, {And}, {Eq, Ne, Lt, Le, Gt, Ge, In}, {Add, Sub}, {Mul, Div, Mod}];
      op in rows[i]
    ensures OpLevel(op) == i
  {
    var rows := [{Or}, {And}, {Eq, Ne, Lt, Le, Gt, Ge, In}, {Add, Sub}, {Mul, Div, Mod}];
    assert rows[0] == {Or} && rows[1] == {And} && rows[2] == {Eq, Ne, Lt, Le, Gt, Ge, In};
    assert rows[3] == {Add, Sub} && rows[4] == {Mul, Div, Mod};
  }

  // ---------- selections, indexes, calls, lists and maps ----------

  lemma {:induction false} SelectIsChain(A: Tokens, e: Expr, f: Word)
    requires Chain(A, e)
    ensures Chain(Append(A, Tok(Punct(Dot), One(Ident(f)))), Select(e, f))
  {
    forall rest | !Reads(rest, LParen)
      ensures GUnary(Append(Append(A, Tok(Punct(Dot), One(Ident(f)))), rest)) == GPostfixRest(rest, Select(e, f))
    {
      var dot := Tok(Punct(Dot), Tok(Ident(f), rest));
      AppendTwice(A, Tok(Punct(Dot), One(Ident(f))), rest);
      OneFirst(Ident(f), rest);
      assert GUnary(Append(A, dot)) == GPostfixRest(dot, e);
    }
  }

  lemma {:induction false} IndexIsChain(A: Tokens, e: Expr, I: Tokens, i: Expr)
    requires Chain(A, e) && ParseTokens(I) == Ok(i)
    ensures Chain(Append(A, Tok(Punct(LBracket), Append(I, One(Punct(RBracket))))), Index(e, i))
  {
    var bracket := Tok(Punct(LBracket), Append(I, One(Punct(RBracket))));
    forall rest | !Reads(rest, LParen)
      ensures GUnary(Append(Append(A, bracket), rest)) == GPostfixRest(rest, Index(e, i))
    {
      var close := Tok(Punct(RBracket), rest);
      var open := Tok(Punct(LBracket), Append(I, close));
      AppendTwice(A, bracket, rest);
      AppendTwice(I, One(Punct(RBracket)), rest);
      OneFirst(Punct(RBracket), rest);
      TernaryFollowed(I, close);
      assert GUnary(Append(A, open)) == GPostfixRest(open, e);
    }
  }

  /** Expressions between commas, in front of `rest`. */
  function Commas(list: seq<Tokens>, rest: Tokens): Tokens {
    if list == [] then rest
    else Append(list[0], if |list| == 1 then rest else Tok(Punct(Comma), Commas(list[1..], rest)))
  }

  ghost predicate ParseAll(list: seq<Tokens>, es: seq<Expr>) {
    |list| == |es| && forall k :: 0 <= k < |list| ==> ParseTokens(list[k]) == Ok(es[k])
  }

  lemma {:induction false} MoreRead(list: seq<Tokens>, es: seq<Expr>, acc: seq<Expr>, rest: Tokens)
    requires list != [] && ParseAll(list, es) && Closes(rest) && !Reads(rest, Comma)
    ensures GMore(Commas(list, rest), acc) == Ok((acc + es, rest))
    decreases |list|
  {
    assert ParseTokens(list[0]) == Ok(es[0]);
    Regroup(acc, es);
    if |list| == 1 {
      FirstRead(list[0], es[0], acc, rest);
    } else {
      FirstRead(list[0], es[0], acc, Tok(Punct(Comma), Commas(list[1..], rest)));
      MoreRead(list[1..], es[1..], acc + [es[0]], rest);
    }
  }

  lemma {:induction false} FirstRead(ts: Tokens, e: Expr, acc: seq<Expr>, after: Tokens)
    requires ParseTokens(ts) == Ok(e) && Closes(after)
    ensures GMore(Append(ts, after), acc)
            == if Reads(after, Comma) then GMore(after.tail, acc + [e]) else Ok((acc + [e], after))
  {
    TernaryFollowed(ts, after);
  }

  /** No expression starts with a closing symbol. */
  lemma {:induction false} NotAtOnceClosed(ts: Tokens, sym: Sym, level: nat)
    requires sym in {RParen, RBracket, RBrace} && level <= LEVELS && GBinary(ts, level).Ok?
    ensures !Reads(ts, sym)
    decreases LEVELS - level
  {
    if level < LEVELS {
      NotAtOnceClosed(ts, sym, level + 1);
    } else if Reads(ts, sym) {
      ClosedAtOnce(ts, sym);
    }
  }

  lemma {:induction false} ClosedAtOnce(ts: Tokens, sym: Sym)
    requires sym in {RParen, RBracket, RBrace} && Reads(ts, sym)
    ensures GUnary(ts).Err?
  {
    assert GPrimary(ts).Err?;
    assert GPostfix(ts).Err?;
  }

  lemma {:induction false} ExprsRead(list: seq<Tokens>, es: seq<Expr>, closer: Sym, rest: Tokens)
    requires ParseAll(list, es) && closer in {RParen, RBracket}
    ensures GExprs(Commas(list, Tok(Punct(closer), rest)), closer) == Ok((es, Tok(Punct(closer), rest)))
  {
    if list != [] {
      var close := Tok(Punct(closer), rest);
      MoreRead(list, es, [], close);
      assert [] + es == es;
      NotAtOnceClosed(Commas(list, close), closer, 0);
    }
  }

  /** Arguments in parentheses, in front of `rest`. */
  function Arguments(list: seq<Tokens>, rest: Tokens): Tokens {
    Tok(Punct(LParen), Commas(list, Tok(Punct(RParen), rest)))
  }

  lemma {:induction false} ArgumentsRead(list: seq<Tokens>, es: seq<Expr>, rest: Tokens)
    requires ParseAll(list, es)
    ensures GArgs(Arguments(list, rest)) == Ok((es, rest))
  {
    ExprsRead(list, es, RParen, rest);
  }

  lemma {:induction false} CommasAppend(list: seq<Tokens>, u: Tokens, v: Tokens)
    ensures Append(Commas(list, u), v) == Commas(list, Append(u, v))
    decreases |list|
  {
    if |list| == 1 {
      AppendTwice(list[0], u, v);
    } else if list != [] {
      AppendTwice(list[0], Tok(Punct(Comma), Commas(list[1..], u)), v);
      CommasAppend(list[1..], u, v);
    }
  }

  lemma {:induction false} ArgumentsAppend(list: seq<Tokens>, rest: Tokens)
    ensures Append(Arguments(list, Eof), rest) == Arguments(list, rest)
  {
    CommasAppend(list, One(Punct(RParen)), rest);
    OneFirst(Punct(RParen), rest);
  }

  /** A method's receiver is its first argument. */
  lemma {:induction false} MethodIsChain(A: Tokens, e: Expr, f: Word, list: seq<Tokens>, es: seq<Expr>)
    requires Chain(A, e) && ParseAll(list, es)
    ensures Chain(Append(A, Tok(Punct(Dot), Tok(Ident(f), Arguments(list, Eof)))), Call(f, [e] + es))
  {
    var dot := Tok(Punct(Dot), Tok(Ident(f), Arguments(list, Eof)));
    forall rest | !Reads(rest, LParen)
      ensures GUnary(Append(Append(A, dot), rest)) == GPostfixRest(rest, Call(f, [e] + es))
    {
      var args := Arguments(list, rest);
      AppendTwice(A, dot, rest);
      ArgumentsAppend(list, rest);
      ArgumentsRead(list, es, rest);
      MethodStep(e, f, args, es, rest);
      assert Append(dot, rest) == Tok(Punct(Dot), Tok(Ident(f), args));
    }
  }

  lemma {:induction false} CallIsChain(f: Word, list: seq<Tokens>, es: seq<Expr>)
    requires !IsKeyword(f) && ParseAll(list, es)
    ensures Chain(Tok(Ident(f), Arguments(list, Eof)), Call(f, es))
  {
    forall rest | !Reads(rest, LParen)
      ensures GUnary(Append(Tok(Ident(f), Arguments(list, Eof)), rest)) == GPostfixRest(rest, Call(f, es))
    {
      var ts := Tok(Ident(f), Arguments(list, rest));
      ArgumentsAppend(list, rest);
      ArgumentsRead(list, es, rest);
      assert GPrimary(ts) == Ok((Call(f, es), rest));
      PrimaryChains(ts, Call(f, es), rest);
    }
  }

  lemma {:induction false} ListIsChain(list: seq<Tokens>, es: seq<Expr>)
    requires ParseAll(list, es)
    ensures Chain(Tok(Punct(LBracket), Commas(list, One(Punct(RBracket)))), ListOf(es))
  {
    var open := Tok(Punct(LBracket), Commas(list, One(Punct(RBracket))));
    forall rest | !Reads(rest, LParen)
      ensures GUnary(Append(open, rest)) == GPostfixRest(rest, ListOf(es))
    {
      var close := Tok(Punct(RBracket), rest);
      var ts := Tok(Punct(LBracket), Commas(list, close));
      CommasAppend(list, One(Punct(RBracket)), rest);
      OneFirst(Punct(RBracket), rest);
      ExprsRead(list, es, RBracket, rest);
      assert GPrimary(ts) == Ok((ListOf(es), rest));
      PrimaryChains(ts, ListOf(es), rest);
    }
  }

  /** What continues as a chain is a whole expression on its own, and behind `!` or `-`. */
  lemma {:induction false} ChainParses(ts: Tokens, e: Expr)
    requires Chain(ts, e)
    ensures ParseTokens(ts) == Ok(e)
    ensures ParseTokens(Tok(Punct(Bang), ts)) == Ok(Not(e)) && ParseTokens(Tok(Punct(Op(Sub)), ts)) == Ok(Neg(e))
  {
    ChainIsOperand(ts, e);
    PrefixIsOperand(ts, e);
    OperandParses(ts, e);
    OperandParses(Tok(Punct(Bang), ts), Not(e));
    OperandParses(Tok(Punct(Op(Sub)), ts), Neg(e));
  }

  lemma {:induction false} OperandParses(ts: Tokens, e: Expr)
    requires Operand(ts, e)
    ensures ParseTokens(ts) == Ok(e)
  {
    AppendNothing(ts);
    assert GBinary(ts, LEVELS) == Ok((e, Eof));
    Descend(ts, e, Eof, LEVELS, 0);
    WholeExpression(ts, e);
  }

  /**
  Selection, index and method call apply to all of the operand on their left, one after the other,
  and bind tighter than a prefix.
  */
  lemma {:induction false} PostfixBindsTightest(A: Tokens, a: Expr, f: Word, I: Tokens, i: Expr, g: Word,
                                                list: seq<Tokens>, es: seq<Expr>)
    requires ParseTokens(A) == Ok(a) && ParseTokens(I) == Ok(i) && ParseAll(list, es)
    ensures
      var selected := Append(Paren(A), Tok(Punct(Dot), One(Ident(f))));
      var indexed := Append(selected, Tok(Punct(LBracket), Append(I, One(Punct(RBracket)))));
      var called := Append(indexed, Tok(Punct(Dot), Tok(Ident(g), Arguments(list, Eof))));
      && ParseTokens(selected) == Ok(Select(a, f))
      && ParseTokens(indexed) == Ok(Index(Select(a, f), i))
      && ParseTokens(called) == Ok(Call(g, [Index(Select(a, f), i)] + es))
      && ParseTokens(Tok(Punct(Bang), called)) == Ok(Not(Call(g, [Index(Select(a, f), i)] + es)))
      && ParseTokens(Tok(Punct(Op(Sub)), called)) == Ok(Neg(Call(g, [Index(Select(a, f), i)] + es)))
  {
    var selected := Append(Paren(A), Tok(Punct(Dot), One(Ident(f))));
    var indexed := Append(selected, Tok(Punct(LBracket), Append(I, One(Punct(RBracket)))));
    var called := Append(indexed, Tok(Punct(Dot), Tok(Ident(g), Arguments(list, Eof))));
    ParenIsChain(A, a);
    SelectIsChain(Paren(A), a, f);
    IndexIsChain(selected, Select(a, f), I, i);
    MethodIsChain(indexed, Index(Select(a, f), i), g, list, es);
    ChainParses(selected, Select(a, f));
    ChainParses(indexed, Index(Select(a, f), i));
    ChainParses(called, Call(g, [Index(Select(a, f), i)] + es));
  }

  /** Names, calls and lists, of any number of expressions between commas. */
  lemma {:induction false} PrimariesAreRead(x: Word, list: seq<Tokens>, es: seq<Expr>)
    requires !IsKeyword(x) && ParseAll(list, es)
    ensures ParseTokens(One(Ident(x))) == Ok(Name(x))
    ensures ParseTokens(Tok(Ident(x), Arguments(list, Eof))) == Ok(Call(x, es))
    ensures ParseTokens(Tok(Punct(LBracket), Commas(list, One(Punct(RBracket))))) == Ok(ListOf(es))
  {
    NameIsChain(x);
    CallIsChain(x, list, es);
    ListIsChain(list, es);
    ChainParses(One(Ident(x)), Name(x));
    ChainParses(Tok(Ident(x), Arguments(list, Eof)), Call(x, es));
    ChainParses(Tok(Punct(LBracket), Commas(list, One(Punct(RBracket)))), ListOf(es));
  }

  lemma {:induction false} LiteralIsRead(t: Token, lit: Literal)
    requires GPrimary(One(t)) == Ok((Lit(lit), Eof)) && !Reads(One(t), Bang) && !Reads(One(t), Op(Sub))
    ensures ParseTokens(One(t)) == Ok(Lit(lit))
  {
    PrimaryChains(One(t), Lit(lit), Eof);
    assert GBinary(One(t), LEVELS) == Ok((Lit(lit), Eof));
    Descend(One(t), Lit(lit), Eof, LEVELS, 0);
    WholeExpression(One(t), Lit(lit));
  }

  lemma {:induction false} LiteralsAreRead(n: nat, s: string, yes: Word, no: Word, none: Word)
    requires yes == "true" && no == "false" && none == "null"
    ensures ParseTokens(One(Num(n))) == Ok(Lit(IntLit(n))) && ParseTokens(One(Str(s))) == Ok(Lit(StrLit(s)))
    ensures ParseTokens(One(Ident(yes))) == Ok(Lit(BoolLit(true)))
    ensures ParseTokens(One(Ident(no))) == Ok(Lit(BoolLit(false)))
    ensures ParseTokens(One(Ident(none))) == Ok(Lit(NullLit))
  {
    LiteralIsRead(Num(n), IntLit(n));
    LiteralIsRead(Str(s), StrLit(s));
    LiteralIsRead(Ident(yes), BoolLit(true));
    LiteralIsRead(Ident(no), BoolLit(false));
    LiteralIsRead(Ident(none), NullLit);
  }

  // ---------- maps ----------

  /** Keys and values between commas, in front of `rest`. */
  function Entries(keys: seq<Tokens>, values: seq<Tokens>, rest: Tokens): Tokens
    requires |keys| == |values|
  {
    if keys == [] then rest
    else
      var after := if |keys| == 1 then rest else Tok(Punct(Comma), Entries(keys[1..], values[1..], rest));
      Append(keys[0], Tok(Punct(Colon), Append(values[0], after)))
  }

  function Zip(ks: seq<Expr>, vs: seq<Expr>): seq<Pair>
    requires |ks| == |vs|
  {
    if ks == [] then [] else [Pair(ks[0], vs[0])] + Zip(ks[1..], vs[1..])
  }

  lemma {:induction false} EntriesRead(keys: seq<Tokens>, ks: seq<Expr>, values: seq<Tokens>, vs: seq<Expr>,
                                       acc: seq<Pair>, rest: Tokens)
    requires keys != [] && |keys| == |values| && ParseAll(keys, ks) && ParseAll(values, vs)
    requires Closes(rest) && !Reads(rest, Comma)
    ensures GPairs(Entries(keys, values, rest), acc) == Ok((acc + Zip(ks, vs), rest))
    decreases |keys|
  {
    var after := if |keys| == 1 then rest else Tok(Punct(Comma), Entries(keys[1..], values[1..], rest));
    assert ParseTokens(keys[0]) == Ok(ks[0]) && ParseTokens(values[0]) == Ok(vs[0]);
    TernaryFollowed(values[0], after);
    TernaryFollowed(keys[0], Tok(Punct(Colon), Append(values[0], after)));
    var p := Pair(ks[0], vs[0]);
    PairStep(Entries(keys, values, rest), ks[0], Append(values[0], after), vs[0], after, acc);
    if |keys| == 1 {
      assert Zip(ks, vs) == [p];
    } else {
      EntriesRead(keys[1..], ks[1..], values[1..], vs[1..], acc + [p], rest);
      assert acc + [p] + Zip(ks[1..], vs[1..]) == acc + Zip(ks, vs);
    }
  }

  /** A map of any number of keys and values. */
  lemma {:induction false} MapsAreRead(keys: seq<Tokens>, ks: seq<Expr>, values: seq<Tokens>, vs: seq<Expr>)
    requires |keys| == |values| && ParseAll(keys, ks) && ParseAll(values, vs)
    ensures ParseTokens(Tok(Punct(LBrace), Entries(keys, values, One(Punct(RBrace))))) == Ok(MapOf(Zip(ks, vs)))
  {
    var close := One(Punct(RBrace));
    var ts := Tok(Punct(LBrace), Entries(keys, values, close));
    if keys != [] {
      EntriesRead(keys, ks, values, vs, [], close);
      assert [] + Zip(ks, vs) == Zip(ks, vs);
      NotAtOnceClosed(ts.tail, RBrace, 0);
    }
    assert GPrimary(ts) == Ok((MapOf(Zip(ks, vs)), Eof));
    PrimaryChains(ts, MapOf(Zip(ks, vs)), Eof);
    assert GBinary(ts, LEVELS) == Ok((MapOf(Zip(ks, vs)), Eof));
    Descend(ts, MapOf(Zip(ks, vs)), Eof, LEVELS, 0);
    WholeExpression(ts, MapOf(Zip(ks, vs)));
  }
}
