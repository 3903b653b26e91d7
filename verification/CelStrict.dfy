/**
The grammar of app/policy_as_code/cel.py as it would be if `_Parser.eat` compared a token's
kind as well as its value, and exactly how far the parser's own grammar departs from it.
*/
module CelStrict {
  import opened Common
  import opened CelSyntax

  // ---------- the strict grammar ----------

  function Take(ts: Tokens, sym: Sym): (r: Result<Tokens, SyntaxError>)
    ensures r.Ok? ==> Size(r.value) < Size(ts)
  {
    if Reads(ts, sym) then Ok(ts.tail) else Err(Expected(sym))
  }

  function STernary(ts: Tokens): (r: Parsed<Expr>)
    ensures r.Ok? ==> Size(r.value.1) < Size(ts)
    decreases Size(ts), 20
  {
    var (cond, r1) :- SBinary(ts, 0);
    if Reads(r1, Question) then
      var (yes, r2) :- STernary(r1.tail);
      var r3 :- Take(r2, Colon);
      var (no, r4) :- STernary(r3);
      Ok((Cond(cond, yes, no), r4))
    else
      Ok((cond, r1))
  }

  function SBinary(ts: Tokens, level: nat): (r: Parsed<Expr>)
    requires level <= LEVELS
    ensures r.Ok? ==> Size(r.value.1) < Size(ts)
    decreases Size(ts), 15 - level
  {
    if level >= LEVELS then SUnary(ts)
    else
      var (node, rest) :- SBinary(ts, level + 1);
      SBinaryRest(rest, level, node)
  }

  function SBinaryRest(ts: Tokens, level: nat, node: Expr): (r: Parsed<Expr>)
    requires level < LEVELS
    ensures r.Ok? ==> Size(r.value.1) <= Size(ts)
    decreases Size(ts), 0
  {
    if AtLevel(ts, level) then
      var (right, rest) :- SBinary(ts.tail, level + 1);
      SBinaryRest(rest, level, Bin(OpAt(ts).value, node, right))
    else
      Ok((node, ts))
  }

  function SUnary(ts: Tokens): (r: Parsed<Expr>)
    ensures r.Ok? ==> Size(r.value.1) < Size(ts)
    decreases Size(ts), 9
  {
    if Reads(ts, Bang) then
      var (arg, rest) :- SUnary(ts.tail);
      Ok((Not(arg), rest))
    else if Reads(ts, Op(Sub)) then
      var (arg, rest) :- SUnary(ts.tail);
      Ok((Neg(arg), rest))
    else
      SPostfix(ts)
  }

  function SPostfix(ts: Tokens): (r: Parsed<Expr>)
    ensures r.Ok? ==> Size(r.value.1) < Size(ts)
    decreases Size(ts), 8
  {
    var (node, rest) :- SPrimary(ts);
    SPostfixRest(rest, node)
  }

  function SPostfixRest(ts: Tokens, node: Expr): (r: Parsed<Expr>)
    ensures r.Ok? ==> Size(r.value.1) <= Size(ts)
    decreases Size(ts), 0
  {
    if Reads(ts, Dot) then
      match ts.tail
      case Tok(Ident(name), rest) =>
        assert Size(ts.tail) == 1 + Size(rest);
        if Reads(rest, LParen) then
          var (args, after) :- SArgs(rest);
          SPostfixRest(after, Call(name, [node] + args))
        else
          SPostfixRest(rest, Select(node, name))
      case _ => Err(ExpectedFieldName)
    else if Reads(ts, LBracket) then
      var (index, r1) :- STernary(ts.tail);
      var r2 :- Take(r1, RBracket);
      SPostfixRest(r2, Index(node, index))
    else
      Ok((node, ts))
  }

  function SArgs(ts: Tokens): (r: Parsed<seq<Expr>>)
    requires Reads(ts, LParen)
    ensures r.Ok? ==> Size(r.value.1) < Size(ts)
    decreases Size(ts), 2
  {
    var (args, rest) :- SExprs(ts.tail, RParen);
    var done :- Take(rest, RParen);
    Ok((args, done))
  }

  /** A possibly empty comma-separated list, up to its closing symbol. */
  function SExprs(ts: Tokens, closer: Sym): (r: Parsed<seq<Expr>>)
    ensures r.Ok? ==> Size(r.value.1) <= Size(ts)
    decreases Size(ts), 22
  {
    if Reads(ts, closer) then Ok(([], ts)) else SMore(ts, [])
  }

  function SMore(ts: Tokens, acc: seq<Expr>): (r: Parsed<seq<Expr>>)
    ensures r.Ok? ==> Size(r.value.1) < Size(ts)
    decreases Size(ts), 21
  {
    var (e, rest) :- STernary(ts);
    if Reads(rest, Comma) then SMore(rest.tail, acc + [e]) else Ok((acc + [e], rest))
  }

  function SPairs(ts: Tokens, acc: seq<Pair>): (r: Parsed<seq<Pair>>)
    ensures r.Ok? ==> Size(r.value.1) < Size(ts)
    decreases Size(ts), 21
  {
    var (k, r1) :- STernary(ts);
    var r2 :- Take(r1, Colon);
    var (v, r3) :- STernary(r2);
    if Reads(r3, Comma) then SPairs(r3.tail, acc + [Pair(k, v)]) else Ok((acc + [Pair(k, v)], r3))
  }

  function SPrimary(ts: Tokens): (r: Parsed<Expr>)
    ensures r.Ok? ==> Size(r.value.1) < Size(ts)
    decreases Size(ts), 7
  {
    match ts
    case Tok(Num(n), t) => Ok((Lit(IntLit(n)), t))
    case Tok(Str(s), t) => Ok((Lit(StrLit(s)), t))
    case Tok(Ident(name), t) =>
      if IsKeyword(name) then Ok((Lit(Keyword(name)), t))
      else if Reads(t, LParen) then
        var (args, rest) :- SArgs(t);
        Ok((Call(name, args), rest))
      else Ok((Name(name), t))
    case Tok(Punct(LParen), t) =>
      var (node, rest) :- STernary(t);
      var done :- Take(rest, RParen);
      Ok((node, done))
    case Tok(Punct(LBracket), t) =>
      var (items, rest) :- SExprs(t, RBracket);
      var done :- Take(rest, RBracket);
      Ok((ListOf(items), done))
    case Tok(Punct(LBrace), t) =>
      if Reads(t, RBrace) then Ok((MapOf([]), t.tail))
      else
        var (pairs, rest) :- SPairs(t, []);
        var done :- Take(rest, RBrace);
        Ok((MapOf(pairs), done))
    case _ => Err(UnexpectedToken)
  }

  function StrictParse(ts: Tokens): Result<Expr, SyntaxError> {
    var (node, rest) :- STernary(ts);
    if rest.Eof? then Ok(node) else Err(TrailingInput)
  }

  // ---------- where the two can differ ----------

  /** The symbols the parser eats without having looked at the token's kind first. */
  predicate IsCloser(sym: Sym) {
    sym == RParen || sym == RBracket || sym == RBrace || sym == Colon
  }

  /** No string literal is spelled like a closing symbol or a colon. */
  predicate Plain(ts: Tokens) {
    ts.Tok? ==> ts.head !in {Str(")"), Str("]"), Str("}"), Str(":")} && Plain(ts.tail)
  }

  /** One symbol is eaten differently exactly at a string literal of its spelling. */
  lemma {:induction false} EatDiffers(ts: Tokens, sym: Sym)
    requires IsCloser(sym)
    ensures Eat(ts, sym) != Take(ts, sym) <==> ts.Tok? && ts.head == Str(Spell(sym))
    ensures Take(ts, sym).Ok? ==> Eat(ts, sym) == Take(ts, sym)
  {
  }

  /** The strict grammar stopped for want of a symbol. */
  predicate Stopped<T>(strict: Result<T, SyntaxError>) {
    strict.Err? && strict.error.Expected?
  }

  /**
  The results are the same unless the strict one stopped on tokens that are not plain; and plain
  tokens stay plain.
  */
  ghost predicate Stands<T>(ts: Tokens, strict: Parsed<T>, lax: Parsed<T>) {
    && (!Stopped(strict) || Plain(ts) ==> lax == strict)
    && (Plain(ts) && lax.Ok? ==> Plain(lax.value.1))
  }

  lemma {:induction false} EatStands(ts: Tokens, sym: Sym)
    requires IsCloser(sym)
    ensures Take(ts, sym).Ok? || Plain(ts) ==> Eat(ts, sym) == Take(ts, sym)
    ensures Plain(ts) && Eat(ts, sym).Ok? ==> Plain(Eat(ts, sym).value)
  {
  }

  lemma {:induction false} TernaryStands(ts: Tokens)
    ensures Stands(ts, STernary(ts), GTernary(ts))
    decreases Size(ts), 20
  {
    BinaryStands(ts, 0);
    if GBinary(ts, 0).Ok? && Reads(GBinary(ts, 0).value.1, Question) {
      var t1 := GBinary(ts, 0).value.1.tail;
      TernaryStands(t1);
      if GTernary(t1).Ok? {
        var r2 := GTernary(t1).value.1;
        EatStands(r2, Colon);
        if Eat(r2, Colon).Ok? { TernaryStands(Eat(r2, Colon).value); }
      }
    }
  }

  lemma {:induction false} BinaryStands(ts: Tokens, level: nat)
    requires level <= LEVELS
    ensures Stands(ts, SBinary(ts, level), GBinary(ts, level))
    decreases Size(ts), 15 - level
  {
    if level >= LEVELS {
      UnaryStands(ts);
    } else {
      BinaryStands(ts, level + 1);
      if GBinary(ts, level + 1).Ok? {
        var (node, rest) := GBinary(ts, level + 1).value;
        BinaryRestStands(rest, level, node);
      }
    }
  }

  lemma {:induction false} BinaryRestStands(ts: Tokens, level: nat, node: Expr)
    requires level < LEVELS
    ensures Stands(ts, SBinaryRest(ts, level, node), GBinaryRest(ts, level, node))
    decreases Size(ts), 0
  {
    if AtLevel(ts, level) {
      BinaryStands(ts.tail, level + 1);
      if GBinary(ts.tail, level + 1).Ok? {
        var (right, rest) := GBinary(ts.tail, level + 1).value;
        BinaryRestStands(rest, level, Bin(OpAt(ts).value, node, right));
      }
    }
  }

  lemma {:induction false} UnaryStands(ts: Tokens)
    ensures Stands(ts, SUnary(ts), GUnary(ts))
    decreases Size(ts), 9
  {
    if Reads(ts, Bang) || Reads(ts, Op(Sub)) {
      UnaryStands(ts.tail);
    } else {
      PrimaryStands(ts);
      if GPrimary(ts).Ok? { PostfixStands(GPrimary(ts).value.1, GPrimary(ts).value.0); }
    }
  }

  lemma {:induction false} PostfixStands(ts: Tokens, node: Expr)
    ensures Stands(ts, SPostfixRest(ts, node), GPostfixRest(ts, node))
    decreases Size(ts), 1
  {
    if Reads(ts, Dot) {
      match ts.tail
      case Tok(Ident(name), rest) =>
        assert Size(ts.tail) == 1 + Size(rest);
        if Reads(rest, LParen) {
          MethodStands(name, rest, node);
        } else {
          SelectStands(name, rest, node);
        }
      case _ =>
    } else if Reads(ts, LBracket) {
      IndexStands(ts, node);
    }
  }

  lemma {:induction false} IndexStands(ts: Tokens, node: Expr)
    requires Reads(ts, LBracket)
    ensures Stands(ts, SPostfixRest(ts, node), GPostfixRest(ts, node))
    decreases Size(ts), 0
  {
    TernaryStands(ts.tail);
    if GTernary(ts.tail).Ok? {
      var (index, r1) := GTernary(ts.tail).value;
      EatStands(r1, RBracket);
      if Eat(r1, RBracket).Ok? { PostfixStands(Eat(r1, RBracket).value, Index(node, index)); }
    }
  }

  lemma {:induction false} AfterDot(name: Word, rest: Tokens) returns (ts: Tokens)
    ensures ts == Tok(Punct(Dot), Tok(Ident(name), rest)) && Size(ts) == 2 + Size(rest)
    ensures Plain(ts) <==> Plain(rest)
  {
    ts := Tok(Punct(Dot), Tok(Ident(name), rest));
    assert Plain(ts) <==> Plain(ts.tail);
    assert Size(ts) == 1 + Size(ts.tail);
  }

  lemma {:induction false} SelectStands(name: Word, rest: Tokens, node: Expr)
    requires !Reads(rest, LParen)
    ensures var ts := Tok(Punct(Dot), Tok(Ident(name), rest));
      Stands(ts, SPostfixRest(ts, node), GPostfixRest(ts, node))
    decreases 2 + Size(rest), 0
  {
    var ts := AfterDot(name, rest);
    PostfixStands(rest, Select(node, name));
    assert SPostfixRest(ts, node) == SPostfixRest(rest, Select(node, name));
    assert GPostfixRest(ts, node) == GPostfixRest(rest, Select(node, name));
  }

  lemma {:induction false} MethodStands(name: Word, rest: Tokens, node: Expr)
    requires Reads(rest, LParen)
    ensures var ts := Tok(Punct(Dot), Tok(Ident(name), rest));
      Stands(ts, SPostfixRest(ts, node), GPostfixRest(ts, node))
    decreases 2 + Size(rest), 0
  {
    var ts := AfterDot(name, rest);
    ArgsStand(rest);
    if GArgs(rest).Ok? {
      var (args, after) := GArgs(rest).value;
      PostfixStands(after, Call(name, [node] + args));
    }
  }

  lemma {:induction false} ArgsStand(ts: Tokens)
    requires Reads(ts, LParen)
    ensures Stands(ts, SArgs(ts), GArgs(ts))
    decreases Size(ts), 2
  {
    ExprsStand(ts.tail, RParen);
    if GExprs(ts.tail, RParen).Ok? { EatStands(GExprs(ts.tail, RParen).value.1, RParen); }
  }

  lemma {:induction false} ExprsStand(ts: Tokens, closer: Sym)
    ensures Stands(ts, SExprs(ts, closer), GExprs(ts, closer))
    decreases Size(ts), 22
  {
    if !Reads(ts, closer) { MoreStand(ts, []); }
  }

  lemma {:induction false} MoreStand(ts: Tokens, acc: seq<Expr>)
    ensures Stands(ts, SMore(ts, acc), GMore(ts, acc))
    decreases Size(ts), 21
  {
    TernaryStands(ts);
    if GTernary(ts).Ok? {
      var (e, rest) := GTernary(ts).value;
      if Reads(rest, Comma) { MoreStand(rest.tail, acc + [e]); }
    }
  }

  lemma {:induction false} PairsStand(ts: Tokens, acc: seq<Pair>)
    ensures Stands(ts, SPairs(ts, acc), GPairs(ts, acc))
    decreases Size(ts), 21
  {
    TernaryStands(ts);
    if GTernary(ts).Ok? {
      var (k, r1) := GTernary(ts).value;
      EatStands(r1, Colon);
      if Eat(r1, Colon).Ok? {
        var r2 := Eat(r1, Colon).value;
        TernaryStands(r2);
        if GTernary(r2).Ok? {
          var (v, r3) := GTernary(r2).value;
          if Reads(r3, Comma) { PairsStand(r3.tail, acc + [Pair(k, v)]); }
        }
      }
    }
  }

  lemma {:induction false} PrimaryStands(ts: Tokens)
    ensures Stands(ts, SPrimary(ts), GPrimary(ts))
    decreases Size(ts), 7
  {
    match ts
    case Tok(Ident(name), t) => CallStands(name, t);
    case Tok(Punct(LParen), t) => GroupStands(t);
    case Tok(Punct(LBracket), t) => ListStands(t);
    case Tok(Punct(LBrace), t) => MapStands(t);
    case _ =>
  }

  lemma {:induction false} CallStands(name: Word, t: Tokens)
    ensures var ts := Tok(Ident(name), t); Stands(ts, SPrimary(ts), GPrimary(ts))
    decreases 1 + Size(t), 6
  {
    var ts := Tok(Ident(name), t);
    assert Plain(ts) <==> Plain(t);
    if !IsKeyword(name) && Reads(t, LParen) { ArgsStand(t); }
  }

  lemma {:induction false} GroupStands(t: Tokens)
    ensures var ts := Tok(Punct(LParen), t); Stands(ts, SPrimary(ts), GPrimary(ts))
    decreases 1 + Size(t), 6
  {
    var ts := Tok(Punct(LParen), t);
    assert Plain(ts) <==> Plain(t);
    TernaryStands(t);
    if GTernary(t).Ok? { EatStands(GTernary(t).value.1, RParen); }
  }

  lemma {:induction false} ListStands(t: Tokens)
    ensures var ts := Tok(Punct(LBracket), t); Stands(ts, SPrimary(ts), GPrimary(ts))
    decreases 1 + Size(t), 6
  {
    var ts := Tok(Punct(LBracket), t);
    assert Plain(ts) <==> Plain(t);
    ExprsStand(t, RBracket);
    if GExprs(t, RBracket).Ok? { EatStands(GExprs(t, RBracket).value.1, RBracket); }
  }

  lemma {:induction false} MapStands(t: Tokens)
    ensures var ts := Tok(Punct(LBrace), t); Stands(ts, SPrimary(ts), GPrimary(ts))
    decreases 1 + Size(t), 6
  {
    var ts := Tok(Punct(LBrace), t);
    assert Plain(ts) <==> Plain(t);
    if Reads(t, RBrace) {
      assert Plain(t) ==> Plain(t.tail);
    } else {
      PairsStand(t, []);
      if GPairs(t, []).Ok? { EatStands(GPairs(t, []).value.1, RBrace); }
    }
  }

  /** Without such literals the parser is the strict one, results and errors alike. */
  lemma {:induction false} PlainParsesStrictly(ts: Tokens)
    requires Plain(ts)
    ensures ParseTokens(ts) == StrictParse(ts)
  {
    TernaryStands(ts);
  }

  /**
  On any tokens whatever, what the strict grammar accepts is parsed to the same tree, and what
  it rejects for any other reason than a missing symbol is rejected with the same error.
  */
  lemma {:induction false} DiffersOnlyWhereStopped(ts: Tokens)
    ensures ParseTokens(ts) == StrictParse(ts) || (Stopped(StrictParse(ts)) && !Plain(ts))
  {
    TernaryStands(ts);
  }
}
