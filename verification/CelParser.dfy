/** The cursor parser of app/policy_as_code/cel.py, proved to follow the grammar of CelSyntax. */
module CelParser {
  import opened Common
  import opened CelSyntax

  /** The parser's answer and final cursor are what the grammar gives on the tokens it started from. */
  predicate Agrees<T(==)>(g: Parsed<T>, r: Result<T, SyntaxError>, rest: Tokens) {
    if r.Ok? then g == Ok((r.value, rest)) else g == Err(r.error)
  }

  /** The tokens from position `i` to the end marker. */
  function From(t: seq<Token>, i: nat): Tokens
    requires i <= |t|
    decreases |t| - i
  {
    if i == |t| then Eof else Tok(t[i], From(t, i + 1))
  }

  class Parser {
    const t: seq<Token>
    var i: nat

    constructor (tokens: seq<Token>)
      ensures t == tokens && i == 0
    {
      t := tokens;
      i := 0;
    }

    /** The cursor is on a token or on the end marker, at |t|, which nothing steps over. */
    predicate Ready()
      reads this
    {
      i <= |t|
    }

    function Rest(): Tokens
      requires Ready()
      reads this
    {
      From(t, i)
    }

    predicate At(sym: Sym)
      requires Ready()
      reads this
    {
      Reads(Rest(), sym)
    }

    /** Steps over a token. */
    method Skip()
      requires i < |t|
      modifies this
      ensures Ready() && i == old(i) + 1 && From(t, old(i)) == Tok(t[old(i)], Rest())
    {
      i := i + 1;
    }

    method EatSym(sym: Sym) returns (r: Result<(), SyntaxError>)
      requires Ready()
      modifies this
      ensures Ready() && old(i) <= i && (r.Ok? ==> old(i) < i)
      ensures Eat(From(t, old(i)), sym) == if r.Ok? then Ok(Rest()) else Err(r.error)
    {
      if !Eats(Rest(), sym) {
        return Err(Expected(sym));
      }
      Skip();
      r := Ok(());
    }

    method Parse() returns (r: Result<Expr, SyntaxError>)
      requires Ready() && i == 0
      modifies this
      ensures r == ParseTokens(From(t, 0))
    {
      r := Ternary();
      if r.Ok? && i != |t| {
        r := Err(TrailingInput);
      }
    }

    method Ternary() returns (r: Result<Expr, SyntaxError>)
      requires Ready()
      modifies this
      ensures Ready() && old(i) <= i && (r.Ok? ==> old(i) < i)
      ensures Agrees(GTernary(From(t, old(i))), r, Rest())
      decreases |t| - i, 20
    {
      var cond :- Binary(0);
      if !At(Question) {
        return Ok(cond);
      }
      Skip();
      var yes :- Ternary();
      var _ :- EatSym(Colon);
      var no :- Ternary();
      r := Ok(Cond(cond, yes, no));
    }

    method Binary(level: nat) returns (r: Result<Expr, SyntaxError>)
      requires Ready() && level <= LEVELS
      modifies this
      ensures Ready() && old(i) <= i && (r.Ok? ==> old(i) < i)
      ensures Agrees(GBinary(From(t, old(i)), level), r, Rest())
      decreases |t| - i, 15 - level
    {
      if level >= LEVELS {
        r := Unary();
        return;
      }
      var node :- Binary(level + 1);
      while AtLevel(Rest(), level)
        invariant Ready() && old(i) < i
        invariant GBinary(From(t, old(i)), level) == GBinaryRest(Rest(), level, node)
        decreases |t| - i
      {
        var op := OpAt(Rest()).value;
        Skip();
        var right :- Binary(level + 1);
        node := Bin(op, node, right);
      }
      r := Ok(node);
    }

    method Unary() returns (r: Result<Expr, SyntaxError>)
      requires Ready()
      modifies this
      ensures Ready() && old(i) <= i && (r.Ok? ==> old(i) < i)
      ensures Agrees(GUnary(From(t, old(i))), r, Rest())
      decreases |t| - i, 9
    {
      if At(Bang) {
        Skip();
        var arg :- Unary();
        return Ok(Not(arg));
      }
      if At(Op(Sub)) {
        Skip();
        var arg :- Unary();
        return Ok(Neg(arg));
      }
      r := Postfix();
    }

    method Postfix() returns (r: Result<Expr, SyntaxError>)
      requires Ready()
      modifies this
      ensures Ready() && old(i) <= i && (r.Ok? ==> old(i) < i)
      ensures Agrees(GPostfix(From(t, old(i))), r, Rest())
      decreases |t| - i, 8
    {
      var node :- Primary();
      while At(Dot) || At(LBracket)
        invariant Ready() && old(i) < i
        invariant GPostfix(From(t, old(i))) == GPostfixRest(Rest(), node)
        decreases |t| - i
      {
        node :- Suffix(node);
      }
      r := Ok(node);
    }

    /** One selection, method call or indexing after `node`. */
    method Suffix(node: Expr) returns (r: Result<Expr, SyntaxError>)
      requires Ready() && (At(Dot) || At(LBracket))
      modifies this
      ensures Ready() && old(i) <= i && (r.Ok? ==> old(i) < i)
      ensures GPostfixRest(From(t, old(i)), node) == if r.Ok? then GPostfixRest(Rest(), r.value) else Err(r.error)
      decreases |t| - i, 3
    {
      if At(Dot) {
        Skip();
        if i == |t| || !t[i].Ident? {
          return Err(ExpectedFieldName);
        }
        var name := t[i].name;
        Skip();
        if At(LParen) {
          var args :- ArgList();
          r := Ok(Call(name, [node] + args));
        } else {
          r := Ok(Select(node, name));
        }
      } else {
        Skip();
        var index :- Ternary();
        var _ :- EatSym(RBracket);
        r := Ok(Index(node, index));
      }
    }

    method ArgList() returns (r: Result<seq<Expr>, SyntaxError>)
      requires Ready() && At(LParen)
      modifies this
      ensures Ready() && old(i) <= i && (r.Ok? ==> old(i) < i)
      ensures Agrees(GArgs(From(t, old(i))), r, Rest())
      decreases |t| - i, 2
    {
      Skip();
      var args :- Items(RParen);
      var _ :- EatSym(RParen);
      r := Ok(args);
    }

    /** Comma-separated expressions up to, but not including, `closer`. */
    method Items(closer: Sym) returns (r: Result<seq<Expr>, SyntaxError>)
      requires Ready()
      modifies this
      ensures Ready() && old(i) <= i
      ensures Agrees(GExprs(From(t, old(i)), closer), r, Rest())
      decreases |t| - i, 22
    {
      if At(closer) {
        return Ok([]);
      }
      var first :- Ternary();
      var items := [first];
      assert [] + [first] == items;
      while At(Comma)
        invariant Ready() && old(i) < i
        invariant GMore(From(t, old(i)), []) == if At(Comma) then GMore(Rest().tail, items) else Ok((items, Rest()))
        decreases |t| - i
      {
        Skip();
        var e :- Ternary();
        items := items + [e];
      }
      r := Ok(items);
    }

    method Primary() returns (r: Result<Expr, SyntaxError>)
      requires Ready()
      modifies this
      ensures Ready() && old(i) <= i && (r.Ok? ==> old(i) < i)
      ensures Agrees(GPrimary(From(t, old(i))), r, Rest())
      decreases |t| - i, 7
    {
      if i == |t| {
        return Err(UnexpectedToken);
      }
      match t[i]
      case Num(n) =>
        Skip();
        r := Ok(Lit(IntLit(n)));
      case Str(s) =>
        Skip();
        r := Ok(Lit(StrLit(s)));
      case Ident(name) =>
        Skip();
        if IsKeyword(name) {
          return Ok(Lit(Keyword(name)));
        }
        if At(LParen) {
          var args :- ArgList();
          return Ok(Call(name, args));
        }
        r := Ok(Name(name));
      case Punct(LParen) =>
        Skip();
        var node :- Ternary();
        var _ :- EatSym(RParen);
        r := Ok(node);
      case Punct(LBracket) =>
        Skip();
        var items :- Items(RBracket);
        var _ :- EatSym(RBracket);
        r := Ok(ListOf(items));
      case Punct(LBrace) =>
        r := MapLiteral();
      case _ =>
        r := Err(UnexpectedToken);
    }

    method MapLiteral() returns (r: Result<Expr, SyntaxError>)
      requires i < |t| && t[i] == Punct(LBrace)
      modifies this
      ensures Ready() && old(i) <= i && (r.Ok? ==> old(i) < i)
      ensures Agrees(GPrimary(From(t, old(i))), r, Rest())
      decreases |t| - i, 6
    {
      Skip();
      if At(RBrace) {
        Skip();
        return Ok(MapOf([]));
      }
      var pairs: seq<Pair> := [];
      ghost var whole := GPairs(Rest(), []);
      var more := true;
      while more
        invariant Ready() && old(i) < i
        invariant whole == if more then GPairs(Rest(), pairs) else Ok((pairs, Rest()))
        decreases |t| - i, more
      {
        var key :- Ternary();
        var _ :- EatSym(Colon);
        var value :- Ternary();
        pairs := pairs + [Pair(key, value)];
        more := At(Comma);
        if more {
          Skip();
        }
      }
      var _ :- EatSym(RBrace);
      r := Ok(MapOf(pairs));
    }
  }
}
