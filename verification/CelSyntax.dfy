/**
The expression language of app/policy_as_code/cel.py: tokens, trees, the grammar its
precedence-climbing parser follows, a minimally parenthesising printer, and the proof
that parsing undoes printing.
*/
module CelSyntax {
  import opened Common

  datatype BinOp = Or | And | Eq | Ne | Lt | Le | Gt | Ge | In | Add | Sub | Mul | Div | Mod

  datatype Sym =
    | Op(op: BinOp)
    | Bang | LParen | RParen | LBracket | RBracket | LBrace | RBrace | Comma | Dot | Colon | Question

  predicate IsWord(s: string) {
    && s != ""
    && (forall k :: 0 <= k < |s| ==> IsWordChar(s[k]) || '0' <= s[k] <= '9')
    && IsWordChar(s[0])
  }

  predicate IsWordChar(c: char) {
    c == '_' || 'a' <= c <= 'z' || 'A' <= c <= 'Z' || c >= '\U{0080}'
  }

  /** What the lexer makes identifiers of; no punctuation is spelled like one, and only `in` is an operator. */
  type Word = s: string | IsWord(s) witness "x"

  datatype Token = Num(n: nat) | Str(s: string) | Ident(name: Word) | Punct(sym: Sym)

  /** What is left to parse: tokens up to the end marker the lexer appends. */
  datatype Tokens = Eof | Tok(head: Token, tail: Tokens)

  datatype Literal = IntLit(n: nat) | StrLit(s: string) | BoolLit(b: bool) | NullLit

  datatype Pair = Pair(key: Expr, value: Expr)

  datatype Expr =
    | Lit(lit: Literal)
    | Name(name: Word)
    | ListOf(items: seq<Expr>)
    | MapOf(pairs: seq<Pair>)
    | Not(arg: Expr)
    | Neg(arg: Expr)
    | Cond(test: Expr, yes: Expr, no: Expr)
    | Select(base: Expr, field: Word)
    | Index(base: Expr, index: Expr)
    | Bin(op: BinOp, left: Expr, right: Expr)
    | Call(fn: Word, args: seq<Expr>)

  datatype SyntaxError = Expected(sym: Sym) | TrailingInput | ExpectedFieldName | UnexpectedToken

  type Parsed<T> = Result<(T, Tokens), SyntaxError>

  const IN: Word := "in"
  const TRUE: Word := "true"
  const FALSE: Word := "false"
  const NULL: Word := "null"

  function Spell(sym: Sym): string {
    match sym
    case Op(Or) => "||" case Op(And) => "&&" case Op(Eq) => "==" case Op(Ne) => "!="
    case Op(Lt) => "<" case Op(Le) => "<=" case Op(Gt) => ">" case Op(Ge) => ">=" case Op(In) => IN
    case Op(Add) => "+" case Op(Sub) => "-" case Op(Mul) => "*" case Op(Div) => "/" case Op(Mod) => "%"
    case Bang => "!" case LParen => "(" case RParen => ")" case LBracket => "[" case RBracket => "]"
    case LBrace => "{" case RBrace => "}" case Comma => "," case Dot => "." case Colon => ":" case Question => "?"
  }

  /** The index of an operator's row in the precedence table. */
  function OpLevel(op: BinOp): nat {
    match op
    case Or => 0
    case And => 1
    case Add => 3 case Sub => 3
    case Mul => 4 case Div => 4 case Mod => 4
    case _ => 2
  }

  const LEVELS := 5

  function Size(ts: Tokens): nat {
    if ts.Eof? then 0 else 1 + Size(ts.tail)
  }

  function OpAt(ts: Tokens): Option<BinOp> {
    match ts
    case Tok(Punct(Op(op)), _) => Some(op)
    case Tok(Ident(name), _) => if name == IN then Some(In) else None
    case _ => None
  }

  /** `at` compares a token's kind and value. */
  predicate Reads(ts: Tokens, sym: Sym) {
    ts.Tok? && (ts.head == Punct(sym) || (sym == Op(In) && ts.head == Ident(IN)))
  }

  /** `eat` compares only the value, so a string literal spelled like the symbol passes too. */
  predicate Eats(ts: Tokens, sym: Sym) {
    Reads(ts, sym) || (ts.Tok? && ts.head == Str(Spell(sym)))
  }

  predicate IsKeyword(name: Word) {
    name == TRUE || name == FALSE || name == NULL
  }

  function Keyword(name: Word): Literal
    requires IsKeyword(name)
  {
    if name == TRUE then BoolLit(true) else if name == FALSE then BoolLit(false) else NullLit
  }

  // ---------- the grammar, on what is left of the tokens ----------

  function Eat(ts: Tokens, sym: Sym): (r: Result<Tokens, SyntaxError>)
    ensures r.Ok? ==> Size(r.value) < Size(ts)
  {
    if Eats(ts, sym) then Ok(ts.tail) else Err(Expected(sym))
  }

  function GTernary(ts: Tokens): (r: Parsed<Expr>)
    ensures r.Ok? ==> Size(r.value.1) < Size(ts)
    decreases Size(ts), 20
  {
    var (cond, r1) :- GBinary(ts, 0);
    if Reads(r1, Question) then
      var (yes, r2) :- GTernary(r1.tail);
      var r3 :- Eat(r2, Colon);
      var (no, r4) :- GTernary(r3);
      Ok((Cond(cond, yes, no), r4))
    else
      Ok((cond, r1))
  }

  function GBinary(ts: Tokens, level: nat): (r: Parsed<Expr>)
    requires level <= LEVELS
    ensures r.Ok? ==> Size(r.value.1) < Size(ts)
    decreases Size(ts), 15 - level
  {
    if level >= LEVELS then GUnary(ts)
    else
      var (node, rest) :- GBinary(ts, level + 1);
      GBinaryRest(rest, level, node)
  }

  /** Does an operator of this level come next? */
  predicate AtLevel(ts: Tokens, level: nat) {
    OpAt(ts).Some? && OpLevel(OpAt(ts).value) == level
  }

  function GBinaryRest(ts: Tokens, level: nat, node: Expr): (r: Parsed<Expr>)
    requires level < LEVELS
    ensures r.Ok? ==> Size(r.value.1) <= Size(ts)
    decreases Size(ts), 0
  {
    if AtLevel(ts, level) then
      var (right, rest) :- GBinary(ts.tail, level + 1);
      GBinaryRest(rest, level, Bin(OpAt(ts).value, node, right))
    else
      Ok((node, ts))
  }

  function GUnary(ts: Tokens): (r: Parsed<Expr>)
    ensures r.Ok? ==> Size(r.value.1) < Size(ts)
    decreases Size(ts), 9
  {
    if Reads(ts, Bang) then
      var (arg, rest) :- GUnary(ts.tail);
      Ok((Not(arg), rest))
    else if Reads(ts, Op(Sub)) then
      var (arg, rest) :- GUnary(ts.tail);
      Ok((Neg(arg), rest))
    else
      GPostfix(ts)
  }

  function GPostfix(ts: Tokens): (r: Parsed<Expr>)
    ensures r.Ok? ==> Size(r.value.1) < Size(ts)
    decreases Size(ts), 8
  {
    var (node, rest) :- GPrimary(ts);
    GPostfixRest(rest, node)
  }

  function GPostfixRest(ts: Tokens, node: Expr): (r: Parsed<Expr>)
    ensures r.Ok? ==> Size(r.value.1) <= Size(ts)
    decreases Size(ts), 0
  {
    if Reads(ts, Dot) then
      match ts.tail
      case Tok(Ident(name), rest) =>
        assert Size(ts.tail) == 1 + Size(rest);
        if Reads(rest, LParen) then
          var (args, after) :- GArgs(rest);
          GPostfixRest(after, Call(name, [node] + args))
        else
          GPostfixRest(rest, Select(node, name))
      case _ => Err(ExpectedFieldName)
    else if Reads(ts, LBracket) then
      var (index, r1) :- GTernary(ts.tail);
      var r2 :- Eat(r1, RBracket);
      GPostfixRest(r2, Index(node, index))
    else
      Ok((node, ts))
  }

  function GArgs(ts: Tokens): (r: Parsed<seq<Expr>>)
    requires Reads(ts, LParen)
    ensures r.Ok? ==> Size(r.value.1) < Size(ts)
    decreases Size(ts), 2
  {
    var (args, rest) :- GExprs(ts.tail, RParen);
    var done :- Eat(rest, RParen);
    Ok((args, done))
  }

  /** A possibly empty comma-separated list, up to its closing symbol. */
  function GExprs(ts: Tokens, closer: Sym): (r: Parsed<seq<Expr>>)
    ensures r.Ok? ==> Size(r.value.1) <= Size(ts)
    decreases Size(ts), 22
  {
    if Reads(ts, closer) then Ok(([], ts)) else GMore(ts, [])
  }

  function GMore(ts: Tokens, acc: seq<Expr>): (r: Parsed<seq<Expr>>)
    ensures r.Ok? ==> Size(r.value.1) < Size(ts)
    decreases Size(ts), 21
  {
    var (e, rest) :- GTernary(ts);
    if Reads(rest, Comma) then GMore(rest.tail, acc + [e]) else Ok((acc + [e], rest))
  }

  function GPairs(ts: Tokens, acc: seq<Pair>): (r: Parsed<seq<Pair>>)
    ensures r.Ok? ==> Size(r.value.1) < Size(ts)
    decreases Size(ts), 21
  {
    var (k, r1) :- GTernary(ts);
    var r2 :- Eat(r1, Colon);
    var (v, r3) :- GTernary(r2);
    if Reads(r3, Comma) then GPairs(r3.tail, acc + [Pair(k, v)]) else Ok((acc + [Pair(k, v)], r3))
  }

  function GPrimary(ts: Tokens): (r: Parsed<Expr>)
    ensures r.Ok? ==> Size(r.value.1) < Size(ts)
    decreases Size(ts), 7
  {
    match ts
    case Tok(Num(n), t) => Ok((Lit(IntLit(n)), t))
    case Tok(Str(s), t) => Ok((Lit(StrLit(s)), t))
    case Tok(Ident(name), t) =>
      if IsKeyword(name) then Ok((Lit(Keyword(name)), t))
      else if Reads(t, LParen) then
        var (args, rest) :- GArgs(t);
        Ok((Call(name, args), rest))
      else Ok((Name(name), t))
    case Tok(Punct(LParen), t) =>
      var (node, rest) :- GTernary(t);
      var done :- Eat(rest, RParen);
      Ok((node, done))
    case Tok(Punct(LBracket), t) =>
      var (items, rest) :- GExprs(t, RBracket);
      var done :- Eat(rest, RBracket);
      Ok((ListOf(items), done))
    case Tok(Punct(LBrace), t) =>
      if Reads(t, RBrace) then Ok((MapOf([]), t.tail))
      else
        var (pairs, rest) :- GPairs(t, []);
        var done :- Eat(rest, RBrace);
        Ok((MapOf(pairs), done))
    case _ => Err(UnexpectedToken)
  }

  function ParseTokens(ts: Tokens): Result<Expr, SyntaxError> {
    var (node, rest) :- GTernary(ts);
    if rest.Eof? then Ok(node) else Err(TrailingInput)
  }

  // ---------- printing ----------

  /** A keyword names a literal, never a variable, and is called only as a method. */
  predicate Printable(e: Expr) {
    match e
    case Lit(_) => true
    case Name(name) => !IsKeyword(name)
    case ListOf(items) => forall k :: 0 <= k < |items| ==> Printable(items[k])
    case MapOf(pairs) => forall k :: 0 <= k < |pairs| ==> Printable(pairs[k].key) && Printable(pairs[k].value)
    case Not(x) => Printable(x)
    case Neg(x) => Printable(x)
    case Cond(c, a, b) => Printable(c) && Printable(a) && Printable(b)
    case Select(b, _) => Printable(b)
    case Index(b, i) => Printable(b) && Printable(i)
    case Bin(_, l, r) => Printable(l) && Printable(r)
    case Call(name, args) =>
      (IsKeyword(name) ==> args != []) && forall k :: 0 <= k < |args| ==> Printable(args[k])
  }

  predicate AllPrintable(es: seq<Expr>) {
    forall k :: 0 <= k < |es| ==> Printable(es[k])
  }

  predicate PairsPrintable(ps: seq<Pair>) {
    forall k :: 0 <= k < |ps| ==> Printable(ps[k].key) && Printable(ps[k].value)
  }

  /** How tightly a tree binds: 0 ternary, 1 to 5 the binary levels, 6 unary, 7 postfix, 8 primary. */
  function Tightness(e: Expr): nat {
    match e
    case Cond(_, _, _) => 0
    case Bin(op, _, _) => OpLevel(op) + 1
    case Not(_) => 6
    case Neg(_) => 6
    case Select(_, _) => 7
    case Index(_, _) => 7
    case Call(name, args) => if IsKeyword(name) && args != [] then 7 else 8
    case _ => 8
  }

  function OpToken(op: BinOp): Token {
    if op == In then Ident(IN) else Punct(Op(op))
  }

  function LitToken(lit: Literal): Token {
    match lit
    case IntLit(n) => Num(n)
    case StrLit(s) => Str(s)
    case BoolLit(b) => Ident(if b then TRUE else FALSE)
    case NullLit => Ident(NULL)
  }

  /** The tokens of `e`, where something at least as tight as `level` is wanted, in front of `rest`. */
  function Print(e: Expr, level: nat, rest: Tokens): (ts: Tokens)
    ensures ts.Tok?
    decreases e, 1
  {
    if Tightness(e) < level then Tok(Punct(LParen), Bare(e, Tok(Punct(RParen), rest))) else Bare(e, rest)
  }

  function Bare(e: Expr, rest: Tokens): (ts: Tokens)
    ensures ts.Tok?
    decreases e, 0
  {
    match e
    case Lit(lit) => Tok(LitToken(lit), rest)
    case Name(name) => Tok(Ident(name), rest)
    case ListOf(items) => Tok(Punct(LBracket), PrintAll(items, Tok(Punct(RBracket), rest)))
    case MapOf(pairs) => Tok(Punct(LBrace), PrintPairs(pairs, Tok(Punct(RBrace), rest)))
    case Not(x) => Tok(Punct(Bang), Print(x, 6, rest))
    case Neg(x) => Tok(Punct(Op(Sub)), Print(x, 6, rest))
    case Cond(c, a, b) => Print(c, 1, Tok(Punct(Question), Print(a, 0, Tok(Punct(Colon), Print(b, 0, rest)))))
    case Select(b, name) => Print(b, 7, Tok(Punct(Dot), Tok(Ident(name), rest)))
    case Index(b, i) => Print(b, 7, Tok(Punct(LBracket), Print(i, 0, Tok(Punct(RBracket), rest))))
    case Bin(op, l, r) => Print(l, OpLevel(op) + 1, Tok(OpToken(op), Print(r, OpLevel(op) + 2, rest)))
    case Call(name, args) =>
      if IsKeyword(name) && args != [] then
        Print(args[0], 7, Tok(Punct(Dot), Tok(Ident(name), PrintArgs(args[1..], rest))))
      else
        Tok(Ident(name), PrintArgs(args, rest))
  }

  function PrintArgs(args: seq<Expr>, rest: Tokens): (ts: Tokens)
    ensures Reads(ts, LParen)
    decreases args, 1
  {
    Tok(Punct(LParen), PrintAll(args, Tok(Punct(RParen), rest)))
  }

  function PrintAll(es: seq<Expr>, rest: Tokens): Tokens
    decreases es, 0
  {
    if es == [] then rest
    else Print(es[0], 0, if |es| == 1 then rest else Tok(Punct(Comma), PrintAll(es[1..], rest)))
  }

  function PrintPair(p: Pair, rest: Tokens): (ts: Tokens)
    ensures ts.Tok?
    decreases p, 0
  {
    Print(p.key, 0, Tok(Punct(Colon), Print(p.value, 0, rest)))
  }

  function PrintPairs(ps: seq<Pair>, rest: Tokens): Tokens
    decreases ps, 0
  {
    if ps == [] then rest
    else PrintPair(ps[0], if |ps| == 1 then rest else Tok(Punct(Comma), PrintPairs(ps[1..], rest)))
  }

  // ---------- parsing what was printed ----------

  /** The loosest construct that would absorb what comes next after a complete operand; -1 when none does. */
  function Binds(ts: Tokens): int {
    match ts
    case Tok(Punct(Op(op)), _) => OpLevel(op) + 1
    case Tok(Ident(name), _) => if name == IN then 3 else -1
    case Tok(Punct(Question), _) => 0
    case Tok(Punct(Dot), _) => 7
    case Tok(Punct(LBracket), _) => 7
    case Tok(Punct(LParen), _) => 8
    case _ => -1
  }

  /** `rest` can follow an operand printed at `level`. */
  predicate Follows(rest: Tokens, level: int) {
    Binds(rest) < level
  }

  /** In the measures below, a tree printed in parentheses ranks above the same tree printed bare. */
  function Rank(e: Expr, level: nat): nat {
    if Tightness(e) < level then 1 else 0
  }

  // Each construct of the grammar, from what its parts parse to.

  lemma {:induction false} CondStep(ts: Tokens, c: Expr, t1: Tokens, a: Expr, t2: Tokens, b: Expr, rest: Tokens)
    requires GBinary(ts, 0) == Ok((c, Tok(Punct(Question), t1)))
    requires GTernary(t1) == Ok((a, Tok(Punct(Colon), t2)))
    requires GTernary(t2) == Ok((b, rest))
    ensures GTernary(ts) == Ok((Cond(c, a, b), rest))
  {
  }

  lemma {:induction false} NoCondStep(ts: Tokens, e: Expr, rest: Tokens)
    requires Follows(rest, 0) && GBinary(ts, 0) == Ok((e, rest))
    ensures GTernary(ts) == Ok((e, rest))
  {
    assert !Reads(rest, Question);
  }

  lemma {:induction false} OperatorStep(left: Expr, op: BinOp, t1: Tokens, right: Expr, rest: Tokens)
    requires GBinary(t1, OpLevel(op) + 1) == Ok((right, rest))
    ensures GBinaryRest(Tok(OpToken(op), t1), OpLevel(op), left) == GBinaryRest(rest, OpLevel(op), Bin(op, left, right))
  {
    assert OpAt(Tok(OpToken(op), t1)) == Some(op);
  }

  lemma {:induction false} DeeperStep(ts: Tokens, level: nat, e: Expr, rest: Tokens)
    requires level < LEVELS && GBinary(ts, level + 1) == Ok((e, rest))
    ensures GBinary(ts, level) == GBinaryRest(rest, level, e)
  {
  }

  lemma {:induction false} PrefixStep(t1: Tokens, x: Expr, rest: Tokens)
    requires GUnary(t1) == Ok((x, rest))
    ensures GUnary(Tok(Punct(Bang), t1)) == Ok((Not(x), rest))
    ensures GUnary(Tok(Punct(Op(Sub)), t1)) == Ok((Neg(x), rest))
  {
  }

  lemma {:induction false} PostfixStep(ts: Tokens, e: Expr, rest: Tokens)
    requires GPrimary(ts) == Ok((e, rest))
    ensures GPostfix(ts) == GPostfixRest(rest, e)
  {
  }

  lemma {:induction false} NoSuffixStep(ts: Tokens, e: Expr, rest: Tokens)
    requires Follows(rest, 7) && GPostfix(ts) == GPostfixRest(rest, e)
    requires !Reads(ts, Bang) && !Reads(ts, Op(Sub))
    ensures GUnary(ts) == Ok((e, rest))
  {
  }

  lemma {:induction false} SelectStep(b: Expr, name: Word, rest: Tokens)
    requires Follows(rest, 8)
    ensures GPostfixRest(Tok(Punct(Dot), Tok(Ident(name), rest)), b) == GPostfixRest(rest, Select(b, name))
  {
  }

  lemma {:induction false} IndexStep(b: Expr, t1: Tokens, i: Expr, rest: Tokens)
    requires GTernary(t1) == Ok((i, Tok(Punct(RBracket), rest)))
    ensures GPostfixRest(Tok(Punct(LBracket), t1), b) == GPostfixRest(rest, Index(b, i))
  {
  }

  lemma {:induction false} MethodStep(b: Expr, name: Word, t2: Tokens, args: seq<Expr>, rest: Tokens)
    requires Reads(t2, LParen) && GArgs(t2) == Ok((args, rest))
    ensures GPostfixRest(Tok(Punct(Dot), Tok(Ident(name), t2)), b) == GPostfixRest(rest, Call(name, [b] + args))
  {
  }

  lemma {:induction false} GroupStep(t1: Tokens, e: Expr, rest: Tokens)
    requires GTernary(t1) == Ok((e, Tok(Punct(RParen), rest)))
    ensures GPrimary(Tok(Punct(LParen), t1)) == Ok((e, rest))
  {
  }

  lemma {:induction false} ArgsStep(t1: Tokens, args: seq<Expr>, rest: Tokens)
    requires GExprs(t1, RParen) == Ok((args, Tok(Punct(RParen), rest)))
    ensures GArgs(Tok(Punct(LParen), t1)) == Ok((args, rest))
  {
  }

  lemma {:induction false} CallStep(name: Word, t1: Tokens, args: seq<Expr>, rest: Tokens)
    requires !IsKeyword(name) && Reads(t1, LParen) && GArgs(t1) == Ok((args, rest))
    ensures GPrimary(Tok(Ident(name), t1)) == Ok((Call(name, args), rest))
  {
  }

  lemma {:induction false} ListStep(t1: Tokens, items: seq<Expr>, rest: Tokens)
    requires GExprs(t1, RBracket) == Ok((items, Tok(Punct(RBracket), rest)))
    ensures GPrimary(Tok(Punct(LBracket), t1)) == Ok((ListOf(items), rest))
  {
  }

  lemma {:induction false} MapStep(t1: Tokens, pairs: seq<Pair>, rest: Tokens)
    requires !Reads(t1, RBrace)
    requires GPairs(t1, []) == Ok((pairs, Tok(Punct(RBrace), rest)))
    ensures GPrimary(Tok(Punct(LBrace), t1)) == Ok((MapOf(pairs), rest))
  {
  }

  lemma {:induction false} MoreStep(ts: Tokens, e: Expr, t1: Tokens, acc: seq<Expr>)
    requires GTernary(ts) == Ok((e, Tok(Punct(Comma), t1)))
    ensures GMore(ts, acc) == GMore(t1, acc + [e])
  {
  }

  lemma {:induction false} LastStep(ts: Tokens, e: Expr, rest: Tokens, acc: seq<Expr>)
    requires !Reads(rest, Comma) && GTernary(ts) == Ok((e, rest))
    ensures GMore(ts, acc) == Ok((acc + [e], rest))
  {
  }

  lemma {:induction false} PairStep(ts: Tokens, k: Expr, t1: Tokens, v: Expr, rest: Tokens, acc: seq<Pair>)
    requires GTernary(ts) == Ok((k, Tok(Punct(Colon), t1))) && GTernary(t1) == Ok((v, rest))
    ensures GPairs(ts, acc) ==
      if Reads(rest, Comma) then GPairs(rest.tail, acc + [Pair(k, v)]) else Ok((acc + [Pair(k, v)], rest))
  {
  }

  lemma {:induction false} TernaryRoundTrip(e: Expr, rest: Tokens)
    requires Printable(e) && Follows(rest, 0)
    ensures GTernary(Print(e, 0, rest)) == Ok((e, rest))
    decreases e, 0, 30
  {
    if e.Cond? {
      var t2 := Print(e.no, 0, rest);
      var t1 := Print(e.yes, 0, Tok(Punct(Colon), t2));
      assert Bare(e, rest) == Print(e.test, 1, Tok(Punct(Question), t1));
      CondRoundTrip(e.test, e.yes, e.no, rest, t2, t1, Bare(e, rest));
    } else {
      BinaryRoundTrip(e, 1, rest);
      NoCondStep(Print(e, 1, rest), e, rest);
    }
  }

  lemma {:induction false} CondRoundTrip(c: Expr, a: Expr, b: Expr, rest: Tokens, t2: Tokens, t1: Tokens, ts: Tokens)
    requires Printable(c) && Printable(a) && Printable(b) && Follows(rest, 0)
    requires t2 == Print(b, 0, rest)
    requires t1 == Print(a, 0, Tok(Punct(Colon), t2))
    requires ts == Print(c, 1, Tok(Punct(Question), t1))
    ensures GTernary(ts) == Ok((Cond(c, a, b), rest))
    decreases Cond(c, a, b), 0, 1
  {
    var question := Tok(Punct(Question), t1);
    BinaryRoundTrip(c, 1, question);
    BranchesRoundTrip(c, a, b, rest, t2, t1, ts);
  }

  lemma {:induction false} BranchesRoundTrip(c: Expr, a: Expr, b: Expr, rest: Tokens, t2: Tokens, t1: Tokens,
      ts: Tokens)
    requires Printable(a) && Printable(b) && Follows(rest, 0)
    requires t2 == Print(b, 0, rest) && t1 == Print(a, 0, Tok(Punct(Colon), t2))
    requires GBinary(ts, 0) == Ok((c, Tok(Punct(Question), t1)))
    ensures GTernary(ts) == Ok((Cond(c, a, b), rest))
    decreases Cond(c, a, b), 0, 0
  {
    assert GTernary(t2) == Ok((b, rest)) by { TernaryRoundTrip(b, rest); }
    var colon := Tok(Punct(Colon), t2);
    assert GTernary(t1) == Ok((a, colon)) by { TernaryRoundTrip(a, colon); }
    CondStep(ts, c, t1, a, t2, b, rest);
  }

  lemma {:induction false} BinaryRoundTrip(e: Expr, level: nat, rest: Tokens)
    requires Printable(e) && 1 <= level <= LEVELS + 1 && Follows(rest, level)
    ensures GBinary(Print(e, level, rest), level - 1) == Ok((e, rest))
    decreases e, Rank(e, level), 29 - 2 * level
  {
    if level <= LEVELS {
      SpineRoundTrip(e, level, rest);
    } else {
      UnaryRoundTrip(e, rest);
    }
  }

  /** The left spine of a run of operators of one level is rebuilt by the loop. */
  lemma {:induction false} SpineRoundTrip(e: Expr, level: nat, rest: Tokens)
    requires Printable(e) && 1 <= level <= LEVELS && Follows(rest, level + 1)
    ensures GBinary(Print(e, level, rest), level - 1) == GBinaryRest(rest, level - 1, e)
    decreases e, Rank(e, level), 28 - 2 * level
  {
    if Tightness(e) == level {
      var after := Tok(OpToken(e.op), Print(e.right, level + 1, rest));
      assert Print(e, level, rest) == Print(e.left, level, after);
      OperatorRoundTrip(e.op, e.left, e.right, rest, level, after);
    } else {
      BinaryRoundTrip(e, level + 1, rest);
      DeeperStep(Print(e, level + 1, rest), level - 1, e, rest);
    }
  }

  lemma {:induction false} OperatorRoundTrip(op: BinOp, l: Expr, r: Expr, rest: Tokens, level: nat, after: Tokens)
    requires Printable(l) && Printable(r) && 1 <= level <= LEVELS && level == OpLevel(op) + 1
        && Follows(rest, level + 1)
    requires after == Tok(OpToken(op), Print(r, level + 1, rest))
    ensures GBinary(Print(l, level, after), level - 1) == GBinaryRest(rest, level - 1, Bin(op, l, r))
    decreases Bin(op, l, r), 0, 1
  {
    RightOperand(op, l, r, rest, level, after);
    OperatorFollows(op, after.tail);
    SpineRoundTrip(l, level, after);
  }

  lemma {:induction false} RightOperand(op: BinOp, l: Expr, r: Expr, rest: Tokens, level: nat, after: Tokens)
    requires Printable(r) && 1 <= level <= LEVELS && level == OpLevel(op) + 1 && Follows(rest, level + 1)
    requires after == Tok(OpToken(op), Print(r, level + 1, rest))
    ensures GBinaryRest(after, level - 1, l) == GBinaryRest(rest, level - 1, Bin(op, l, r))
    decreases Bin(op, l, r), 0, 0
  {
    BinaryRoundTrip(r, level + 1, rest);
    OperatorStep(l, op, after.tail, r, rest);
  }

  lemma {:induction false} OperatorFollows(op: BinOp, t1: Tokens)
    ensures Follows(Tok(OpToken(op), t1), OpLevel(op) + 2)
  {
  }

  lemma {:induction false} PostfixStart(e: Expr, rest: Tokens)
    ensures !Reads(Print(e, 7, rest), Bang) && !Reads(Print(e, 7, rest), Op(Sub))
    decreases e
  {
    match e
    case Select(b, name) => PostfixStart(b, Tok(Punct(Dot), Tok(Ident(name), rest)));
    case Index(b, i) => PostfixStart(b, Tok(Punct(LBracket), Print(i, 0, Tok(Punct(RBracket), rest))));
    case Call(name, args) =>
      if IsKeyword(name) && args != [] {
        PostfixStart(args[0], Tok(Punct(Dot), Tok(Ident(name), PrintArgs(args[1..], rest))));
      }
    case _ =>
  }

  lemma {:induction false} UnaryRoundTrip(e: Expr, rest: Tokens)
    requires Printable(e) && Follows(rest, 6)
    ensures GUnary(Print(e, 6, rest)) == Ok((e, rest))
    decreases e, Rank(e, 6), 12
  {
    if e.Not? || e.Neg? {
      UnaryRoundTrip(e.arg, rest);
      PrefixStep(Print(e.arg, 6, rest), e.arg, rest);
    } else {
      PostfixStart(e, rest);
      PostfixRoundTrip(e, rest);
      NoSuffixStep(Print(e, 7, rest), e, rest);
    }
  }

  /** The left spine of a run of selections, indexings and method calls is rebuilt by the loop. */
  lemma {:induction false} PostfixRoundTrip(e: Expr, rest: Tokens)
    requires Printable(e) && Follows(rest, 8)
    ensures GPostfix(Print(e, 7, rest)) == GPostfixRest(rest, e)
    decreases e, Rank(e, 7), 11
  {
    if Tightness(e) == 7 {
      match e
      case Select(b, name) =>
        PostfixRoundTrip(b, Tok(Punct(Dot), Tok(Ident(name), rest)));
        SelectStep(b, name, rest);
      case Index(b, i) =>
        var t1 := Print(i, 0, Tok(Punct(RBracket), rest));
        assert Bare(e, rest) == Print(b, 7, Tok(Punct(LBracket), t1));
        IndexRoundTrip(b, i, rest, t1, Bare(e, rest));
      case Call(name, args) => MethodRoundTrip(name, args, rest);
    } else {
      PrimaryRoundTrip(e, rest);
      PostfixStep(Print(e, 8, rest), e, rest);
    }
  }

  lemma {:induction false} IndexRoundTrip(b: Expr, i: Expr, rest: Tokens, t1: Tokens, ts: Tokens)
    requires Printable(b) && Printable(i) && Follows(rest, 8)
    requires t1 == Print(i, 0, Tok(Punct(RBracket), rest)) && ts == Print(b, 7, Tok(Punct(LBracket), t1))
    ensures GPostfix(ts) == GPostfixRest(rest, Index(b, i))
    decreases Index(b, i), 0, 0
  {
    var bracket, open := Tok(Punct(RBracket), rest), Tok(Punct(LBracket), t1);
    TernaryRoundTrip(i, bracket);
    PostfixRoundTrip(b, open);
    IndexStep(b, t1, i, rest);
  }

  lemma {:induction false} MethodRoundTrip(name: Word, args: seq<Expr>, rest: Tokens)
    requires IsKeyword(name) && args != [] && Follows(rest, 8) && AllPrintable(args)
    ensures GPostfix(Bare(Call(name, args), rest)) == GPostfixRest(rest, Call(name, args))
    decreases args, 4
  {
    var dot := Tok(Punct(Dot), Tok(Ident(name), PrintArgs(args[1..], rest)));
    MethodArguments(name, args, rest, dot);
    BareMethod(name, args, rest, dot);
    PostfixRoundTrip(args[0], dot);
  }

  lemma {:induction false} BareMethod(name: Word, args: seq<Expr>, rest: Tokens, dot: Tokens)
    requires IsKeyword(name) && args != [] && dot == Tok(Punct(Dot), Tok(Ident(name), PrintArgs(args[1..], rest)))
    ensures Bare(Call(name, args), rest) == Print(args[0], 7, dot)
  {
  }

  lemma {:induction false} MethodArguments(name: Word, args: seq<Expr>, rest: Tokens, dot: Tokens)
    requires args != [] && AllPrintable(args)
    requires dot == Tok(Punct(Dot), Tok(Ident(name), PrintArgs(args[1..], rest)))
    ensures GPostfixRest(dot, args[0]) == GPostfixRest(rest, Call(name, args))
    decreases args, 3, 0
  {
    var t2 := PrintArgs(args[1..], rest);
    ArgsRoundTrip(args[1..], rest);
    MethodStep(args[0], name, t2, args[1..], rest);
    assert [args[0]] + args[1..] == args;
  }

  lemma {:induction false} PrimaryRoundTrip(e: Expr, rest: Tokens)
    requires Printable(e) && Follows(rest, 8)
    ensures GPrimary(Print(e, 8, rest)) == Ok((e, rest))
    decreases e, Rank(e, 8), 10
  {
    if Tightness(e) < 8 {
      TernaryRoundTrip(e, Tok(Punct(RParen), rest));
      GroupStep(Print(e, 0, Tok(Punct(RParen), rest)), e, rest);
    } else {
      match e
      case ListOf(items) => ListRoundTrip(items, rest);
      case MapOf(pairs) => MapRoundTrip(pairs, rest);
      case Call(name, args) =>
        ArgsRoundTrip(args, rest);
        CallStep(name, PrintArgs(args, rest), args, rest);
      case _ => OneTokenRoundTrip(e, rest);
    }
  }

  lemma {:induction false} OneTokenRoundTrip(e: Expr, rest: Tokens)
    requires (e.Lit? || e.Name?) && Printable(e) && Follows(rest, 8)
    ensures GPrimary(Bare(e, rest)) == Ok((e, rest))
  {
  }

  lemma {:induction false} ArgsRoundTrip(args: seq<Expr>, rest: Tokens)
    requires AllPrintable(args)
    ensures GArgs(PrintArgs(args, rest)) == Ok((args, rest))
    decreases args, 3
  {
    ExprsRoundTrip(args, RParen, rest);
    ArgsStep(PrintAll(args, Tok(Punct(RParen), rest)), args, rest);
  }

  lemma {:induction false} ListRoundTrip(items: seq<Expr>, rest: Tokens)
    requires AllPrintable(items)
    ensures GPrimary(Bare(ListOf(items), rest)) == Ok((ListOf(items), rest))
    decreases items, 3
  {
    ExprsRoundTrip(items, RBracket, rest);
    ListStep(PrintAll(items, Tok(Punct(RBracket), rest)), items, rest);
  }

  lemma {:induction false} ExprsRoundTrip(es: seq<Expr>, closer: Sym, rest: Tokens)
    requires (closer == RParen || closer == RBracket) && AllPrintable(es)
    ensures GExprs(PrintAll(es, Tok(Punct(closer), rest)), closer) == Ok((es, Tok(Punct(closer), rest)))
    decreases es, 2
  {
    var after := Tok(Punct(closer), rest);
    if es != [] {
      MoreRoundTrip(es, [], after);
      ExprStart(es[0], 0, if |es| == 1 then after else Tok(Punct(Comma), PrintAll(es[1..], after)), closer);
      assert [] + es == es;
    }
  }

  /** No expression starts with a closing symbol. */
  lemma {:induction false} ExprStart(e: Expr, level: nat, rest: Tokens, sym: Sym)
    requires sym == RParen || sym == RBracket || sym == RBrace
    ensures !Reads(Print(e, level, rest), sym)
    decreases e
  {
    match e
    case Cond(c, a, b) =>
      ExprStart(c, 1, Tok(Punct(Question), Print(a, 0, Tok(Punct(Colon), Print(b, 0, rest)))), sym);
    case Select(b, name) => ExprStart(b, 7, Tok(Punct(Dot), Tok(Ident(name), rest)), sym);
    case Index(b, i) => ExprStart(b, 7, Tok(Punct(LBracket), Print(i, 0, Tok(Punct(RBracket), rest))), sym);
    case Bin(op, l, r) =>
      ExprStart(l, OpLevel(op) + 1, Tok(OpToken(op), Print(r, OpLevel(op) + 2, rest)), sym);
    case Call(name, args) =>
      if IsKeyword(name) && args != [] {
        ExprStart(args[0], 7, Tok(Punct(Dot), Tok(Ident(name), PrintArgs(args[1..], rest))), sym);
      }
    case _ =>
  }

  lemma {:induction false} MoreRoundTrip(es: seq<Expr>, acc: seq<Expr>, rest: Tokens)
    requires es != [] && Follows(rest, 0) && !Reads(rest, Comma) && AllPrintable(es)
    ensures GMore(PrintAll(es, rest), acc) == Ok((acc + es, rest))
    decreases es, 1
  {
    if |es| == 1 {
      TernaryRoundTrip(es[0], rest);
      LastStep(Print(es[0], 0, rest), es[0], rest, acc);
      assert acc + [es[0]] == acc + es;
    } else {
      var t1 := PrintAll(es[1..], rest);
      MoreRoundTrip(es[1..], acc + [es[0]], rest);
      TernaryRoundTrip(es[0], Tok(Punct(Comma), t1));
      MoreStep(PrintAll(es, rest), es[0], t1, acc);
      assert acc + [es[0]] + es[1..] == acc + es;
    }
  }

  lemma {:induction false} MapRoundTrip(pairs: seq<Pair>, rest: Tokens)
    requires PairsPrintable(pairs)
    ensures GPrimary(Bare(MapOf(pairs), rest)) == Ok((MapOf(pairs), rest))
    decreases pairs, 2
  {
    var after := Tok(Punct(RBrace), rest);
    if pairs == [] {
      EmptyMapStep(rest);
    } else {
      PairsRoundTrip(pairs, [], after);
      PairsStart(pairs, after);
      assert [] + pairs == pairs;
      MapStep(PrintPairs(pairs, after), pairs, rest);
    }
  }

  lemma {:induction false} EmptyMapStep(rest: Tokens)
    ensures GPrimary(Tok(Punct(LBrace), Tok(Punct(RBrace), rest))) == Ok((MapOf([]), rest))
  {
  }

  lemma {:induction false} PairsStart(ps: seq<Pair>, rest: Tokens)
    requires ps != []
    ensures !Reads(PrintPairs(ps, rest), RBrace)
  {
    var after := if |ps| == 1 then rest else Tok(Punct(Comma), PrintPairs(ps[1..], rest));
    ExprStart(ps[0].key, 0, Tok(Punct(Colon), Print(ps[0].value, 0, after)), RBrace);
  }

  lemma {:induction false} PairsRoundTrip(ps: seq<Pair>, acc: seq<Pair>, rest: Tokens)
    requires ps != [] && Follows(rest, 0) && !Reads(rest, Comma) && PairsPrintable(ps)
    ensures GPairs(PrintPairs(ps, rest), acc) == Ok((acc + ps, rest))
    decreases ps, 1
  {
    Regroup(acc, ps);
    if |ps| == 1 {
      PairRoundTrip(ps[0], acc, rest);
    } else {
      PairsRoundTrip(ps[1..], acc + [ps[0]], rest);
      FirstPair(ps[0], acc, PrintPairs(ps[1..], rest));
    }
  }

  lemma {:induction false} Regroup<T>(acc: seq<T>, xs: seq<T>)
    requires xs != []
    ensures acc + [xs[0]] + xs[1..] == acc + xs && (|xs| == 1 ==> acc + [xs[0]] == acc + xs)
  {
  }

  /** A pair with more to come is added to those already read. */
  lemma {:induction false} FirstPair(p: Pair, acc: seq<Pair>, more: Tokens)
    requires Printable(p.key) && Printable(p.value)
    ensures GPairs(PrintPair(p, Tok(Punct(Comma), more)), acc) == GPairs(more, acc + [p])
    decreases p, 1
  {
    PairRoundTrip(p, acc, Tok(Punct(Comma), more));
  }

  lemma {:induction false} PairRoundTrip(p: Pair, acc: seq<Pair>, rest: Tokens)
    requires Follows(rest, 0) && Printable(p.key) && Printable(p.value)
    ensures GPairs(PrintPair(p, rest), acc) ==
      if Reads(rest, Comma) then GPairs(rest.tail, acc + [p]) else Ok((acc + [p], rest))
    decreases p, 0
  {
    var t1 := Print(p.value, 0, rest);
    TernaryRoundTrip(p.value, rest);
    TernaryRoundTrip(p.key, Tok(Punct(Colon), t1));
    PairStep(PrintPair(p, rest), p.key, t1, p.value, rest, acc);
  }

  /** Parsing the minimally parenthesised print of a tree gives the tree back, all tokens consumed. */
  lemma {:induction false} PrintParse(e: Expr)
    requires Printable(e)
    ensures ParseTokens(Print(e, 0, Eof)) == Ok(e)
  {
    TernaryRoundTrip(e, Eof);
  }

  // ---------- the trees the parser produces ----------

  lemma {:induction false} TernaryPrintable(ts: Tokens)
    ensures GTernary(ts).Ok? ==> Printable(GTernary(ts).value.0)
    decreases Size(ts), 20
  {
    BinaryPrintable(ts, 0);
    if GTernary(ts).Ok? {
      var r1 := GBinary(ts, 0).value.1;
      if Reads(r1, Question) {
        TernaryPrintable(r1.tail);
        TernaryPrintable(Eat(GTernary(r1.tail).value.1, Colon).value);
      }
    }
  }

  lemma {:induction false} BinaryPrintable(ts: Tokens, level: nat)
    requires level <= LEVELS
    ensures GBinary(ts, level).Ok? ==> Printable(GBinary(ts, level).value.0)
    decreases Size(ts), 15 - level
  {
    if level >= LEVELS {
      UnaryPrintable(ts);
    } else {
      BinaryPrintable(ts, level + 1);
      if GBinary(ts, level + 1).Ok? {
        var (node, rest) := GBinary(ts, level + 1).value;
        BinaryRestPrintable(rest, level, node);
      }
    }
  }

  lemma {:induction false} BinaryRestPrintable(ts: Tokens, level: nat, node: Expr)
    requires level < LEVELS && Printable(node)
    ensures GBinaryRest(ts, level, node).Ok? ==> Printable(GBinaryRest(ts, level, node).value.0)
    decreases Size(ts), 0
  {
    if AtLevel(ts, level) {
      BinaryPrintable(ts.tail, level + 1);
      if GBinary(ts.tail, level + 1).Ok? {
        var (right, rest) := GBinary(ts.tail, level + 1).value;
        BinaryRestPrintable(rest, level, Bin(OpAt(ts).value, node, right));
      }
    }
  }

  lemma {:induction false} UnaryPrintable(ts: Tokens)
    ensures GUnary(ts).Ok? ==> Printable(GUnary(ts).value.0)
    decreases Size(ts), 9
  {
    if Reads(ts, Bang) || Reads(ts, Op(Sub)) {
      UnaryPrintable(ts.tail);
    } else {
      PrimaryPrintable(ts);
      if GPrimary(ts).Ok? {
        PostfixPrintable(GPrimary(ts).value.1, GPrimary(ts).value.0);
      }
    }
  }

  lemma {:induction false} PostfixPrintable(ts: Tokens, node: Expr)
    requires Printable(node)
    ensures GPostfixRest(ts, node).Ok? ==> Printable(GPostfixRest(ts, node).value.0)
    decreases Size(ts), 0
  {
    if Reads(ts, Dot) {
      match ts.tail
      case Tok(Ident(name), rest) =>
        if Reads(rest, LParen) {
          ArgsPrintable(rest);
          if GArgs(rest).Ok? {
            var (args, after) := GArgs(rest).value;
            PostfixPrintable(after, Call(name, [node] + args));
          }
        } else {
          PostfixPrintable(rest, Select(node, name));
        }
      case _ =>
    } else if Reads(ts, LBracket) && GPostfixRest(ts, node).Ok? {
      TernaryPrintable(ts.tail);
      var (index, r1) := GTernary(ts.tail).value;
      PostfixPrintable(Eat(r1, RBracket).value, Index(node, index));
    }
  }

  lemma {:induction false} ArgsPrintable(ts: Tokens)
    requires Reads(ts, LParen)
    ensures GArgs(ts).Ok? ==> AllPrintable(GArgs(ts).value.0)
    decreases Size(ts), 2
  {
    if !Reads(ts.tail, RParen) {
      MorePrintable(ts.tail, []);
    }
  }

  lemma {:induction false} MorePrintable(ts: Tokens, acc: seq<Expr>)
    requires AllPrintable(acc)
    ensures GMore(ts, acc).Ok? ==> AllPrintable(GMore(ts, acc).value.0)
    decreases Size(ts), 21
  {
    TernaryPrintable(ts);
    if GTernary(ts).Ok? {
      var (e, rest) := GTernary(ts).value;
      if Reads(rest, Comma) {
        MorePrintable(rest.tail, acc + [e]);
      }
    }
  }

  lemma {:induction false} PairsParsePrintable(ts: Tokens, acc: seq<Pair>)
    requires PairsPrintable(acc)
    ensures GPairs(ts, acc).Ok? ==> PairsPrintable(GPairs(ts, acc).value.0)
    decreases Size(ts), 21
  {
    if GPairs(ts, acc).Ok? {
      TernaryPrintable(ts);
      var (k, r1) := GTernary(ts).value;
      var r2 := Eat(r1, Colon).value;
      TernaryPrintable(r2);
      var (v, r3) := GTernary(r2).value;
      if Reads(r3, Comma) {
        PairsParsePrintable(r3.tail, acc + [Pair(k, v)]);
      }
    }
  }

  lemma {:induction false} PrimaryPrintable(ts: Tokens)
    ensures GPrimary(ts).Ok? ==> Printable(GPrimary(ts).value.0)
    decreases Size(ts), 7
  {
    match ts
    case Tok(Ident(name), t) =>
      if !IsKeyword(name) && Reads(t, LParen) {
        ArgsPrintable(t);
      }
    case Tok(Punct(LParen), t) => TernaryPrintable(t);
    case Tok(Punct(LBracket), t) =>
      if !Reads(t, RBracket) {
        MorePrintable(t, []);
      }
    case Tok(Punct(LBrace), t) =>
      if !Reads(t, RBrace) {
        PairsParsePrintable(t, []);
      }
    case _ =>
  }

  /** The parser's image is exactly the printable trees. */
  lemma {:induction false} CelImage(e: Expr)
    ensures (exists ts :: ParseTokens(ts) == Ok(e)) <==> Printable(e)
  {
    if Printable(e) {
      PrintParse(e);
    }
    forall ts | ParseTokens(ts) == Ok(e)
      ensures Printable(e)
    {
      TernaryPrintable(ts);
    }
  }

  /** `eat` ignores a token's kind: a string literal closes a group that was opened by a parenthesis. */
  lemma {:induction false} StringClosesGroup(x: Word)
    requires !IsKeyword(x)
    ensures ParseTokens(Tok(Punct(LParen), Tok(Ident(x), Tok(Str(")"), Eof)))) == Ok(Name(x))
  {
    var after := Tok(Str(")"), Eof);
    var inner := Tok(Ident(x), after);
    OneOperand(inner, Name(x), after);
    assert Eats(after, RParen);
    OneOperand(Tok(Punct(LParen), inner), Name(x), Eof);
  }

  /** An operand that nothing after it extends is a whole expression. */
  lemma {:induction false} OneOperand(ts: Tokens, e: Expr, rest: Tokens)
    requires GPrimary(ts) == Ok((e, rest)) && Binds(rest) == -1
    requires !Reads(ts, Bang) && !Reads(ts, Op(Sub))
    ensures GTernary(ts) == Ok((e, rest))
  {
    OneUnary(ts, e, rest);
    LevelsPass(ts, e, rest, 0);
    NoCondStep(ts, e, rest);
  }

  lemma {:induction false} OneUnary(ts: Tokens, e: Expr, rest: Tokens)
    requires GPrimary(ts) == Ok((e, rest)) && Binds(rest) == -1
    requires !Reads(ts, Bang) && !Reads(ts, Op(Sub))
    ensures GUnary(ts) == Ok((e, rest))
  {
    assert GPostfixRest(rest, e) == Ok((e, rest));
    assert GPostfix(ts) == Ok((e, rest));
  }

  lemma {:induction false} LevelsPass(ts: Tokens, e: Expr, rest: Tokens, level: nat)
    requires GUnary(ts) == Ok((e, rest)) && Binds(rest) == -1 && level <= LEVELS
    ensures GBinary(ts, level) == Ok((e, rest))
    decreases LEVELS - level
  {
    if level < LEVELS {
      LevelsPass(ts, e, rest, level + 1);
    }
  }
}
