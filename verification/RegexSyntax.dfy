/**
The regex surface syntax: a recursive-descent parser over a cursor, proved against a
grammar on suffixes of the pattern, a printer, and the proof that the two are inverse.
*/
module RegexSyntax {
  import opened Common
  import opened RegexTree

  datatype RegexError =
    | TooLong
    | Unexpected
    | UnbalancedGroup
    | TrailingBackslash
    | NegatedEscapeInClass
    | UnbalancedClass

  type Parsed<T> = Result<(T, string), RegexError>

  // ---------- the grammar, on what is left of the pattern ----------

  const DIGIT := [('0', '9')]
  const WORD := [('a', 'z'), ('A', 'Z'), ('0', '9'), ('_', '_')]
  const SPACE := [(' ', ' '), ('\t', '\t'), ('\n', '\n'), ('\r', '\r'), ('\U{000C}', '\U{000C}'),
      ('\U{000B}', '\U{000B}')]

  predicate IsClassEscape(c: char) {
    c == 'd' || c == 'D' || c == 'w' || c == 'W' || c == 's' || c == 'S'
  }

  /** The character class named by an escape letter. */
  function ClassEscape(c: char): CharTest
    requires IsClassEscape(c)
  {
    match c
    case 'd' => Class(DIGIT, false)
    case 'D' => Class(DIGIT, true)
    case 'w' => Class(WORD, false)
    case 'W' => Class(WORD, true)
    case 's' => Class(SPACE, false)
    case _ => Class(SPACE, true)
  }

  predicate Starts(s: string, chars: string) {
    s != "" && s[0] in chars
  }

  function GAlt(s: string): (r: Parsed<Frag>)
    ensures r.Ok? ==> Cost(r.value.0) + |r.value.1| <= |s|
    ensures r.Ok? ==> Ranges(r.value.0) + 3 * |r.value.1| <= 3 * |s|
    decreases |s|, 4
  {
    var (node, rest) :- GCat(s, None);
    GAltRest(rest, node)
  }

  function GAltRest(s: string, node: Frag): (r: Parsed<Frag>)
    ensures r.Ok? ==> Cost(r.value.0) + |r.value.1| <= |s| + Cost(node)
    ensures r.Ok? ==> Ranges(r.value.0) + 3 * |r.value.1| <= 3 * |s| + Ranges(node)
    decreases |s|, 0
  {
    if Starts(s, "|") then
      var (right, rest) :- GCat(s[1..], None);
      GAltRest(rest, Alt(node, right))
    else
      Ok((node, s))
  }

  function CatAcc(acc: Option<Frag>, piece: Frag): Frag {
    if acc.None? then piece else Cat(acc.value, piece)
  }

  function GCat(s: string, acc: Option<Frag>): (r: Parsed<Frag>)
    ensures r.Ok? ==> Cost(r.value.0) + |r.value.1| <= |s| + if acc.None? then 0 else Cost(acc.value)
    ensures r.Ok? ==> Ranges(r.value.0) + 3 * |r.value.1| <= 3 * |s| + if acc.None? then 0 else Ranges(acc.value)
    decreases |s|, 3
  {
    if s != "" && !Starts(s, "|)") then
      var (piece, rest) :- GRepeat(s);
      GCat(rest, Some(CatAcc(acc, piece)))
    else
      Ok((if acc.None? then Empty else acc.value, s))
  }

  function GRepeat(s: string): (r: Parsed<Frag>)
    requires s != ""
    ensures r.Ok? ==> Cost(r.value.0) + |r.value.1| <= |s| && |r.value.1| < |s|
    ensures r.Ok? ==> Ranges(r.value.0) + 3 * |r.value.1| <= 3 * |s|
    decreases |s|, 2
  {
    var (node, rest) :- GAtom(s);
    Ok(GRepeatRest(rest, node))
  }

  function GRepeatRest(s: string, node: Frag): (r: (Frag, string))
    ensures Cost(r.0) + |r.1| <= |s| + Cost(node) && |r.1| <= |s|
    ensures Ranges(r.0) + 3 * |r.1| <= 3 * |s| + Ranges(node)
  {
    if Starts(s, "*") then GRepeatRest(s[1..], Star(node))
    else if Starts(s, "+") then GRepeatRest(s[1..], Plus(node))
    else if Starts(s, "?") then GRepeatRest(s[1..], Opt(node))
    else (node, s)
  }

  function GAtom(s: string): (r: Parsed<Frag>)
    requires s != ""
    ensures r.Ok? ==> Cost(r.value.0) + |r.value.1| <= |s| && |r.value.1| < |s|
    ensures r.Ok? ==> Ranges(r.value.0) + 3 * |r.value.1| <= 3 * |s|
    decreases |s|, 1
  {
    var c, t := s[0], s[1..];
    if c == '(' then
      var (node, rest) :- GAlt(t);
      if Starts(rest, ")") then Ok((node, rest[1..])) else Err(UnbalancedGroup)
    else if c == '.' then Ok((One(Any), t))
    else if c == '[' then
      var negate := Starts(t, "^");
      var (ranges, rest) :- GItems(if negate then t[1..] else t, []);
      Ok((One(Class(ranges, negate)), rest))
    else if c == '\\' then
      if t == "" then Err(TrailingBackslash)
      else Ok((One(if IsClassEscape(t[0]) then ClassEscape(t[0]) else Char(t[0])), t[1..]))
    else Ok((One(Char(c)), t))
  }

  /** The items of a character class up to and including its closing bracket. */
  function GItems(s: string, acc: seq<(char, char)>): (r: Parsed<seq<(char, char)>>)
    ensures r.Ok? ==> |r.value.1| < |s|
    ensures r.Ok? ==> |r.value.0| + 3 * |r.value.1| <= |acc| + 3 * |s|
    decreases |s|, 0
  {
    if s == "" then Err(UnbalancedClass)
    else if s[0] == ']' then Ok((acc, s[1..]))
    else if s[0] == '\\' && |s| > 1 && IsClassEscape(s[1]) then
      var sub := ClassEscape(s[1]);
      if sub.negate then Err(NegatedEscapeInClass) else GItems(s[2..], acc + sub.ranges)
    else if s[0] == '\\' && |s| > 1 then GItem(s[1], s[2..], acc)
    else GItem(s[0], s[1..], acc)
  }

  /** `c` has been read: it is either the low end of a range or stands for itself. */
  function GItem(c: char, s: string, acc: seq<(char, char)>): (r: Parsed<seq<(char, char)>>)
    ensures r.Ok? ==> |r.value.1| < |s|
    ensures r.Ok? ==> |r.value.0| + 3 * |r.value.1| <= |acc| + 1 + 3 * |s|
    decreases |s|, 1
  {
    if Starts(s, "-") && |s| > 1 && s[1] != ']' then GItems(s[2..], acc + [(c, s[1])])
    else GItems(s, acc + [(c, c)])
  }

  function ParseRegex(pattern: string): (r: Result<Frag, RegexError>)
    ensures r.Ok? ==> Cost(r.value) <= |pattern| && Ranges(r.value) <= 3 * |pattern|
  {
    var (node, rest) :- GAlt(pattern);
    if rest == "" then Ok(node) else Err(Unexpected)
  }

  // ---------- the cursor parser ----------

  /** The parser's answer and final cursor are what the grammar gives on the suffix it started from. */
  predicate Follows<T(==)>(g: Parsed<T>, r: Result<T, RegexError>, rest: string) {
    if r.Ok? then g == Ok((r.value, rest)) else g == Err(r.error)
  }

  class ReParser {
    const p: string
    var i: nat

    constructor (pattern: string)
      ensures p == pattern && i == 0
    {
      p := pattern;
      i := 0;
    }

    /** Does the cursor stand on one of these characters? */
    predicate Peeks(chars: string)
      reads this
    {
      i < |p| && p[i] in chars
    }

    /** Never called at the end of the pattern, where the original would fail with an index error. */
    method Next() returns (c: char)
      requires i < |p|
      modifies this
      ensures c == p[old(i)] && i == old(i) + 1
    {
      c := p[i];
      i := i + 1;
    }

    method Parse() returns (r: Result<Frag, RegexError>)
      requires i == 0
      modifies this
      ensures r == ParseRegex(p)
    {
      assert p[0..] == p;
      r := Alternation();
      if r.Ok? && i != |p| {
        r := Err(Unexpected);
      }
    }

    method Alternation() returns (r: Result<Frag, RegexError>)
      requires i <= |p|
      modifies this
      ensures old(i) <= i <= |p|
      ensures Follows(GAlt(p[old(i)..]), r, p[i..])
      decreases |p| - i, 4
    {
      r := Concatenation();
      while r.Ok? && Peeks("|")
        invariant old(i) <= i <= |p|
        invariant r.Err? ==> GAlt(p[old(i)..]) == Err(r.error)
        invariant r.Ok? ==> GAlt(p[old(i)..]) == GAltRest(p[i..], r.value)
        decreases r.Ok?, |p| - i
      {
        var node := r.value;
        assert p[i..][1..] == p[i + 1..];
        var _ := Next();
        r := Concatenation();
        if r.Ok? {
          r := Ok(Alt(node, r.value));
        }
      }
    }

    method Concatenation() returns (r: Result<Frag, RegexError>)
      requires i <= |p|
      modifies this
      ensures old(i) <= i <= |p|
      ensures Follows(GCat(p[old(i)..], None), r, p[i..])
      decreases |p| - i, 3
    {
      var node: Option<Frag> := None;
      while i < |p| && !Peeks("|)")
        invariant old(i) <= i <= |p|
        invariant GCat(p[old(i)..], None) == GCat(p[i..], node)
        decreases |p| - i
      {
        var piece := Repeat();
        if piece.Err? {
          return Err(piece.error);
        }
        node := Some(CatAcc(node, piece.value));
      }
      r := Ok(if node.None? then Empty else node.value);
    }

    method Repeat() returns (r: Result<Frag, RegexError>)
      requires i < |p|
      modifies this
      ensures old(i) <= i <= |p| && (r.Ok? ==> old(i) < i)
      ensures Follows(GRepeat(p[old(i)..]), r, p[i..])
      decreases |p| - i, 2
    {
      r := Atom();
      if r.Err? {
        return;
      }
      var node := r.value;
      while Peeks("*+?")
        invariant old(i) < i <= |p|
        invariant GRepeat(p[old(i)..]) == Ok(GRepeatRest(p[i..], node))
        decreases |p| - i
      {
        assert p[i..][1..] == p[i + 1..];
        var op := Next();
        node := if op == '*' then Star(node) else if op == '+' then Plus(node) else Opt(node);
      }
      r := Ok(node);
    }

    method Atom() returns (r: Result<Frag, RegexError>)
      requires i < |p|
      modifies this
      ensures old(i) <= i <= |p| && (r.Ok? ==> old(i) < i)
      ensures Follows(GAtom(p[old(i)..]), r, p[i..])
      decreases |p| - i, 1
    {
      assert p[i..][1..] == p[i + 1..];
      var c := Next();
      if c == '(' {
        r := Alternation();
        if r.Err? {
          return;
        }
        if !Peeks(")") {
          return Err(UnbalancedGroup);
        }
        assert p[i..][1..] == p[i + 1..];
        var _ := Next();
      } else if c == '.' {
        r := Ok(One(Any));
      } else if c == '[' {
        var t := CharClass();
        r := if t.Ok? then Ok(One(t.value)) else Err(t.error);
      } else if c == '\\' {
        if i == |p| {
          return Err(TrailingBackslash);
        }
        assert p[i..][1..] == p[i + 1..];
        var e := Next();
        r := Ok(One(if IsClassEscape(e) then ClassEscape(e) else Char(e)));
      } else {
        r := Ok(One(Char(c)));
      }
    }

    /** One item of a class: an escape naming several ranges, a range, or a single character. */
    method ClassItem(ghost acc: seq<(char, char)>) returns (r: Result<seq<(char, char)>, RegexError>)
      requires i < |p| && p[i] != ']'
      modifies this
      ensures old(i) < i <= |p|
      ensures GItems(p[old(i)..], acc) == if r.Ok? then GItems(p[i..], acc + r.value) else Err(r.error)
    {
      ItemAt(p, i, acc);
      var c := Next();
      if c == '\\' && i < |p| {
        var e := Next();
        if IsClassEscape(e) {
          var sub := ClassEscape(e);
          return if sub.negate then Err(NegatedEscapeInClass) else Ok(sub.ranges);
        }
        c := e;
      }
      RangeAt(p, i, c, acc);
      if Peeks("-") && i + 1 < |p| && p[i + 1] != ']' {
        var _ := Next();
        var hi := Next();
        r := Ok([(c, hi)]);
      } else {
        r := Ok([(c, c)]);
      }
    }

    method CharClass() returns (r: Result<CharTest, RegexError>)
      requires i <= |p|
      modifies this
      ensures old(i) <= i <= |p|
      ensures var t := p[old(i)..];
        var negate := Starts(t, "^");
        var g := GItems(if negate then t[1..] else t, []);
        if r.Ok? then r.value.Class? && r.value.negate == negate && g == Ok((r.value.ranges, p[i..]))
            else g == Err(r.error)
    {
      var negate := false;
      if Peeks("^") {
        assert p[i..][1..] == p[i + 1..];
        var _ := Next();
        negate := true;
      }
      ghost var items := GItems(p[i..], []);
      var ranges: seq<(char, char)> := [];
      while i < |p| && !Peeks("]")
        invariant old(i) <= i <= |p|
        invariant items == GItems(p[i..], ranges)
        decreases |p| - i
      {
        var item := ClassItem(ranges);
        if item.Err? {
          return Err(item.error);
        }
        ranges := ranges + item.value;
      }
      if !Peeks("]") {
        return Err(UnbalancedClass);
      }
      assert p[i..][1..] == p[i + 1..];
      var _ := Next();
      r := Ok(Class(ranges, negate));
    }
  }

  /** The grammar's step at a class item, by cursor position. */
  lemma {:induction false} ItemAt(p: string, i: nat, acc: seq<(char, char)>)
    requires i < |p| && p[i] != ']'
    ensures GItems(p[i..], acc) ==
      if p[i] == '\\' && i + 1 < |p| then
        if !IsClassEscape(p[i + 1]) then GItem(p[i + 1], p[i + 2..], acc)
        else if ClassEscape(p[i + 1]).negate then Err(NegatedEscapeInClass)
        else GItems(p[i + 2..], acc + ClassEscape(p[i + 1]).ranges)
      else GItem(p[i], p[i + 1..], acc)
  {
    assert p[i..][1..] == p[i + 1..];
    assert i + 1 < |p| ==> p[i..][2..] == p[i + 2..];
  }

  lemma {:induction false} RangeAt(p: string, i: nat, c: char, acc: seq<(char, char)>)
    requires i <= |p|
    ensures GItem(c, p[i..], acc) ==
      if i + 1 < |p| && p[i] == '-' && p[i + 1] != ']' then GItems(p[i + 2..], acc + [(c, p[i + 1])])
      else GItems(p[i..], acc + [(c, c)])
  {
    assert i + 1 < |p| ==> p[i..][2..] == p[i + 2..];
  }

  // ---------- printing ----------

  /** A closing bracket can only end a range on its own. */
  predicate PrintableTest(t: CharTest) {
    t.Class? ==> forall k :: 0 <= k < |t.ranges| ==> t.ranges[k].1 != ']' || t.ranges[k].0 == ']'
  }

  predicate Printable(f: Frag) {
    match f
    case Empty => true
    case One(t) => PrintableTest(t)
    case Cat(l, r) => Printable(l) && Printable(r)
    case Alt(l, r) => Printable(l) && Printable(r)
    case Opt(l) => Printable(l)
    case Star(l) => Printable(l)
    case Plus(l) => Printable(l)
  }

  function Escaped(c: char): string {
    if IsClassEscape(c) then [c] else ['\\', c]
  }

  function PrintItem(lo: char, hi: char): string {
    Escaped(lo) + if lo == hi then "" else ['-', hi]
  }

  function PrintItems(ranges: seq<(char, char)>): string {
    if ranges == [] then "]"
    else
      var (lo, hi) := ranges[0];
      PrintItem(lo, hi) + PrintItems(ranges[1..])
  }

  /** How tightly a node binds: 0 alternation, 1 concatenation, 2 repetition, 3 atom. */
  function Level(f: Frag): nat {
    match f
    case Alt(_, _) => 0
    case Empty => 1
    case Cat(_, _) => 1
    case One(_) => 3
    case _ => 2
  }

  /** The text of `f` where something at least as tight as `level` is wanted. */
  function Print(f: Frag, level: nat): (text: string)
    ensures level >= 2 ==> text != ""
    decreases f, 1
  {
    if Level(f) < level then "(" + PrintBare(f) + ")" else PrintBare(f)
  }

  function PrintBare(f: Frag): string
    decreases f, 0
  {
    match f
    case Empty => ""
    case One(Any) => "."
    case One(Char(c)) => Escaped(c)
    case One(Class(ranges, negate)) => "[" + (if negate then "^" else "") + PrintItems(ranges)
    case Cat(l, r) => Print(l, if l.Cat? then 1 else 2) + Print(r, 2)
    case Alt(l, r) => Print(l, 0) + "|" + Print(r, 1)
    case Star(l) => Print(l, 2) + "*"
    case Plus(l) => Print(l, 2) + "+"
    case Opt(l) => Print(l, 2) + "?"
  }

  // ---------- parsing what was printed ----------

  lemma {:induction false} EscapedRead(c: char, t: string, acc: seq<(char, char)>)
    ensures GItems(Escaped(c) + t, acc) == GItem(c, t, acc)
  {
    var s := Escaped(c) + t;
    assert s[|Escaped(c)|..] == t;
  }

  lemma {:induction false} ItemRoundTrip(lo: char, hi: char, t: string, acc: seq<(char, char)>)
    requires !Starts(t, "-") && (hi != ']' || lo == ']')
    ensures GItems(PrintItem(lo, hi) + t, acc) == GItems(t, acc + [(lo, hi)])
  {
    var after := if lo == hi then t else ['-', hi] + t;
    assert PrintItem(lo, hi) + t == Escaped(lo) + after;
    EscapedRead(lo, after, acc);
    assert lo != hi ==> after[2..] == t;
  }

  lemma {:induction false} ItemsRoundTrip(ranges: seq<(char, char)>, acc: seq<(char, char)>, rest: string)
    requires PrintableTest(Class(ranges, false))
    ensures GItems(PrintItems(ranges) + rest, acc) == Ok((acc + ranges, rest))
    decreases |ranges|
  {
    if ranges == [] {
      assert (PrintItems(ranges) + rest)[1..] == rest;
      assert acc + ranges == acc;
    } else {
      var (lo, hi) := ranges[0];
      var tail := PrintItems(ranges[1..]) + rest;
      ItemsText(ranges, acc, rest);
      ItemRoundTrip(lo, hi, tail, acc);
      ItemsRoundTrip(ranges[1..], acc + [(lo, hi)], rest);
    }
  }

  lemma {:induction false} ItemsText(ranges: seq<(char, char)>, acc: seq<(char, char)>, rest: string)
    requires ranges != []
    ensures PrintItems(ranges) + rest == PrintItem(ranges[0].0, ranges[0].1) + (PrintItems(ranges[1..]) + rest)
    ensures acc + [(ranges[0].0, ranges[0].1)] + ranges[1..] == acc + ranges
  {
  }

  lemma {:induction false} PrintStart(f: Frag)
    ensures !Starts(Print(f, 2), "|)*+?")
  {
    if f.Opt? || f.Star? || f.Plus? {
      PrintStart(f.left);
    }
  }

  // In the measures below, a node printed in parentheses ranks above the same node printed bare.
  function Rank(f: Frag, level: nat): nat {
    if Level(f) < level then 1 else 0
  }

  lemma {:induction false} AtomRoundTrip(f: Frag, rest: string)
    requires Printable(f)
    ensures GAtom(Print(f, 3) + rest) == Ok((f, rest))
    decreases f, Rank(f, 3), 0
  {
    match f
    case One(Any) => assert ("." + rest)[1..] == rest;
    case One(Char(c)) => LiteralRoundTrip(c, rest);
    case One(Class(ranges, negate)) => ClassRoundTrip(ranges, negate, rest);
    case _ =>
      AltRoundTrip(f, ")" + rest);
      GroupRead(PrintBare(f), f, rest);
  }

  lemma {:induction false} LiteralRoundTrip(c: char, rest: string)
    ensures GAtom(Escaped(c) + rest) == Ok((One(Char(c)), rest))
  {
    var s := Escaped(c) + rest;
    if IsClassEscape(c) {
      assert s[0] == c && s[1..] == rest;
    } else {
      assert s[0] == '\\' && s[1..] == [c] + rest;
      assert ([c] + rest)[1..] == rest;
    }
  }

  lemma {:induction false} GroupRead(text: string, f: Frag, rest: string)
    requires GAlt(text + (")" + rest)) == Ok((f, ")" + rest))
    ensures GAtom("(" + text + ")" + rest) == Ok((f, rest))
  {
    var s := "(" + text + ")" + rest;
    assert s[1..] == text + (")" + rest);
    assert (")" + rest)[1..] == rest;
  }

  lemma {:induction false} ClassOpens(t: string, ranges: seq<(char, char)>, negate: bool, rest: string)
    requires negate == Starts(t, "^")
    requires GItems(if negate then t[1..] else t, []) == Ok((ranges, rest))
    ensures GAtom("[" + t) == Ok((One(Class(ranges, negate)), rest))
  {
    var s := "[" + t;
    assert s[0] == '[' && s[1..] == t;
  }

  lemma {:induction false} ClassRoundTrip(ranges: seq<(char, char)>, negate: bool, rest: string)
    requires PrintableTest(Class(ranges, negate))
    ensures GAtom(PrintBare(One(Class(ranges, negate))) + rest) == Ok((One(Class(ranges, negate)), rest))
  {
    ItemsRoundTrip(ranges, [], rest);
    assert [] + ranges == ranges;
    var t := ClassText(ranges, negate, rest);
    ClassOpens(t, ranges, negate, rest);
  }

  /** A printed class is its bracket in front of the mark of negation and the items. */
  lemma {:induction false} ClassText(ranges: seq<(char, char)>, negate: bool, rest: string) returns (t: string)
    ensures var items := PrintItems(ranges) + rest;
      t == (if negate then "^" + items else items) && (negate ==> t[1..] == items)
    ensures PrintBare(One(Class(ranges, negate))) + rest == "[" + t
  {
    var items, mark := PrintItems(ranges) + rest, if negate then "^" else "";
    t := mark + items;
    Regroup("[", mark, PrintItems(ranges), rest);
    assert "" + items == items;
  }

  lemma {:induction false} Regroup(a: string, b: string, c: string, d: string)
    ensures a + b + c + d == a + (b + (c + d))
  {
  }

  /** A printed repetition is its operand and the operator. */
  lemma {:induction false} OperatorText(f: Frag, rest: string) returns (op: string)
    requires f.Opt? || f.Star? || f.Plus?
    ensures op == if f.Star? then "*" else if f.Plus? then "+" else "?"
    ensures Print(f, 2) + rest == Print(f.left, 2) + (op + rest) && (op + rest)[1..] == rest
  {
    op := if f.Star? then "*" else if f.Plus? then "+" else "?";
  }

  lemma {:induction false} RepeatRoundTrip(f: Frag, rest: string)
    requires Printable(f)
    ensures GRepeat(Print(f, 2) + rest) == Ok(GRepeatRest(rest, f))
    decreases f, Rank(f, 2), 1
  {
    if f.Opt? || f.Star? || f.Plus? {
      var op := OperatorText(f, rest);
      RepeatRoundTrip(f.left, op + rest);
    } else {
      assert Print(f, 2) == Print(f, 3);
      AtomRoundTrip(f, rest);
    }
  }

  /** A printed piece joins the pieces before it, provided no repetition operator follows. */
  lemma {:induction false} PieceRoundTrip(f: Frag, acc: Option<Frag>, rest: string)
    requires Printable(f) && !Starts(rest, "*+?")
    ensures GCat(Print(f, 2) + rest, acc) == GCat(rest, Some(CatAcc(acc, f)))
    decreases f, Rank(f, 2), 2
  {
    PrintStart(f);
    RepeatRoundTrip(f, rest);
  }

  /** The left spine of a concatenation is rebuilt by the loop's accumulator. */
  lemma {:induction false} CatRoundTrip(f: Frag, rest: string)
    requires Printable(f) && !Starts(rest, "*+?")
    ensures GCat(Print(f, if f.Cat? then 1 else 2) + rest, None) == GCat(rest, Some(f))
    decreases f, Rank(f, if f.Cat? then 1 else 2), 3
  {
    if f.Cat? {
      var l, r := f.left, f.right;
      var mid := Print(r, 2) + rest;
      assert Print(f, 1) + rest == Print(l, if l.Cat? then 1 else 2) + mid;
      PrintStart(r);
      CatRoundTrip(l, mid);
      PieceRoundTrip(r, Some(l), rest);
    } else {
      PieceRoundTrip(f, None, rest);
    }
  }

  lemma {:induction false} BranchRoundTrip(f: Frag, rest: string)
    requires Printable(f) && (rest == "" || Starts(rest, "|)"))
    ensures GCat(Print(f, 1) + rest, None) == Ok((f, rest))
    decreases f, Rank(f, 1), 4
  {
    if f.Empty? {
      assert Print(f, 1) + rest == rest;
    } else {
      CatRoundTrip(f, rest);
    }
  }

  /** The left spine of an alternation is rebuilt by the loop. */
  lemma {:induction false} AltRoundTrip(f: Frag, rest: string)
    requires Printable(f) && (rest == "" || Starts(rest, "|)"))
    ensures GAlt(Print(f, 0) + rest) == GAltRest(rest, f)
    decreases f, 0, 5
  {
    if f.Alt? {
      var mid := "|" + Print(f.right, 1) + rest;
      assert Print(f, 0) + rest == Print(f.left, 0) + mid;
      AltRoundTrip(f.left, mid);
      assert mid[1..] == Print(f.right, 1) + rest;
      BranchRoundTrip(f.right, rest);
    } else {
      BranchRoundTrip(f, rest);
    }
  }

  /** Printing a tree and parsing the text gives the tree back. */
  lemma {:induction false} RegexRoundTrip(f: Frag)
    requires Printable(f)
    ensures ParseRegex(Print(f, 0)) == Ok(f)
  {
    AltRoundTrip(f, "");
    assert Print(f, 0) + "" == Print(f, 0);
  }

  // ---------- the trees the parser produces ----------

  lemma {:induction false} AltPrintable(s: string)
    ensures GAlt(s).Ok? ==> Printable(GAlt(s).value.0)
    decreases |s|, 4
  {
    CatPrintable(s, None);
    if GCat(s, None).Ok? {
      AltRestPrintable(GCat(s, None).value.1, GCat(s, None).value.0);
    }
  }

  lemma {:induction false} AltRestPrintable(s: string, node: Frag)
    requires Printable(node)
    ensures GAltRest(s, node).Ok? ==> Printable(GAltRest(s, node).value.0)
    decreases |s|, 0
  {
    if Starts(s, "|") {
      CatPrintable(s[1..], None);
      if GCat(s[1..], None).Ok? {
        var (right, rest) := GCat(s[1..], None).value;
        AltRestPrintable(rest, Alt(node, right));
      }
    }
  }

  lemma {:induction false} CatPrintable(s: string, acc: Option<Frag>)
    requires acc.Some? ==> Printable(acc.value)
    ensures GCat(s, acc).Ok? ==> Printable(GCat(s, acc).value.0)
    decreases |s|, 3
  {
    if s != "" && !Starts(s, "|)") {
      AtomPrintable(s);
      if GAtom(s).Ok? {
        RepeatPrintable(GAtom(s).value.1, GAtom(s).value.0);
        var (piece, rest) := GRepeat(s).value;
        CatPrintable(rest, Some(CatAcc(acc, piece)));
      }
    }
  }

  lemma {:induction false} RepeatPrintable(s: string, node: Frag)
    requires Printable(node)
    ensures Printable(GRepeatRest(s, node).0)
    decreases |s|
  {
    if Starts(s, "*") { RepeatPrintable(s[1..], Star(node)); }
    else if Starts(s, "+") { RepeatPrintable(s[1..], Plus(node)); }
    else if Starts(s, "?") { RepeatPrintable(s[1..], Opt(node)); }
  }

  lemma {:induction false} AtomPrintable(s: string)
    requires s != ""
    ensures GAtom(s).Ok? ==> Printable(GAtom(s).value.0)
    decreases |s|, 1
  {
    if s[0] == '(' {
      AltPrintable(s[1..]);
    } else if s[0] == '[' {
      var t := s[1..];
      ItemsPrintable(if Starts(t, "^") then t[1..] else t, []);
    }
  }

  lemma {:induction false} ItemsPrintable(s: string, acc: seq<(char, char)>)
    requires PrintableTest(Class(acc, false))
    ensures GItems(s, acc).Ok? ==> PrintableTest(Class(GItems(s, acc).value.0, false))
    decreases |s|
  {
    if s == "" || s[0] == ']' {
    } else if s[0] == '\\' && |s| > 1 && IsClassEscape(s[1]) {
      if !ClassEscape(s[1]).negate {
        ItemsPrintable(s[2..], acc + ClassEscape(s[1]).ranges);
      }
    } else {
      var k := if s[0] == '\\' && |s| > 1 then 1 else 0;
      var c, t := s[k], s[k + 1..];
      assert GItems(s, acc) == GItem(c, t, acc);
      if Starts(t, "-") && |t| > 1 && t[1] != ']' {
        ItemsPrintable(t[2..], acc + [(c, t[1])]);
      } else {
        ItemsPrintable(t, acc + [(c, c)]);
      }
    }
  }

  /** The parser's image is exactly the printable trees. */
  lemma {:induction false} RegexImage(f: Frag)
    ensures (exists pattern :: ParseRegex(pattern) == Ok(f)) <==> Printable(f)
  {
    if Printable(f) {
      RegexRoundTrip(f);
    }
    forall pattern | ParseRegex(pattern) == Ok(f)
      ensures Printable(f)
    {
      AltPrintable(pattern);
    }
  }
}
