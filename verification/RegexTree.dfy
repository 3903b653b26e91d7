/**
The regex syntax tree of app/policy_as_code/cel.py and its denotational meaning: the
set of strings each tree describes, defined without any reference to automata.
*/
module RegexTree {

  /** The nodes that read exactly one character. */
  datatype CharTest =
    | Char(ch: char)
    | Any
    | Class(ranges: seq<(char, char)>, negate: bool)

  datatype Frag =
    | Empty
    | One(test: CharTest)
    | Cat(left: Frag, right: Frag)
    | Alt(left: Frag, right: Frag)
    | Opt(left: Frag)
    | Star(left: Frag)
    | Plus(left: Frag)

  /** Does a single-character node accept `c`? */
  predicate StateMatches(t: CharTest, c: char) {
    match t
    case Any => c != '\n'
    case Char(ch) => c == ch
    case Class(ranges, negate) =>
      var inside := exists k :: 0 <= k < |ranges| && ranges[k].0 <= c <= ranges[k].1;
      if negate then !inside else inside
  }

  ghost function Flatten(parts: seq<string>): string {
    if parts == [] then "" else parts[0] + Flatten(parts[1..])
  }

  /** The language of a tree. */
  ghost predicate Matches(f: Frag, s: string)
    decreases f
  {
    match f
    case Empty => s == ""
    case One(t) => |s| == 1 && StateMatches(t, s[0])
    case Cat(l, r) => exists k :: 0 <= k <= |s| && Matches(l, s[..k]) && Matches(r, s[k..])
    case Alt(l, r) => Matches(l, s) || Matches(r, s)
    case Opt(l) => s == "" || Matches(l, s)
    case Star(l) => exists parts :: Flatten(parts) == s && forall p | p in parts :: Matches(l, p)
    case Plus(l) => exists parts :: parts != [] && Flatten(parts) == s && forall p | p in parts :: Matches(l, p)
  }

  /** The number of automaton states a tree costs. */
  function Cost(f: Frag): nat {
    match f
    case Empty => 0
    case One(_) => 1
    case Cat(l, r) => Cost(l) + Cost(r)
    case Alt(l, r) => Cost(l) + Cost(r) + 1
    case Opt(l) => Cost(l) + 1
    case Star(l) => Cost(l) + 1
    case Plus(l) => Cost(l) + 1
  }

  /** The character ranges a single-character node is compared against. */
  function RangesOf(t: CharTest): nat {
    if t.Class? then |t.ranges| else 0
  }

  /** The number of ranges in all the classes of a tree. */
  function Ranges(f: Frag): nat {
    match f
    case Empty => 0
    case One(t) => RangesOf(t)
    case Cat(l, r) => Ranges(l) + Ranges(r)
    case Alt(l, r) => Ranges(l) + Ranges(r)
    case Opt(l) => Ranges(l)
    case Star(l) => Ranges(l)
    case Plus(l) => Ranges(l)
  }
}
