/**
The lockstep simulation: `regex_search` of app/policy_as_code/cel.py, proved to find
exactly the substrings the pattern's tree describes, in linear work.
*/
module RegexSearch {
  import opened Common
  import opened RegexTree
  import opened RegexNfa
  import opened RegexSyntax

  const MAX_PATTERN := 512

  // ---------- what a search means ----------

  /** Some substring, tied to the ends the pattern is anchored at, is in the tree's language. */
  ghost predicate Found(tree: Frag, anchorStart: bool, anchorEnd: bool, text: string) {
    exists lo, hi :: 0 <= lo <= hi <= |text| && (anchorStart ==> lo == 0) && (anchorEnd ==> hi == |text|)
                     && Matches(tree, text[lo..hi])
  }

  /** The anchors are read off the ends of the whole pattern: what is between them is the body. */
  function Anchors(pattern: string): (bool, string, bool) {
    var anchorStart := pattern != "" && pattern[0] == '^';
    var body := if anchorStart then pattern[1..] else pattern;
    var n := |body|;
    var anchorEnd := n > 0 && body[n - 1] == '$' && !(n > 1 && body[n - 2] == '\\');
    (anchorStart, if anchorEnd then body[..n - 1] else body, anchorEnd)
  }

  ghost function SearchMeaning(pattern: string, text: string): Result<bool, RegexError> {
    if |pattern| > MAX_PATTERN then Err(TooLong)
    else
      var (anchorStart, body, anchorEnd) := Anchors(pattern);
      var tree :- ParseRegex(body);
      Ok(Found(tree, anchorStart, anchorEnd, text))
  }

  // ---------- epsilon closure ----------

  /** Every edge leads to a state or to acceptance. */
  ghost predicate WellFormed(states: seq<NState>) {
    Closed(states, 0, |states|, MATCH_STATE)
  }

  predicate IsState(states: seq<NState>, i: int) {
    -1 <= i < |states|
  }

  predicate IsSplit(states: seq<NState>, i: int) {
    0 <= i < |states| && states[i].Split?
  }

  ghost predicate Eps(states: seq<NState>, i: int, j: int) {
    Reaches(states, i, "", j)
  }

  /** `seen` has no epsilon edge leaving it, and `current` is its part that is not a split. */
  ghost predicate Saturated(states: seq<NState>, current: set<int>, seen: set<int>) {
    && (forall i :: i in seen ==> IsState(states, i))
    && (forall i :: i in seen && IsSplit(states, i) ==> states[i].out in seen && states[i].out2 in seen)
    && current == set i | i in seen && !IsSplit(states, i)
  }

  lemma {:induction false} SaturatedIsClosed(states: seq<NState>, seen: set<int>, i: int, j: int, n: nat)
    requires forall k :: k in seen && IsSplit(states, k) ==> states[k].out in seen && states[k].out2 in seen
    requires i in seen && Run(states, 0, |states|, i, "", j, n)
    ensures j in seen
    decreases n
  {
    if n > 0 {
      var next := if Run(states, 0, |states|, states[i].out, "", j, n - 1) then states[i].out else states[i].out2;
      SaturatedIsClosed(states, seen, next, j, n - 1);
    }
  }

  /** So it holds everything an epsilon path from one of its members reaches. */
  lemma {:induction false} ClosureReached(states: seq<NState>, seen: set<int>, i: int)
    requires forall k :: k in seen && IsSplit(states, k) ==> states[k].out in seen && states[k].out2 in seen
    requires i in seen
    ensures forall j :: Eps(states, i, j) ==> j in seen
  {
    forall j | Eps(states, i, j)
      ensures j in seen
    {
      var n: nat :| Run(states, 0, |states|, i, "", j, n);
      SaturatedIsClosed(states, seen, i, j, n);
    }
  }

  lemma {:induction false} EpsStep(states: seq<NState>, i: int, k: int, j: int)
    requires Eps(states, i, k) && IsSplit(states, k) && (j == states[k].out || j == states[k].out2)
    ensures Eps(states, i, j)
  {
    var n: nat :| Run(states, 0, |states|, i, "", k, n);
    assert Run(states, 0, |states|, j, "", j, 0);
    assert Run(states, 0, |states|, k, "", j, 1);
    RunConcat(states, 0, |states|, 0, |states|, i, "", k, n, "", j, 1);
    assert "" + "" == "";
  }

  lemma {:induction false} EpsSelf(states: seq<NState>, i: int)
    ensures Eps(states, i, i)
  {
    assert Run(states, 0, |states|, i, "", i, 0);
  }

  ghost function AllStates(states: seq<NState>): set<int> {
    set i | -1 <= i < |states| && IsState(states, i)
  }

  lemma {:induction false} CountStates(states: seq<NState>)
    ensures |AllStates(states)| == |states| + 1
  {
    if states == [] {
      assert AllStates(states) == {-1};
    } else {
      var shorter := states[..|states| - 1];
      CountStates(shorter);
      assert AllStates(states) == AllStates(shorter) + {|states| - 1};
    }
  }

  lemma {:induction false} SubsetCount(a: set<int>, b: set<int>)
    requires a <= b
    ensures |a| <= |b|
  {
    assert |b| == |a| + |b - a| by { assert b == a + (b - a); }
  }

  /** The two sets one step of the simulation fills, and a count of the work spent on them. */
  class Frontier {
    var current: set<int>
    var seen: set<int>
    ghost var work: nat

    constructor ()
      ensures current == {} && seen == {} && work == 0
    {
      current := {};
      seen := {};
      work := 0;
    }

    /** Adds the epsilon closure of `idx`, popping at most once for the start and twice for each newly seen state. */
    method AddState(states: seq<NState>, idx: int)
      requires WellFormed(states) && IsState(states, idx) && Saturated(states, current, seen)
      modifies this
      ensures Saturated(states, current, seen) && old(seen) <= seen
      ensures forall j :: j in seen <==> j in old(seen) || Eps(states, idx, j)
      ensures work <= old(work) + 1 + 2 * (|seen| - |old(seen)|)
    {
      var stack := [idx];
      EpsSelf(states, idx);
      while stack != []
        invariant forall x :: x in stack ==> IsState(states, x) && Eps(states, idx, x)
        invariant forall i :: i in seen ==> IsState(states, i) && (i in old(seen) || Eps(states, idx, i))
        invariant old(seen) <= seen && (idx in seen || idx in stack)
        invariant forall i :: i in seen && IsSplit(states, i) ==>
          && (states[i].out in seen || states[i].out in stack)
          && (states[i].out2 in seen || states[i].out2 in stack)
        invariant current == set i | i in seen && !IsSplit(states, i)
        invariant work + |stack| <= old(work) + 1 + 2 * (|seen| - |old(seen)|)
        decreases AllStates(states) - seen, |stack|
      {
        var i := stack[|stack| - 1];
        assert i in stack;
        ghost var before := stack;
        stack := stack[..|stack| - 1];
        assert before == stack + [i];
        work := work + 1;
        if i in seen {
          continue;
        }
        assert i in AllStates(states) - seen;
        seen := seen + {i};
        if i == MATCH_STATE {
          current := current + {i};
        } else {
          match states[i]
          case Split(out, out2) =>
            EpsStep(states, idx, i, out);
            EpsStep(states, idx, i, out2);
            stack := stack + [out] + [out2];
          case Atom(_, _) =>
            current := current + {i};
        }
      }
      ClosureReached(states, seen, idx);
    }
  }

  // ---------- one character of text ----------

  /** Following `c` from the atom `i` and then epsilon edges leads to `j`. */
  ghost predicate Steps(states: seq<NState>, i: int, c: char, j: int) {
    0 <= i < |states| && states[i].Atom? && StateMatches(states[i].test, c) && Eps(states, states[i].out, j)
  }

  /** `j` is where some allowed start offset has led after `k` characters. */
  ghost predicate Live(states: seq<NState>, start: int, anchorStart: bool, text: string, k: nat, j: int)
    requires k <= |text|
  {
    exists lo :: 0 <= lo <= k && (anchorStart ==> lo == 0) && Reaches(states, start, text[lo..k], j)
  }

  /** A run that reads one last character leaves some atom on it. */
  lemma {:induction false} LastStep(states: seq<NState>, i: int, s: string, c: char, j: int, n: nat)
    returns (k: int)
    requires Run(states, 0, |states|, i, s + [c], j, n)
    ensures Reaches(states, i, s, k) && Steps(states, k, c, j)
    decreases n
  {
    match states[i]
    case Split(a, b) =>
      var next := if Run(states, 0, |states|, a, s + [c], j, n - 1) then a else b;
      k := LastStep(states, next, s, c, j, n - 1);
      var m: nat :| Run(states, 0, |states|, next, s, k, m);
      assert Run(states, 0, |states|, i, s, k, m + 1);
    case Atom(t, out) =>
      if s == "" {
        k := i;
        assert Run(states, 0, |states|, i, s, i, 0);
        assert (s + [c])[1..] == "";
      } else {
        assert (s + [c])[1..] == s[1..] + [c];
        k := LastStep(states, out, s[1..], c, j, n - 1);
        var m: nat :| Run(states, 0, |states|, out, s[1..], k, m);
        assert Run(states, 0, |states|, i, s, k, m + 1);
      }
  }

  lemma {:induction false} JoinStep(states: seq<NState>, i: int, s: string, c: char, k: int, j: int)
    requires Reaches(states, i, s, k) && Steps(states, k, c, j)
    ensures Reaches(states, i, s + [c], j)
  {
    var n: nat :| Run(states, 0, |states|, i, s, k, n);
    var m: nat :| Run(states, 0, |states|, states[k].out, "", j, m);
    assert [c][1..] == "";
    assert Run(states, 0, |states|, k, [c], j, m + 1);
    RunConcat(states, 0, |states|, 0, |states|, i, s, k, n, [c], j, m + 1);
  }

  /** What is live after one more character is what steps there, and the start again when unanchored. */
  lemma {:induction false} LiveNext(states: seq<NState>, start: int, anchorStart: bool, text: string, k: nat, j: int)
    requires k < |text|
    ensures Live(states, start, anchorStart, text, k + 1, j) <==>
      || (exists i :: Live(states, start, anchorStart, text, k, i) && Steps(states, i, text[k], j))
      || (!anchorStart && Eps(states, start, j))
  {
    if Live(states, start, anchorStart, text, k + 1, j) {
      var lo :| 0 <= lo <= k + 1 && (anchorStart ==> lo == 0) && Reaches(states, start, text[lo..k + 1], j);
      if lo == k + 1 {
        assert text[lo..k + 1] == "";
      } else {
        assert text[lo..k + 1] == text[lo..k] + [text[k]];
        var n: nat :| Run(states, 0, |states|, start, text[lo..k + 1], j, n);
        var i := LastStep(states, start, text[lo..k], text[k], j, n);
        assert Live(states, start, anchorStart, text, k, i);
      }
    }
    forall i | Live(states, start, anchorStart, text, k, i) && Steps(states, i, text[k], j)
      ensures Live(states, start, anchorStart, text, k + 1, j)
    {
      var lo :| 0 <= lo <= k && (anchorStart ==> lo == 0) && Reaches(states, start, text[lo..k], i);
      JoinStep(states, start, text[lo..k], text[k], i, j);
      assert text[lo..k + 1] == text[lo..k] + [text[k]];
    }
    if !anchorStart && Eps(states, start, j) {
      assert text[k + 1..k + 1] == "";
    }
  }

  lemma {:induction false} LiveFirst(states: seq<NState>, start: int, anchorStart: bool, text: string, j: int)
    ensures Live(states, start, anchorStart, text, 0, j) <==> Eps(states, start, j)
  {
    assert text[0..0] == "";
  }

  lemma {:induction false} StartIsLive(states: seq<NState>, start: int, text: string, k: nat, j: int)
    requires k <= |text| && Eps(states, start, j)
    ensures Live(states, start, false, text, k, j)
  {
    assert text[k..k] == "";
  }

  /** Once no test or acceptance is live, none ever is again. */
  lemma {:induction false} DeadStaysDead(states: seq<NState>, start: int, anchorStart: bool, text: string, k: nat,
      k': nat, j: int)
    requires k <= k' <= |text| && !IsSplit(states, j)
    requires forall i :: !IsSplit(states, i) ==> !Live(states, start, anchorStart, text, k, i)
    ensures !Live(states, start, anchorStart, text, k', j)
    decreases k' - k
  {
    if k < k' {
      forall i | !IsSplit(states, i)
        ensures !Live(states, start, anchorStart, text, k + 1, i)
      {
        LiveNext(states, start, anchorStart, text, k, i);
        if !anchorStart && Eps(states, start, i) {
          StartIsLive(states, start, text, k, i);
        }
      }
      DeadStaysDead(states, start, anchorStart, text, k + 1, k', j);
    }
  }

  /** `current` holds exactly the tests, and acceptance, that are live after `k` characters. */
  ghost predicate Tracks(states: seq<NState>, start: int, anchorStart: bool, text: string, k: nat, current: set<int>)
    requires k <= |text|
  {
    && (forall j :: j in current ==> IsState(states, j))
    && (forall j :: j in current <==> !IsSplit(states, j) && Live(states, start, anchorStart, text, k, j))
  }

  ghost predicate StepsFrom(states: seq<NState>, froms: set<int>, c: char, j: int) {
    exists i :: i in froms && Steps(states, i, c, j)
  }

  lemma {:induction false} StepsFromOneMore(states: seq<NState>, froms: set<int>, i: int, c: char, j: int)
    ensures StepsFrom(states, froms + {i}, c, j) <==> StepsFrom(states, froms, c, j) || Steps(states, i, c, j)
  {
    if Steps(states, i, c, j) {
      assert i in froms + {i};
    }
    if StepsFrom(states, froms, c, j) {
      var k :| k in froms && Steps(states, k, c, j);
      assert k in froms + {i};
    }
  }

  /** The next frontier, from the tests live now. */
  lemma {:induction false} TracksNext(states: seq<NState>, start: int, anchorStart: bool, text: string, k: nat,
      current: set<int>, j: int)
    requires k < |text| && Tracks(states, start, anchorStart, text, k, current)
    ensures Live(states, start, anchorStart, text, k + 1, j)
            <==> StepsFrom(states, current, text[k], j) || (!anchorStart && Eps(states, start, j))
  {
    LiveNext(states, start, anchorStart, text, k, j);
  }

  lemma {:induction false} NonEmpty(s: set<int>)
    requires s != {}
    ensures exists i :: i in s
  {
    if forall i :: i !in s {
    }
  }

  // ---------- the work of testing states against a character ----------

  /** What testing one state costs: one step, and one comparison for each range of its class. */
  function TestWork(states: seq<NState>, i: int): nat {
    1 + if 0 <= i < |states| && states[i].Atom? then RangesOf(states[i].test) else 0
  }

  /** What testing the states of `s` below index `n` costs, acceptance among them. */
  ghost function WorkIn(states: seq<NState>, s: set<int>, n: nat): nat {
    if n == 0 then if MATCH_STATE in s then 1 else 0
    else WorkIn(states, s, n - 1) + if n - 1 in s then TestWork(states, n - 1) else 0
  }

  /** The ranges of the states from `lo` to `hi`. */
  ghost function StateRanges(states: seq<NState>, lo: nat, hi: nat): nat
    decreases hi
  {
    if hi <= lo then 0 else StateRanges(states, lo, hi - 1) + TestWork(states, hi - 1) - 1
  }

  lemma {:induction false} NoWork(states: seq<NState>, n: nat)
    ensures WorkIn(states, {}, n) == 0
  {
    if n > 0 { NoWork(states, n - 1); }
  }

  lemma {:induction false} WorkOneMore(states: seq<NState>, s: set<int>, i: int, n: nat)
    requires -1 <= i && i !in s
    ensures WorkIn(states, s + {i}, n) == WorkIn(states, s, n) + if i < n then TestWork(states, i) else 0
  {
    if n > 0 { WorkOneMore(states, s, i, n - 1); }
  }

  lemma {:induction false} WorkWithin(states: seq<NState>, s: set<int>, n: nat)
    ensures WorkIn(states, s, n) <= n + 1 + StateRanges(states, 0, n)
  {
    if n > 0 { WorkWithin(states, s, n - 1); }
  }

  lemma {:induction false} RangesJoin(states: seq<NState>, lo: nat, mid: nat, hi: nat)
    requires lo <= mid <= hi
    ensures StateRanges(states, lo, hi) == StateRanges(states, lo, mid) + StateRanges(states, mid, hi)
    decreases hi
  {
    if mid < hi { RangesJoin(states, lo, mid, hi - 1); }
  }

  /** A compiled tree's states have the ranges of the tree. */
  lemma {:induction false} PlacedRanges(states: seq<NState>, node: Frag, at: nat, nxt: int)
    requires Placed(states, node, at, nxt)
    ensures StateRanges(states, at, End(node, at)) == Ranges(node)
    decreases node, 0
  {
    match node
    case Empty =>
    case One(_) => assert StateRanges(states, at, at) == 0;
    case Cat(l, r) =>
      PlacedRanges(states, r, at, nxt);
      PlacedRanges(states, l, End(r, at), Entry(r, at, nxt));
      RangesJoin(states, at, End(r, at), End(node, at));
    case Alt(l, r) =>
      PlacedRanges(states, l, at, nxt);
      PlacedRanges(states, r, End(l, at), nxt);
      RangesJoin(states, at, End(l, at), End(r, End(l, at)));
    case Opt(l) => PlacedRanges(states, l, at, nxt);
    case Star(l) => LoopRanges(states, l, at, nxt);
    case Plus(l) => LoopRanges(states, l, at, nxt);
  }

  lemma {:induction false} LoopRanges(states: seq<NState>, l: Frag, at: nat, nxt: int)
    requires LoopPlaced(states, l, at, nxt)
    ensures StateRanges(states, at, End(l, at + 1)) == Ranges(l)
    decreases l, 1
  {
    PlacedRanges(states, l, at + 1, at);
    RangesJoin(states, at, at + 1, End(l, at + 1));
    assert StateRanges(states, at, at) == 0;
  }

  /** Follows `c` from every state of `current`, as the inner loop over the frontier does. */
  method FollowAll(states: seq<NState>, current: set<int>, c: char, f: Frontier) returns (ghost tests: nat)
    requires WellFormed(states) && forall i :: i in current ==> IsState(states, i) && !IsSplit(states, i)
    requires f.current == {} && f.seen == {} && f.work == 0
    modifies f
    ensures Saturated(states, f.current, f.seen)
    ensures forall j :: j in f.seen <==> StepsFrom(states, current, c, j)
    ensures tests == WorkIn(states, current, |states|) && f.work <= |current| + 2 * |f.seen|
  {
    tests := 0;
    NoWork(states, |states|);
    var todo := current;
    ghost var done := {};
    while todo != {}
      invariant done + todo == current && done !! todo
      invariant Saturated(states, f.current, f.seen)
      invariant forall j :: j in f.seen <==> StepsFrom(states, done, c, j)
      invariant tests == WorkIn(states, done, |states|) && f.work <= |done| + 2 * |f.seen|
      decreases todo
    {
      assert exists i :: i in todo by { NonEmpty(todo); }
      var i :| i in todo;
      todo := todo - {i};
      forall j ensures StepsFrom(states, done + {i}, c, j)
          <==> StepsFrom(states, done, c, j) || Steps(states, i, c, j) {
        StepsFromOneMore(states, done, i, c, j);
      }
      WorkOneMore(states, done, i, |states|);
      done := done + {i};
      tests := tests + TestWork(states, i);
      if i == MATCH_STATE {
        continue;
      }
      if StateMatches(states[i].test, c) {
        f.AddState(states, states[i].out);
      }
    }
    assert done == current;
  }

  /** One round of the simulation. */
  method Advance(states: seq<NState>, start: int, anchorStart: bool, ghost text: string, ghost k: nat,
                 current: set<int>, c: char)
    returns (next: set<int>, ghost work: nat)
    requires WellFormed(states) && IsState(states, start)
    requires k < |text| && c == text[k] && Tracks(states, start, anchorStart, text, k, current)
    ensures Tracks(states, start, anchorStart, text, k + 1, next)
    ensures work <= 5 * (|states| + 1) + StateRanges(states, 0, |states|)
  {
    var f := new Frontier();
    ghost var tests := FollowAll(states, current, c, f);
    if !anchorStart {
      f.AddState(states, start);
    }
    next := f.current;
    work := tests + f.work;
    WorkWithin(states, current, |states|);
    SubsetCount(current, AllStates(states));
    SubsetCount(f.seen, AllStates(states));
    CountStates(states);
    forall j
      ensures j in f.seen <==> Live(states, start, anchorStart, text, k + 1, j)
    {
      TracksNext(states, start, anchorStart, text, k, current, j);
    }
  }

  // ---------- the whole search ----------

  /** Is there a match ending after `k` characters? */
  ghost predicate MatchEndsAt(tree: Frag, anchorStart: bool, text: string, k: nat)
    requires k <= |text|
  {
    exists lo :: 0 <= lo <= k && (anchorStart ==> lo == 0) && Matches(tree, text[lo..k])
  }

  lemma {:induction false} AcceptanceIsMatch(states: seq<NState>, tree: Frag, anchorStart: bool, text: string, k: nat)
    requires k <= |text| && Placed(states, tree, 0, MATCH_STATE) && |states| == Cost(tree)
    ensures Live(states, Entry(tree, 0, MATCH_STATE), anchorStart, text, k, MATCH_STATE)
            <==> MatchEndsAt(tree, anchorStart, text, k)
  {
    forall lo | 0 <= lo <= k
      ensures Reaches(states, Entry(tree, 0, MATCH_STATE), text[lo..k], MATCH_STATE) <==> Matches(tree, text[lo..k])
    {
      CompiledLanguage(states, tree, text[lo..k]);
    }
  }

  /**
   * The search finds a match exactly when the pattern's tree describes one, and its work (stack pops,
   * state tests and range comparisons) is at most a fixed multiple of pattern length times text length.
   */
  method Search(pattern: string, text: string) returns (r: Result<bool, RegexError>, ghost work: nat)
    ensures r == SearchMeaning(pattern, text)
    ensures work <= 8 * (|pattern| + 1) * (|text| + 1)
  {
    work := 0;
    Scaled(0, 8 * (|pattern| + 1), |text| + 1);
    if |pattern| > MAX_PATTERN {
      return Err(TooLong), 0;
    }
    var (anchorStart, body, anchorEnd) := Anchors(pattern);
    var parser := new ReParser(body);
    var parsed := parser.Parse();
    if parsed.Err? {
      return Err(parsed.error), 0;
    }
    var compiler := new Compiler();
    var start := compiler.Compile(parsed.value, MATCH_STATE);
    var found;
    ghost var rounds;
    ghost var unit := Unit(parsed.value);
    found, work, rounds := Scan(compiler.states, parsed.value, start, anchorStart, anchorEnd, text);
    RoundsBound(unit, rounds, |text| + 1);
    Scaled(unit, 8 * (|pattern| + 1), |text| + 1);
    r := Ok(found);
  }

  /** The work that one character of text costs at most. */
  function Unit(tree: Frag): nat {
    5 * (Cost(tree) + 1) + Ranges(tree)
  }

  lemma {:induction false} Scaled(a: nat, b: nat, c: nat)
    requires a <= b
    ensures a * c <= b * c
  {
    assert b * c == a * c + (b - a) * c;
  }

  /** The cost of `rounds` rounds at `unit` each. */
  ghost function Rounds(unit: nat, rounds: nat): nat {
    if rounds == 0 then 0 else Rounds(unit, rounds - 1) + unit
  }

  lemma {:induction false} RoundsBound(unit: nat, rounds: nat, limit: nat)
    requires rounds <= limit
    ensures Rounds(unit, rounds) <= unit * limit
    decreases rounds
  {
    if rounds > 0 {
      RoundsBound(unit, rounds - 1, limit - 1);
      assert unit * limit == unit * (limit - 1) + unit;
    } else {
      Scaled(0, limit, unit);
    }
  }

  lemma {:induction false} FoundMeans(tree: Frag, anchorStart: bool, anchorEnd: bool, text: string)
    ensures anchorEnd ==> (Found(tree, anchorStart, anchorEnd, text) <==> MatchEndsAt(tree, anchorStart, text, |text|))
    ensures !anchorEnd ==> (Found(tree, anchorStart, anchorEnd, text) <==>
                            exists k :: 0 <= k <= |text| && MatchEndsAt(tree, anchorStart, text, k))
  {
    if Found(tree, anchorStart, anchorEnd, text) {
      var lo, hi :| 0 <= lo <= hi <= |text| && (anchorStart ==> lo == 0) && (anchorEnd ==> hi == |text|)
                    && Matches(tree, text[lo..hi]);
      assert MatchEndsAt(tree, anchorStart, text, hi);
    }
    forall k | 0 <= k <= |text| && MatchEndsAt(tree, anchorStart, text, k) && (anchorEnd ==> k == |text|)
      ensures Found(tree, anchorStart, anchorEnd, text)
    {
      var lo :| 0 <= lo <= k && (anchorStart ==> lo == 0) && Matches(tree, text[lo..k]);
    }
  }

  /** The states live before any text is read. */
  method Begin(states: seq<NState>, ghost tree: Frag, start: int, anchorStart: bool, ghost text: string)
    returns (current: set<int>, ghost work: nat)
    requires WellFormed(states) && IsState(states, start) && |states| == Cost(tree)
    ensures Tracks(states, start, anchorStart, text, 0, current) && work <= Unit(tree)
  {
    var first := new Frontier();
    first.AddState(states, start);
    current := first.current;
    work := first.work;
    SubsetCount(first.seen, AllStates(states));
    CountStates(states);
    forall j ensures j in first.seen <==> Live(states, start, anchorStart, text, 0, j) {
      LiveFirst(states, start, anchorStart, text, j);
    }
  }

  /** The scan over the text, for the automaton compiled from `tree`. */
  method Scan(states: seq<NState>, ghost tree: Frag, start: int, anchorStart: bool, anchorEnd: bool, text: string)
    returns (found: bool, ghost work: nat, ghost rounds: nat)
    requires Placed(states, tree, 0, MATCH_STATE) && |states| == Cost(tree) && start == Entry(tree, 0, MATCH_STATE)
    ensures found == Found(tree, anchorStart, anchorEnd, text)
    ensures rounds <= |text| + 1 && work <= Rounds(Unit(tree), rounds)
  {
    PlacedClosed(states, tree, 0, MATCH_STATE);
    PlacedRanges(states, tree, 0, MATCH_STATE);
    FoundMeans(tree, anchorStart, anchorEnd, text);
    ghost var unit := Unit(tree);
    var current;
    current, work := Begin(states, tree, start, anchorStart, text);
    AcceptanceIsMatch(states, tree, anchorStart, text, 0);
    if MATCH_STATE in current && !anchorEnd {
      return true, work, 1;
    }
    var pos := 0;
    while pos < |text|
      invariant 0 <= pos <= |text|
      invariant Tracks(states, start, anchorStart, text, pos, current)
      invariant !anchorEnd ==> forall k :: 0 <= k <= pos ==> !MatchEndsAt(tree, anchorStart, text, k)
      invariant work <= Rounds(unit, pos + 1)
    {
      ghost var cost;
      current, cost := Advance(states, start, anchorStart, text, pos, current, text[pos]);
      work := work + cost;
      pos := pos + 1;
      AcceptanceIsMatch(states, tree, anchorStart, text, pos);
      if MATCH_STATE in current && !anchorEnd {
        return true, work, pos + 1;
      }
      if current == {} {
        NoneLeft(states, tree, anchorStart, text, pos);
        return false, work, pos + 1;
      }
    }
    AcceptanceIsMatch(states, tree, anchorStart, text, |text|);
    found := MATCH_STATE in current;
    rounds := pos + 1;
  }

  lemma {:induction false} NoneLeft(states: seq<NState>, tree: Frag, anchorStart: bool, text: string, pos: nat)
    requires pos <= |text| && Placed(states, tree, 0, MATCH_STATE) && |states| == Cost(tree)
    requires Tracks(states, Entry(tree, 0, MATCH_STATE), anchorStart, text, pos, {})
    ensures forall k :: pos <= k <= |text| ==> !MatchEndsAt(tree, anchorStart, text, k)
  {
    forall k | pos <= k <= |text|
      ensures !MatchEndsAt(tree, anchorStart, text, k)
    {
      DeadStaysDead(states, Entry(tree, 0, MATCH_STATE), anchorStart, text, pos, k, MATCH_STATE);
      AcceptanceIsMatch(states, tree, anchorStart, text, k);
    }
  }
}
