/**
Thompson compilation of a regex tree to a flat list of states, with the star and plus
loops patched after their body is laid out, and the proof that the resulting automaton
accepts exactly the language of the tree.
*/
module RegexNfa {
  import opened RegexTree

  /** The index that means "accepted"; it is also the placeholder a loop holds until it is patched. */
  const MATCH_STATE := -1

  datatype NState =
    | Atom(test: CharTest, out: int)
    | Split(out: int, out2: int)

  // ---------- compilation ----------

  /** The entry index of `node` compiled at index `at` with continuation `nxt`. */
  function Entry(node: Frag, at: nat, nxt: int): (e: int)
    ensures at <= e < at + Cost(node) || e == nxt
  {
    match node
    case Empty => nxt
    case One(_) => at
    case Cat(l, r) => Entry(l, at + Cost(r), Entry(r, at, nxt))
    case Alt(l, r) => at + Cost(l) + Cost(r)
    case Opt(l) => at + Cost(l)
    case Star(l) => at
    case Plus(l) => Entry(l, at + 1, at)
  }

  function End(node: Frag, at: nat): nat {
    at + Cost(node)
  }

  /** The states of `node`, compiled at index `at` with continuation `nxt`, sit where the compiler puts them. */
  ghost predicate Placed(states: seq<NState>, node: Frag, at: nat, nxt: int)
    decreases node, 0
  {
    && End(node, at) <= |states|
    && match node
       case Empty => true
       case One(t) => states[at] == Atom(t, nxt)
       case Cat(l, r) => Placed(states, r, at, nxt) && Placed(states, l, End(r, at), Entry(r, at, nxt))
       case Alt(l, r) =>
         && Placed(states, l, at, nxt) && Placed(states, r, End(l, at), nxt)
         && states[End(r, End(l, at))] == Split(Entry(l, at, nxt), Entry(r, End(l, at), nxt))
       case Opt(l) => Placed(states, l, at, nxt) && states[End(l, at)] == Split(Entry(l, at, nxt), nxt)
       case Star(l) => LoopPlaced(states, l, at, nxt)
       case Plus(l) => LoopPlaced(states, l, at, nxt)
  }

  /** Star and plus lay out the same states; only their entries differ. */
  ghost predicate LoopPlaced(states: seq<NState>, l: Frag, at: nat, nxt: int)
    decreases l, 1
  {
    && End(l, at + 1) <= |states|
    && states[at] == Split(Entry(l, at + 1, at), nxt)
    && Placed(states, l, at + 1, at)
  }

  /** A layout depends only on its own segment. */
  lemma {:induction false} PlacedFrame(states: seq<NState>, states': seq<NState>, node: Frag, at: nat, nxt: int)
    requires Placed(states, node, at, nxt)
    requires End(node, at) <= |states'| && forall i :: at <= i < End(node, at) ==> states[i] == states'[i]
    ensures Placed(states', node, at, nxt)
  {
    match node
    case Empty =>
    case One(_) =>
    case Cat(l, r) =>
      PlacedFrame(states, states', r, at, nxt);
      PlacedFrame(states, states', l, End(r, at), Entry(r, at, nxt));
    case Alt(l, r) =>
      PlacedFrame(states, states', l, at, nxt);
      PlacedFrame(states, states', r, End(l, at), nxt);
    case Opt(l) => PlacedFrame(states, states', l, at, nxt);
    case Star(l) => PlacedFrame(states, states', l, at + 1, at);
    case Plus(l) => PlacedFrame(states, states', l, at + 1, at);
  }

  // What each kind of node leaves behind, from what compiling its parts left behind.

  lemma {:induction false} JoinCat(mid: seq<NState>, states: seq<NState>, l: Frag, r: Frag, at: nat, nxt: int)
    requires mid <= states && |mid| == End(r, at) && Placed(mid, r, at, nxt)
    requires Placed(states, l, End(r, at), Entry(r, at, nxt))
    ensures Placed(states, Cat(l, r), at, nxt)
    ensures End(Cat(l, r), at) == End(l, End(r, at))
    ensures Entry(Cat(l, r), at, nxt) == Entry(l, End(r, at), Entry(r, at, nxt))
  {
    PlacedFrame(mid, states, r, at, nxt);
  }

  lemma {:induction false} JoinAlt(mid: seq<NState>,
      late: seq<NState>, l: Frag, r: Frag, at: nat, nxt: int, split: NState)
    requires mid <= late && |mid| == End(l, at) && |late| == End(r, End(l, at))
    requires Placed(mid, l, at, nxt) && Placed(late, r, End(l, at), nxt)
    requires split == Split(Entry(l, at, nxt), Entry(r, End(l, at), nxt))
    ensures Placed(late + [split], Alt(l, r), at, nxt)
    ensures |late| + 1 == End(Alt(l, r), at) && Entry(Alt(l, r), at, nxt) == |late|
  {
    PlacedFrame(mid, late + [split], l, at, nxt);
    PlacedFrame(late, late + [split], r, End(l, at), nxt);
  }

  lemma {:induction false} JoinOpt(mid: seq<NState>, l: Frag, at: nat, nxt: int, split: NState)
    requires |mid| == End(l, at) && Placed(mid, l, at, nxt) && split == Split(Entry(l, at, nxt), nxt)
    ensures Placed(mid + [split], Opt(l), at, nxt)
    ensures |mid| + 1 == End(Opt(l), at) && Entry(Opt(l), at, nxt) == |mid|
  {
    PlacedFrame(mid, mid + [split], l, at, nxt);
  }

  /** Patching the split laid down before a loop's body completes the loop. */
  lemma {:induction false} JoinLoop(mid: seq<NState>, l: Frag, at: nat, nxt: int, split: NState)
    requires |mid| == End(l, at + 1) && Placed(mid, l, at + 1, at) && split == Split(Entry(l, at + 1, at), nxt)
    ensures Placed(mid[at := split], Star(l), at, nxt) && Placed(mid[at := split], Plus(l), at, nxt)
    ensures |mid| == End(Star(l), at) == End(Plus(l), at)
    ensures Entry(Star(l), at, nxt) == at && Entry(Plus(l), at, nxt) == Entry(l, at + 1, at)
  {
    PlacedFrame(mid, mid[at := split], l, at + 1, at);
  }

  /** Compiling `node` appended exactly its layout, entered at `entry`, and changed nothing before it. */
  ghost predicate Built(before: seq<NState>, states: seq<NState>, node: Frag, nxt: int, entry: int) {
    && before <= states && |states| == End(node, |before|)
    && Placed(states, node, |before|, nxt)
    && entry == Entry(node, |before|, nxt)
  }

  lemma {:induction false} BuiltLoop(before: seq<NState>, late: seq<NState>, l: Frag, nxt: int, body: int)
    requires Built(before + [Split(-1, nxt)], late, l, |before|, body)
    ensures |before| < |late|
    ensures Built(before, late[|before| := Split(body, nxt)], Star(l), nxt, |before|)
    ensures Built(before, late[|before| := Split(body, nxt)], Plus(l), nxt, body)
  {
    var at := |before|;
    assert |before + [Split(-1, nxt)]| == at + 1;
    JoinLoop(late, l, at, nxt, Split(body, nxt));
    assert before <= late by { assert before == (before + [Split(-1, nxt)])[..at] == late[..at]; }
    assert late[at := Split(body, nxt)][..at] == late[..at];
  }

  class Compiler {
    var states: seq<NState>

    constructor ()
      ensures states == []
    {
      states := [];
    }

    /** Appends exactly the states of `node` and returns its entry; nothing already in the list changes. */
    method Compile(node: Frag, nxt: int) returns (entry: int)
      modifies this
      ensures Built(old(states), states, node, nxt, entry)
      decreases node, 1
    {
      match node
      case Empty =>
        entry := nxt;
      case One(t) =>
        states := states + [Atom(t, nxt)];
        entry := |states| - 1;
      case Cat(l, r) =>
        entry := CompileCat(l, r, nxt);
      case Alt(l, r) =>
        entry := CompileAlt(l, r, nxt);
      case Opt(l) =>
        entry := CompileOpt(l, nxt);
      case Star(l) =>
        var split, body := CompileLoop(l, nxt);
        entry := split;
      case Plus(l) =>
        var split, body := CompileLoop(l, nxt);
        entry := body;
    }

    /** The right part first, because the left part continues into it. */
    method CompileCat(l: Frag, r: Frag, nxt: int) returns (entry: int)
      modifies this
      ensures Built(old(states), states, Cat(l, r), nxt, entry)
      decreases Cat(l, r), 0
    {
      ghost var at := |states|;
      var second := Compile(r, nxt);
      ghost var mid := states;
      entry := Compile(l, second);
      JoinCat(mid, states, l, r, at, nxt);
    }

    method CompileAlt(l: Frag, r: Frag, nxt: int) returns (entry: int)
      modifies this
      ensures Built(old(states), states, Alt(l, r), nxt, entry)
      decreases Alt(l, r), 0
    {
      ghost var at := |states|;
      var a := Compile(l, nxt);
      ghost var mid := states;
      var b := Compile(r, nxt);
      JoinAlt(mid, states, l, r, at, nxt, Split(a, b));
      states := states + [Split(a, b)];
      entry := |states| - 1;
    }

    method CompileOpt(l: Frag, nxt: int) returns (entry: int)
      modifies this
      ensures Built(old(states), states, Opt(l), nxt, entry)
      decreases Opt(l), 0
    {
      ghost var at := |states|;
      var a := Compile(l, nxt);
      JoinOpt(states, l, at, nxt, Split(a, nxt));
      states := states + [Split(a, nxt)];
      entry := |states| - 1;
    }

    /** A split with a placeholder, the body that loops back to it, and then the split patched to enter the body. */
    method CompileLoop(l: Frag, nxt: int) returns (split: int, body: int)
      modifies this
      ensures Built(old(states), states, Star(l), nxt, split) && Built(old(states), states, Plus(l), nxt, body)
      decreases l, 2
    {
      states := states + [Split(-1, nxt)];
      split := |states| - 1;
      body := Compile(l, split);
      BuiltLoop(old(states), states, l, nxt, body);
      states := states[split := Split(body, nxt)];
    }
  }

  // ---------- runs of the automaton ----------

  /** `n` steps from state `i` to state `j` reading `s`, every state left lying in [lo, hi). */
  ghost predicate Run(states: seq<NState>, lo: int, hi: int, i: int, s: string, j: int, n: nat)
    requires 0 <= lo <= hi <= |states|
    decreases n
  {
    if n == 0 then
      i == j && s == ""
    else if !(lo <= i < hi) then
      false
    else
      match states[i]
      case Split(a, b) => Run(states, lo, hi, a, s, j, n - 1) || Run(states, lo, hi, b, s, j, n - 1)
      case Atom(t, out) => s != "" && StateMatches(t, s[0]) && Run(states, lo, hi, out, s[1..], j, n - 1)
  }

  /** Every edge leaving [lo, hi) goes to `x`. */
  ghost predicate Closed(states: seq<NState>, lo: int, hi: int, x: int)
    requires 0 <= lo <= hi <= |states|
  {
    forall i :: lo <= i < hi ==>
      && (lo <= states[i].out < hi || states[i].out == x)
      && (states[i].Split? ==> lo <= states[i].out2 < hi || states[i].out2 == x)
  }

  lemma {:induction false} PlacedClosed(states: seq<NState>, node: Frag, at: nat, nxt: int)
    requires Placed(states, node, at, nxt)
    ensures Closed(states, at, End(node, at), nxt)
    decreases node, 0
  {
    match node
    case Empty =>
    case One(t) =>
    case Cat(l, r) =>
      PlacedClosed(states, r, at, nxt);
      PlacedClosed(states, l, End(r, at), Entry(r, at, nxt));
    case Alt(l, r) =>
      PlacedClosed(states, l, at, nxt);
      PlacedClosed(states, r, End(l, at), nxt);
    case Opt(l) =>
      PlacedClosed(states, l, at, nxt);
    case Star(l) =>
      LoopClosed(states, l, at, nxt);
    case Plus(l) =>
      LoopClosed(states, l, at, nxt);
  }

  lemma {:induction false} LoopClosed(states: seq<NState>, l: Frag, at: nat, nxt: int)
    requires LoopPlaced(states, l, at, nxt)
    ensures Closed(states, at, End(l, at + 1), nxt)
    decreases l, 1
  {
    PlacedClosed(states, l, at + 1, at);
  }

  /** A run inside a sub-range followed by a run in the range is a run in the range. */
  lemma {:induction false} RunConcat(states: seq<NState>, lo: int, hi: int, ml: int, mh: int,
                                     i: int, s: string, x: int, n: nat, s': string, j: int, n': nat)
    requires 0 <= lo <= ml <= mh <= hi <= |states|
    requires Run(states, ml, mh, i, s, x, n) && Run(states, lo, hi, x, s', j, n')
    ensures Run(states, lo, hi, i, s + s', j, n + n')
    decreases n
  {
    if n == 0 {
      assert s + s' == s';
    } else {
      match states[i]
      case Split(a, b) =>
        if Run(states, ml, mh, a, s, x, n - 1) {
          RunConcat(states, lo, hi, ml, mh, a, s, x, n - 1, s', j, n');
        } else {
          RunConcat(states, lo, hi, ml, mh, b, s, x, n - 1, s', j, n');
        }
      case Atom(_, out) =>
        assert (s + s')[1..] == s[1..] + s';
        RunConcat(states, lo, hi, ml, mh, out, s[1..], x, n - 1, s', j, n');
    }
  }

  /** A run that starts in a sub-range whose only exit is `x` passes through `x`. */
  lemma {:induction false} FirstExit(states: seq<NState>, lo: int, hi: int, ml: int, mh: int,
                                     x: int, i: int, s: string, j: int, n: nat)
    returns (k: nat, n1: nat)
    requires 0 <= lo <= ml <= mh <= hi <= |states|
    requires Closed(states, ml, mh, x)
    requires (ml <= i < mh || i == x) && !(ml <= j < mh) && !(ml <= x < mh)
    requires Run(states, lo, hi, i, s, j, n)
    ensures k <= |s| && n1 <= n
    ensures Run(states, ml, mh, i, s[..k], x, n1) && Run(states, lo, hi, x, s[k..], j, n - n1)
    ensures i != x ==> n1 > 0
    decreases n
  {
    if i == x {
      k, n1 := 0, 0;
      assert s[0..] == s;
    } else {
      match states[i]
      case Split(a, b) =>
        var c := if Run(states, lo, hi, a, s, j, n - 1) then a else b;
        k, n1 := FirstExit(states, lo, hi, ml, mh, x, c, s, j, n - 1);
        n1 := n1 + 1;
      case Atom(_, out) =>
        k, n1 := FirstExit(states, lo, hi, ml, mh, x, out, s[1..], j, n - 1);
        assert s[1..][..k] == s[..k + 1][1..];
        assert s[1..][k..] == s[k + 1..];
        k, n1 := k + 1, n1 + 1;
    }
  }

  /** A run that has left for `j` outside the range cannot continue. */
  lemma {:induction false} Stopped(states: seq<NState>, lo: int, hi: int, i: int, s: string, j: int, n: nat)
    requires 0 <= lo <= hi <= |states|
    requires !(lo <= i < hi) && Run(states, lo, hi, i, s, j, n)
    ensures n == 0 && i == j && s == ""
  {
  }

  // ---------- a run through a compiled node reads a string of its language ----------

  lemma {:induction false} Sound(states: seq<NState>, node: Frag, at: nat, nxt: int, s: string, n: nat)
    requires Placed(states, node, at, nxt)
    requires !(at <= nxt < End(node, at))
    requires Run(states, at, End(node, at), Entry(node, at, nxt), s, nxt, n)
    ensures Matches(node, s)
    decreases node, n, 2
  {
    match node
    case Empty =>
    case One(t) => SoundOne(states, t, at, nxt, s, n);
    case Cat(_, _) => SoundJoined(states, node, at, nxt, s, n);
    case Alt(_, _) => SoundJoined(states, node, at, nxt, s, n);
    case _ => SoundRepeated(states, node, at, nxt, s, n);
  }

  lemma {:induction false} SoundJoined(states: seq<NState>, node: Frag, at: nat, nxt: int, s: string, n: nat)
    requires node.Cat? || node.Alt?
    requires Placed(states, node, at, nxt)
    requires !(at <= nxt < End(node, at))
    requires Run(states, at, End(node, at), Entry(node, at, nxt), s, nxt, n)
    ensures Matches(node, s)
    decreases node, n, 1
  {
    match node
    case Cat(l, r) => SoundCat(states, l, r, at, End(r, at), Entry(r, at, nxt), nxt, s, n);
    case Alt(l, r) => SoundAlt(states, l, r, at, nxt, s, n);
  }

  lemma {:induction false} SoundRepeated(states: seq<NState>, node: Frag, at: nat, nxt: int, s: string, n: nat)
    requires node.Opt? || node.Star? || node.Plus?
    requires Placed(states, node, at, nxt)
    requires !(at <= nxt < End(node, at))
    requires Run(states, at, End(node, at), Entry(node, at, nxt), s, nxt, n)
    ensures Matches(node, s)
    decreases node, n, 1
  {
    match node
    case Opt(l) => SoundOpt(states, l, at, nxt, s, n);
    case Star(l) => var parts := SoundLoop(states, l, at, nxt, s, n);
    case Plus(l) => SoundPlus(states, l, at, nxt, s, n);
  }

  lemma {:induction false} SoundOne(states: seq<NState>, t: CharTest, at: nat, nxt: int, s: string, n: nat)
    requires Placed(states, One(t), at, nxt) && nxt != at
    requires Run(states, at, at + 1, at, s, nxt, n)
    ensures Matches(One(t), s)
  {
    Stopped(states, at, at + 1, nxt, s[1..], nxt, n - 1);
  }

  /** As `Sound`, for a run allowed to wander in a wider range that does not hold `nxt`. */
  lemma {:induction false} SoundWithin(states: seq<NState>, node: Frag, at: nat, nxt: int, s: string,
                                       lo: int, hi: int, n: nat)
    requires Placed(states, node, at, nxt)
    requires 0 <= lo <= at && End(node, at) <= hi <= |states| && !(lo <= nxt < hi)
    requires Run(states, lo, hi, Entry(node, at, nxt), s, nxt, n)
    ensures Matches(node, s)
    decreases node, n, 3
  {
    PlacedClosed(states, node, at, nxt);
    var k, n1 := FirstExit(states, lo, hi, at, End(node, at), nxt, Entry(node, at, nxt), s, nxt, n);
    Stopped(states, lo, hi, nxt, s[k..], nxt, n - n1);
    assert s[..k] == s;
    Sound(states, node, at, nxt, s, n1);
  }

  /** The right part sits first, at `at`; the left part follows it, at `m`, and continues into it at `mid`. */
  lemma {:induction false} SoundCat(states: seq<NState>, l: Frag, r: Frag, at: nat, m: nat, mid: int, nxt: int,
      s: string, n: nat)
    requires m == End(r, at) && mid == Entry(r, at, nxt)
    requires Placed(states, r, at, nxt) && Placed(states, l, m, mid)
    requires !(at <= nxt < End(l, m))
    requires Run(states, at, End(l, m), Entry(l, m, mid), s, nxt, n)
    ensures Matches(Cat(l, r), s)
    decreases Cat(l, r), n, 0
  {
    var hi := End(l, m);
    var k, n1 := LeaveLeft(states, l, at, m, mid, nxt, hi, s, n);
    Sound(states, l, m, mid, s[..k], n1);
    SoundWithin(states, r, at, nxt, s[k..], at, hi, n - n1);
    MatchesCat(l, r, s, k);
  }

  /** The part of the run up to the moment it leaves the left part, and the part after. */
  lemma {:induction false} LeaveLeft(states: seq<NState>, l: Frag, at: nat, m: nat, mid: int, nxt: int, hi: nat,
      s: string, n: nat)
    returns (k: nat, n1: nat)
    requires at <= m && hi == End(l, m) && Placed(states, l, m, mid) && !(m <= mid < hi)
    requires !(at <= nxt < hi)
    requires Run(states, at, hi, Entry(l, m, mid), s, nxt, n)
    ensures k <= |s| && n1 <= n
    ensures Run(states, m, hi, Entry(l, m, mid), s[..k], mid, n1) && Run(states, at, hi, mid, s[k..], nxt, n - n1)
  {
    PlacedClosed(states, l, m, mid);
    k, n1 := FirstExit(states, at, hi, m, hi, mid, Entry(l, m, mid), s, nxt, n);
  }

  lemma {:induction false} MatchesCat(l: Frag, r: Frag, s: string, k: nat)
    requires k <= |s| && Matches(l, s[..k]) && Matches(r, s[k..])
    ensures Matches(Cat(l, r), s)
  {
  }

  lemma {:induction false} SoundAlt(states: seq<NState>, l: Frag, r: Frag, at: nat, nxt: int, s: string, n: nat)
    requires Placed(states, Alt(l, r), at, nxt)
    requires !(at <= nxt < End(Alt(l, r), at))
    requires Run(states, at, End(Alt(l, r), at), Entry(Alt(l, r), at, nxt), s, nxt, n)
    ensures Matches(Alt(l, r), s)
    decreases Alt(l, r), n, 0
  {
    var hi := End(Alt(l, r), at);
    if Run(states, at, hi, Entry(l, at, nxt), s, nxt, n - 1) {
      SoundWithin(states, l, at, nxt, s, at, hi, n - 1);
    } else {
      SoundWithin(states, r, End(l, at), nxt, s, at, hi, n - 1);
    }
  }

  lemma {:induction false} SoundOpt(states: seq<NState>, l: Frag, at: nat, nxt: int, s: string, n: nat)
    requires Placed(states, Opt(l), at, nxt)
    requires !(at <= nxt < End(Opt(l), at))
    requires Run(states, at, End(Opt(l), at), Entry(Opt(l), at, nxt), s, nxt, n)
    ensures Matches(Opt(l), s)
    decreases Opt(l), n, 0
  {
    var hi := End(Opt(l), at);
    if Run(states, at, hi, Entry(l, at, nxt), s, nxt, n - 1) {
      SoundWithin(states, l, at, nxt, s, at, hi, n - 1);
    } else {
      Stopped(states, at, hi, nxt, s, nxt, n - 1);
    }
  }

  /** Each trip round a patched loop reads one more string of the body's language. */
  lemma {:induction false} SoundLoop(states: seq<NState>, l: Frag, at: nat, nxt: int, s: string, n: nat)
    returns (parts: seq<string>)
    requires LoopPlaced(states, l, at, nxt)
    requires !(at <= nxt < End(l, at + 1))
    requires Run(states, at, End(l, at + 1), at, s, nxt, n)
    ensures Flatten(parts) == s && forall p | p in parts :: Matches(l, p)
    decreases l, n, 5
  {
    var hi := End(l, at + 1);
    if Run(states, at, hi, Entry(l, at + 1, at), s, nxt, n - 1) {
      var k, n1 := OneTrip(states, l, at, nxt, s, n - 1);
      var rest := SoundLoop(states, l, at, nxt, s[k..], n - 1 - n1);
      parts := [s[..k]] + rest;
      assert Flatten(parts) == s[..k] + s[k..] == s;
    } else {
      Stopped(states, at, hi, nxt, s, nxt, n - 1);
      parts := [];
    }
  }

  /** A run from the loop's body comes back to the split after reading a string of the body's language. */
  lemma {:induction false} OneTrip(states: seq<NState>, l: Frag, at: nat, nxt: int, s: string, n: nat)
    returns (k: nat, n1: nat)
    requires LoopPlaced(states, l, at, nxt)
    requires !(at <= nxt < End(l, at + 1))
    requires Run(states, at, End(l, at + 1), Entry(l, at + 1, at), s, nxt, n)
    ensures k <= |s| && n1 <= n && Matches(l, s[..k])
    ensures Run(states, at, End(l, at + 1), at, s[k..], nxt, n - n1)
    decreases l, n, 4
  {
    PlacedClosed(states, l, at + 1, at);
    var hi := End(l, at + 1);
    k, n1 := FirstExit(states, at, hi, at + 1, hi, at, Entry(l, at + 1, at), s, nxt, n);
    Sound(states, l, at + 1, at, s[..k], n1);
  }

  lemma {:induction false} SoundPlus(states: seq<NState>, l: Frag, at: nat, nxt: int, s: string, n: nat)
    requires Placed(states, Plus(l), at, nxt)
    requires !(at <= nxt < End(Plus(l), at))
    requires Run(states, at, End(Plus(l), at), Entry(Plus(l), at, nxt), s, nxt, n)
    ensures Matches(Plus(l), s)
    decreases l, n, 6
  {
    var k, n1 := OneTrip(states, l, at, nxt, s, n);
    var rest := SoundLoop(states, l, at, nxt, s[k..], n - n1);
    var parts := [s[..k]] + rest;
    assert Flatten(parts) == s[..k] + s[k..] == s;
  }

  // ---------- every string of the language has a run ----------

  lemma {:induction false} Complete(states: seq<NState>, node: Frag, at: nat, nxt: int, s: string)
    returns (n: nat)
    requires Placed(states, node, at, nxt) && Matches(node, s)
    ensures Run(states, at, End(node, at), Entry(node, at, nxt), s, nxt, n)
    decreases node, 2
  {
    match node
    case Empty => n := 0;
    case One(t) => n := CompleteOne(states, t, at, nxt, s);
    case Cat(l, r) => n := CompleteCat(states, l, r, at, End(r, at), Entry(r, at, nxt), nxt, s);
    case Alt(l, r) => n := CompleteAlt(states, l, r, at, nxt, s);
    case _ => n := CompleteRepeated(states, node, at, nxt, s);
  }

  lemma {:induction false} CompleteRepeated(states: seq<NState>, node: Frag, at: nat, nxt: int, s: string)
    returns (n: nat)
    requires node.Opt? || node.Star? || node.Plus?
    requires Placed(states, node, at, nxt) && Matches(node, s)
    ensures Run(states, at, End(node, at), Entry(node, at, nxt), s, nxt, n)
    decreases node, 1
  {
    match node
    case Opt(l) => n := CompleteOpt(states, l, at, nxt, s);
    case Star(l) => n := CompleteStar(states, l, at, nxt, s);
    case Plus(l) => n := CompletePlus(states, l, at, nxt, s);
  }

  lemma {:induction false} CompleteStar(states: seq<NState>, l: Frag, at: nat, nxt: int, s: string)
    returns (n: nat)
    requires LoopPlaced(states, l, at, nxt) && Matches(Star(l), s)
    ensures Run(states, at, End(l, at + 1), at, s, nxt, n)
    decreases l, 4
  {
    var parts :| Flatten(parts) == s && forall p | p in parts :: Matches(l, p);
    n := CompleteLoop(states, l, at, nxt, parts);
  }

  lemma {:induction false} CompletePlus(states: seq<NState>, l: Frag, at: nat, nxt: int, s: string)
    returns (n: nat)
    requires LoopPlaced(states, l, at, nxt) && Matches(Plus(l), s)
    ensures Run(states, at, End(l, at + 1), Entry(l, at + 1, at), s, nxt, n)
    decreases l, 4
  {
    var parts :| parts != [] && Flatten(parts) == s && forall p | p in parts :: Matches(l, p);
    n := CompleteTrips(states, l, at, nxt, parts);
  }

  lemma {:induction false} CompleteOne(states: seq<NState>, t: CharTest, at: nat, nxt: int, s: string)
    returns (n: nat)
    requires Placed(states, One(t), at, nxt) && Matches(One(t), s)
    ensures Run(states, at, at + 1, at, s, nxt, n)
  {
    assert Run(states, at, at + 1, nxt, s[1..], nxt, 0);
    n := 1;
  }

  lemma {:induction false} SplitRun(states: seq<NState>, lo: int, hi: int, i: int, s: string, j: int, n: nat)
    requires 0 <= lo <= i < hi <= |states| && states[i].Split?
    requires Run(states, lo, hi, states[i].out, s, j, n) || Run(states, lo, hi, states[i].out2, s, j, n)
    ensures Run(states, lo, hi, i, s, j, n + 1)
  {
  }

  lemma {:induction false} Widen(states: seq<NState>, lo: int, hi: int, ml: int, mh: int, i: int, s: string, j: int,
      n: nat)
    requires 0 <= lo <= ml <= mh <= hi <= |states|
    requires Run(states, ml, mh, i, s, j, n)
    ensures Run(states, lo, hi, i, s, j, n)
  {
    RunConcat(states, lo, hi, ml, mh, i, s, j, n, "", j, 0);
    assert s + "" == s;
  }

  lemma {:induction false} CompleteCat(states: seq<NState>, l: Frag, r: Frag, at: nat, m: nat, mid: int, nxt: int,
      s: string)
    returns (n: nat)
    requires m == End(r, at) && mid == Entry(r, at, nxt)
    requires Placed(states, r, at, nxt) && Placed(states, l, m, mid)
    requires Matches(Cat(l, r), s)
    ensures Run(states, at, End(l, m), Entry(l, m, mid), s, nxt, n)
    decreases Cat(l, r), 0
  {
    var k := CutOf(l, r, s);
    n := CompleteBoth(states, l, r, at, m, mid, nxt, s[..k], s[k..]);
    assert s[..k] + s[k..] == s;
  }

  lemma {:induction false} CutOf(l: Frag, r: Frag, s: string) returns (k: nat)
    requires Matches(Cat(l, r), s)
    ensures k <= |s| && Matches(l, s[..k]) && Matches(r, s[k..])
  {
    k :| 0 <= k <= |s| && Matches(l, s[..k]) && Matches(r, s[k..]);
  }

  lemma {:induction false} CompleteBoth(states: seq<NState>, l: Frag, r: Frag, at: nat, m: nat, mid: int, nxt: int,
      s: string, s': string)
    returns (n: nat)
    requires m == End(r, at) && mid == Entry(r, at, nxt)
    requires Placed(states, r, at, nxt) && Placed(states, l, m, mid)
    requires Matches(l, s) && Matches(r, s')
    ensures Run(states, at, End(l, m), Entry(l, m, mid), s + s', nxt, n)
    decreases Cat(l, r), -1
  {
    var hi, e := End(l, m), Entry(l, m, mid);
    assert at <= m <= hi <= |states|;
    var nl := Complete(states, l, m, mid, s);
    var nr := Complete(states, r, at, nxt, s');
    RunBoth(states, at, hi, m, at, m, e, s, mid, nl, s', nxt, nr);
    n := nl + nr;
  }

  lemma {:induction false} RunBoth(states: seq<NState>, lo: int, hi: int, ml: int, ml': int, mh': int,
                i: int, s: string, x: int, n: nat, s': string, j: int, n': nat)
    requires 0 <= lo <= ml <= hi <= |states| && lo <= ml' <= mh' <= hi
    requires Run(states, ml, hi, i, s, x, n) && Run(states, ml', mh', x, s', j, n')
    ensures Run(states, lo, hi, i, s + s', j, n + n')
  {
    Widen(states, lo, hi, ml', mh', x, s', j, n');
    RunConcat(states, lo, hi, ml, hi, i, s, x, n, s', j, n');
  }

  lemma {:induction false} CompleteAlt(states: seq<NState>, l: Frag, r: Frag, at: nat, nxt: int, s: string)
    returns (n: nat)
    requires Placed(states, Alt(l, r), at, nxt) && Matches(Alt(l, r), s)
    ensures Run(states, at, End(Alt(l, r), at), Entry(Alt(l, r), at, nxt), s, nxt, n)
    decreases Alt(l, r), 0
  {
    var m, hi := End(l, at), End(Alt(l, r), at);
    if Matches(l, s) {
      n := Complete(states, l, at, nxt, s);
      Widen(states, at, hi, at, m, Entry(l, at, nxt), s, nxt, n);
    } else {
      n := Complete(states, r, m, nxt, s);
      Widen(states, at, hi, m, hi - 1, Entry(r, m, nxt), s, nxt, n);
    }
    SplitRun(states, at, hi, hi - 1, s, nxt, n);
    n := n + 1;
  }

  lemma {:induction false} CompleteOpt(states: seq<NState>, l: Frag, at: nat, nxt: int, s: string)
    returns (n: nat)
    requires Placed(states, l, at, nxt) && End(l, at) < |states|
    requires states[End(l, at)] == Split(Entry(l, at, nxt), nxt)
    requires s == "" || Matches(l, s)
    ensures Run(states, at, End(l, at) + 1, End(l, at), s, nxt, n)
    decreases Opt(l), 0
  {
    var hi := End(l, at) + 1;
    if s == "" {
      n := 0;
    } else {
      n := Complete(states, l, at, nxt, s);
      Widen(states, at, hi, at, End(l, at), Entry(l, at, nxt), s, nxt, n);
    }
    SplitRun(states, at, hi, End(l, at), s, nxt, n);
    n := n + 1;
  }

  lemma {:induction false} CompleteLoop(states: seq<NState>, l: Frag, at: nat, nxt: int, parts: seq<string>)
    returns (n: nat)
    requires LoopPlaced(states, l, at, nxt)
    requires forall p | p in parts :: Matches(l, p)
    ensures Run(states, at, End(l, at + 1), at, Flatten(parts), nxt, n)
    decreases l, 3, 2 * |parts| + 1
  {
    if parts == [] {
      assert Run(states, at, End(l, at + 1), nxt, "", nxt, 0);
      n := 0;
    } else {
      n := CompleteTrips(states, l, at, nxt, parts);
    }
    n := n + 1;
  }

  /** Once round the loop for every part, starting at the body. */
  lemma {:induction false} CompleteTrips(states: seq<NState>, l: Frag, at: nat, nxt: int, parts: seq<string>)
    returns (n: nat)
    requires LoopPlaced(states, l, at, nxt)
    requires parts != [] && forall p | p in parts :: Matches(l, p)
    ensures Run(states, at, End(l, at + 1), Entry(l, at + 1, at), Flatten(parts), nxt, n)
    decreases l, 3, 2 * |parts|
  {
    var hi := End(l, at + 1);
    var n1 := Complete(states, l, at + 1, at, parts[0]);
    var n2 := CompleteLoop(states, l, at, nxt, parts[1..]);
    RunConcat(states, at, hi, at + 1, hi, Entry(l, at + 1, at), parts[0], at, n1, Flatten(parts[1..]), nxt, n2);
    n := n1 + n2;
  }

  // ---------- the whole automaton ----------

  ghost predicate Reaches(states: seq<NState>, i: int, s: string, j: int)
  {
    exists n: nat :: Run(states, 0, |states|, i, s, j, n)
  }

  /** The automaton compiled from a tree accepts exactly the tree's language. */
  lemma {:induction false} CompiledLanguage(states: seq<NState>, node: Frag, s: string)
    requires Placed(states, node, 0, MATCH_STATE) && |states| == Cost(node)
    ensures Reaches(states, Entry(node, 0, MATCH_STATE), s, MATCH_STATE) <==> Matches(node, s)
  {
    var start := Entry(node, 0, MATCH_STATE);
    if Reaches(states, start, s, MATCH_STATE) {
      var n: nat :| Run(states, 0, |states|, start, s, MATCH_STATE, n);
      Sound(states, node, 0, MATCH_STATE, s, n);
    }
    if Matches(node, s) {
      var n := Complete(states, node, 0, MATCH_STATE, s);
    }
  }
}
