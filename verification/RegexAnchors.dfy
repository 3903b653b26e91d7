/**
What the anchors of a pattern reach. `regex_search` of app/policy_as_code/cel.py strips them
from the ends of the whole pattern, so they tie every branch of an alternation; in ordinary
regular expressions `^` ties only the first branch and `$` only the last.
*/
module RegexAnchors {
  import opened Common
  import opened RegexTree
  import opened RegexSyntax
  import opened RegexSearch

  // ---------- the top-level branches of a pattern ----------

  /** The branches between the bars of a pattern, as its text separates them, and what follows them. */
  function GBranches(s: string): (r: Parsed<seq<Frag>>)
    ensures r.Ok? ==> r.value.0 != []
    decreases |s|
  {
    var (first, rest) :- GCat(s, None);
    if Starts(rest, "|") then
      var (more, after) :- GBranches(rest[1..]);
      Ok(([first] + more, after))
    else
      Ok(([first], rest))
  }

  function Branches(body: string): (r: Result<seq<Frag>, RegexError>)
    ensures r.Ok? ==> r.value != []
  {
    var (branches, rest) :- GBranches(body);
    if rest == "" then Ok(branches) else Err(Unexpected)
  }

  /** A left-associated alternation. */
  function AltOf(node: Frag, more: seq<Frag>): Frag
    decreases more
  {
    if more == [] then node else AltOf(Alt(node, more[0]), more[1..])
  }

  lemma {:induction false} AltRestBranches(s: string, node: Frag)
    ensures GAltRest(s, node) ==
      if !Starts(s, "|") then Ok((node, s))
      else
        match GBranches(s[1..])
        case Ok((more, rest)) => Ok((AltOf(node, more), rest))
        case Err(e) => Err(e)
    decreases |s|
  {
    if Starts(s, "|") {
      var right := GCat(s[1..], None);
      if right.Ok? {
        var (r, rest) := right.value;
        AltRestBranches(rest, Alt(node, r));
        if Starts(rest, "|") && GBranches(rest[1..]).Ok? {
          var more := GBranches(rest[1..]).value.0;
          assert ([r] + more)[1..] == more;
        } else {
          assert [r][1..] == [];
        }
      }
    }
  }

  /** Parsing a pattern gives the alternation of its branches, or fails as they do. */
  lemma {:induction false} ParseIsAlternation(body: string)
    ensures ParseRegex(body) ==
      match Branches(body)
      case Ok(branches) => Ok(AltOf(branches[0], branches[1..]))
      case Err(e) => Err(e)
  {
    var first := GCat(body, None);
    if first.Ok? {
      var (f, rest) := first.value;
      AltRestBranches(rest, f);
      if Starts(rest, "|") && GBranches(rest[1..]).Ok? {
        var more := GBranches(rest[1..]).value.0;
        assert ([f] + more)[1..] == more;
      } else {
        assert [f][1..] == [];
      }
    }
  }

  // ---------- the two readings of the anchors ----------

  /** Some branch matches a part of the text, and every branch is tied as the whole pattern is. */
  ghost predicate Tied(branches: seq<Frag>, anchorStart: bool, anchorEnd: bool, text: string) {
    exists i :: 0 <= i < |branches| && Found(branches[i], anchorStart, anchorEnd, text)
  }

  /** Some branch matches, and only the branch an anchor is written in is tied by it. */
  ghost predicate Ordinary(branches: seq<Frag>, anchorStart: bool, anchorEnd: bool, text: string) {
    exists i :: 0 <= i < |branches| && FoundAt(branches, i, anchorStart, anchorEnd, text)
  }

  ghost predicate FoundAt(branches: seq<Frag>, i: nat, anchorStart: bool, anchorEnd: bool, text: string)
    requires i < |branches|
  {
    Found(branches[i], anchorStart && i == 0, anchorEnd && i == |branches| - 1, text)
  }

  lemma {:induction false} FoundInAlt(l: Frag, r: Frag, anchorStart: bool, anchorEnd: bool, text: string)
    ensures Found(Alt(l, r), anchorStart, anchorEnd, text)
            <==> Found(l, anchorStart, anchorEnd, text) || Found(r, anchorStart, anchorEnd, text)
  {
    if Found(Alt(l, r), anchorStart, anchorEnd, text) {
      var lo, hi :| 0 <= lo <= hi <= |text| && (anchorStart ==> lo == 0) && (anchorEnd ==> hi == |text|)
                    && Matches(Alt(l, r), text[lo..hi]);
      assert Matches(l, text[lo..hi]) || Matches(r, text[lo..hi]);
    }
    if f :| (f == l || f == r) && Found(f, anchorStart, anchorEnd, text) {
      var lo, hi :| 0 <= lo <= hi <= |text| && (anchorStart ==> lo == 0) && (anchorEnd ==> hi == |text|)
                    && Matches(f, text[lo..hi]);
      assert Matches(Alt(l, r), text[lo..hi]);
    }
  }

  lemma {:induction false} FoundInAltOf(node: Frag, more: seq<Frag>, anchorStart: bool, anchorEnd: bool, text: string)
    ensures Found(AltOf(node, more), anchorStart, anchorEnd, text)
            <==> Found(node, anchorStart, anchorEnd, text) || Tied(more, anchorStart, anchorEnd, text)
    decreases |more|
  {
    if more != [] {
      FoundInAltOf(Alt(node, more[0]), more[1..], anchorStart, anchorEnd, text);
      FoundInAlt(node, more[0], anchorStart, anchorEnd, text);
      TiedCons(more, anchorStart, anchorEnd, text);
    }
  }

  lemma {:induction false} TiedCons(bs: seq<Frag>, anchorStart: bool, anchorEnd: bool, text: string)
    requires bs != []
    ensures Tied(bs, anchorStart, anchorEnd, text)
            <==> Found(bs[0], anchorStart, anchorEnd, text) || Tied(bs[1..], anchorStart, anchorEnd, text)
  {
    if Tied(bs[1..], anchorStart, anchorEnd, text) {
      var i :| 0 <= i < |bs| - 1 && Found(bs[1..][i], anchorStart, anchorEnd, text);
      assert Found(bs[i + 1], anchorStart, anchorEnd, text);
    }
    if Tied(bs, anchorStart, anchorEnd, text) {
      var i :| 0 <= i < |bs| && Found(bs[i], anchorStart, anchorEnd, text);
      if i > 0 { assert Found(bs[1..][i - 1], anchorStart, anchorEnd, text); }
    }
  }

  /** The pattern has these branches between these anchors. */
  predicate Reads(pattern: string, anchorStart: bool, branches: seq<Frag>, anchorEnd: bool) {
    |pattern| <= MAX_PATTERN && Anchors(pattern).0 == anchorStart && Anchors(pattern).2 == anchorEnd
    && Branches(Anchors(pattern).1) == Ok(branches)
  }

  /** For every pattern, the search ties all of its branches. */
  lemma {:induction false} AnchorsTieAll(pattern: string, anchorStart: bool,
      branches: seq<Frag>, anchorEnd: bool, text: string)
    requires Reads(pattern, anchorStart, branches, anchorEnd)
    ensures SearchMeaning(pattern, text) == Ok(Tied(branches, anchorStart, anchorEnd, text))
  {
    ParseIsAlternation(Anchors(pattern).1);
    FoundInAltOf(branches[0], branches[1..], anchorStart, anchorEnd, text);
    TiedCons(branches, anchorStart, anchorEnd, text);
  }

  lemma {:induction false} Untie(f: Frag, s: bool, e: bool, s': bool, e': bool, text: string)
    requires Found(f, s, e, text) && (s' ==> s) && (e' ==> e)
    ensures Found(f, s', e', text)
  {
    var lo, hi :| 0 <= lo <= hi <= |text| && (s ==> lo == 0) && (e ==> hi == |text|) && Matches(f, text[lo..hi]);
  }

  /** What the search finds, ordinary anchors find too. */
  lemma {:induction false} TiedIsOrdinary(branches: seq<Frag>, anchorStart: bool, anchorEnd: bool, text: string)
    requires Tied(branches, anchorStart, anchorEnd, text)
    ensures Ordinary(branches, anchorStart, anchorEnd, text)
  {
    var i :| 0 <= i < |branches| && Found(branches[i], anchorStart, anchorEnd, text);
    Untie(branches[i], anchorStart, anchorEnd, anchorStart && i == 0, anchorEnd && i == |branches| - 1, text);
    assert FoundAt(branches, i, anchorStart, anchorEnd, text);
  }

  /** On a text the search answers as ordinary anchors would, unless only an untied branch matches. */
  lemma {:induction false} AgreesOnText(pattern: string, anchorStart: bool,
      branches: seq<Frag>, anchorEnd: bool, text: string)
    requires Reads(pattern, anchorStart, branches, anchorEnd)
    ensures SearchMeaning(pattern, text) == Ok(Ordinary(branches, anchorStart, anchorEnd, text))
            <==> (Ordinary(branches, anchorStart, anchorEnd, text) ==> Tied(branches, anchorStart, anchorEnd, text))
  {
    AnchorsTieAll(pattern, anchorStart, branches, anchorEnd, text);
    if Tied(branches, anchorStart, anchorEnd, text) { TiedIsOrdinary(branches, anchorStart, anchorEnd, text); }
  }

  // ---------- when they agree on every text ----------

  /** The search answers as ordinary anchors would, whatever the text. */
  ghost predicate AgreesAlways(pattern: string, anchorStart: bool, branches: seq<Frag>, anchorEnd: bool) {
    forall text :: SearchMeaning(pattern, text) == Ok(Ordinary(branches, anchorStart, anchorEnd, text))
  }

  /** `w`, matched by the `i`-th branch between `u` and `v`, is where ordinary anchors allow it. */
  ghost predicate Placeable(bs: seq<Frag>, anchorStart: bool, anchorEnd: bool, i: nat, u: string, w: string,
      v: string) {
    && i < |bs| && Matches(bs[i], w)
    && (anchorStart && i == 0 ==> u == "") && (anchorEnd && i == |bs| - 1 ==> v == "")
  }

  lemma {:induction false} PlaceableIsFound(bs: seq<Frag>, anchorStart: bool, anchorEnd: bool, i: nat, u: string,
      w: string, v: string)
    requires Placeable(bs, anchorStart, anchorEnd, i, u, w, v)
    ensures Ordinary(bs, anchorStart, anchorEnd, u + w + v)
  {
    var text, lo, hi := u + w + v, |u|, |u| + |w|;
    assert text[lo..hi] == w;
    assert FoundAt(bs, i, anchorStart, anchorEnd, text);
  }

  lemma {:induction false} FoundIsPlaceable(bs: seq<Frag>, anchorStart: bool, anchorEnd: bool, text: string)
    returns (i: nat, u: string, w: string, v: string)
    requires Ordinary(bs, anchorStart, anchorEnd, text)
    ensures Placeable(bs, anchorStart, anchorEnd, i, u, w, v) && text == u + w + v
  {
    i :| 0 <= i < |bs| && FoundAt(bs, i, anchorStart, anchorEnd, text);
    var s, e := anchorStart && i == 0, anchorEnd && i == |bs| - 1;
    var lo, hi :| 0 <= lo <= hi <= |text| && (s ==> lo == 0) && (e ==> hi == |text|) && Matches(bs[i], text[lo..hi]);
    u, w, v := text[..lo], text[lo..hi], text[hi..];
  }

  /** Every text around a string of a branch, placed as ordinary anchors allow, is found with all branches tied. */
  ghost predicate AlwaysTied(bs: seq<Frag>, anchorStart: bool, anchorEnd: bool) {
    forall i: nat, u, w, v :: Placeable(bs, anchorStart, anchorEnd, i, u, w, v) ==>
        Tied(bs, anchorStart, anchorEnd, u + w + v)
  }

  lemma {:induction false} AgreesAlwaysIfTied(pattern: string, anchorStart: bool, bs: seq<Frag>, anchorEnd: bool)
    requires Reads(pattern, anchorStart, bs, anchorEnd)
    ensures AgreesAlways(pattern, anchorStart, bs, anchorEnd) <==> AlwaysTied(bs, anchorStart, anchorEnd)
  {
    if AlwaysTied(bs, anchorStart, anchorEnd) {
      forall text
        ensures SearchMeaning(pattern, text) == Ok(Ordinary(bs, anchorStart, anchorEnd, text))
      {
        AgreesOnText(pattern, anchorStart, bs, anchorEnd, text);
        if Ordinary(bs, anchorStart, anchorEnd, text) {
          var i, u, w, v := FoundIsPlaceable(bs, anchorStart, anchorEnd, text);
        }
      }
    }
    if AgreesAlways(pattern, anchorStart, bs, anchorEnd) {
      forall i: nat, u, w, v | Placeable(bs, anchorStart, anchorEnd, i, u, w, v)
        ensures Tied(bs, anchorStart, anchorEnd, u + w + v)
      {
        PlaceableIsFound(bs, anchorStart, anchorEnd, i, u, w, v);
        AgreesOnText(pattern, anchorStart, bs, anchorEnd, u + w + v);
      }
    }
  }

  /** Some branch matches a beginning of the text. */
  ghost predicate BeginsWithBranch(bs: seq<Frag>, text: string) {
    exists j, n :: 0 <= j < |bs| && 0 <= n <= |text| && Matches(bs[j], text[..n])
  }

  /** Some branch matches an end of the text. */
  ghost predicate EndsWithBranch(bs: seq<Frag>, text: string) {
    exists j, n :: 0 <= j < |bs| && 0 <= n <= |text| && Matches(bs[j], text[n..])
  }

  lemma {:induction false} TiedToStart(bs: seq<Frag>, text: string)
    ensures Tied(bs, true, false, text) <==> BeginsWithBranch(bs, text)
  {
    if Tied(bs, true, false, text) {
      var j :| 0 <= j < |bs| && Found(bs[j], true, false, text);
      var hi :| 0 <= hi <= |text| && Matches(bs[j], text[0..hi]);
      assert text[0..hi] == text[..hi];
    }
    if BeginsWithBranch(bs, text) {
      var j, n :| 0 <= j < |bs| && 0 <= n <= |text| && Matches(bs[j], text[..n]);
      assert text[0..n] == text[..n];
      assert Found(bs[j], true, false, text);
    }
  }

  lemma {:induction false} TiedToEnd(bs: seq<Frag>, text: string)
    ensures Tied(bs, false, true, text) <==> EndsWithBranch(bs, text)
  {
    if Tied(bs, false, true, text) {
      var j :| 0 <= j < |bs| && Found(bs[j], false, true, text);
      var lo :| 0 <= lo <= |text| && Matches(bs[j], text[lo..|text|]);
      assert text[lo..|text|] == text[lo..];
    }
    if EndsWithBranch(bs, text) {
      var j, n :| 0 <= j < |bs| && 0 <= n <= |text| && Matches(bs[j], text[n..]);
      assert text[n..|text|] == text[n..];
      assert Found(bs[j], false, true, text);
    }
  }

  lemma {:induction false} TiedToBoth(bs: seq<Frag>, text: string)
    ensures Tied(bs, true, true, text) <==> exists j :: 0 <= j < |bs| && Matches(bs[j], text)
  {
    assert text[0..|text|] == text;
    if j :| 0 <= j < |bs| && Matches(bs[j], text) {
      assert Found(bs[j], true, true, text);
    }
  }

  /** A text that begins with a branch still does when more follows. */
  lemma {:induction false} BeginsLonger(bs: seq<Frag>, text: string, v: string)
    requires BeginsWithBranch(bs, text)
    ensures BeginsWithBranch(bs, text + v)
  {
    var j, n :| 0 <= j < |bs| && 0 <= n <= |text| && Matches(bs[j], text[..n]);
    assert (text + v)[..n] == text[..n];
  }

  lemma {:induction false} EndsLonger(bs: seq<Frag>, u: string, text: string)
    requires EndsWithBranch(bs, text)
    ensures EndsWithBranch(bs, u + text)
  {
    var j, n :| 0 <= j < |bs| && 0 <= n <= |text| && Matches(bs[j], text[n..]);
    assert (u + text)[|u| + n..] == text[n..];
  }

  /**
  A pattern that starts with `^` is read as ordinary anchors would be, on every text, exactly
  when whatever precedes a string of a later branch, the whole begins with a string of a branch.
  */
  lemma {:induction false} CaretAgreesExactly(pattern: string, bs: seq<Frag>)
    requires Reads(pattern, true, bs, false)
    ensures AgreesAlways(pattern, true, bs, false)
            <==> forall i, u, w :: 1 <= i < |bs| && Matches(bs[i], w) ==> BeginsWithBranch(bs, u + w)
  {
    AgreesAlwaysIfTied(pattern, true, bs, false);
    if AlwaysTied(bs, true, false) {
      forall i, u, w | 1 <= i < |bs| && Matches(bs[i], w)
        ensures BeginsWithBranch(bs, u + w)
      {
        assert Placeable(bs, true, false, i, u, w, "");
        assert u + w + "" == u + w;
        TiedToStart(bs, u + w);
      }
    }
    if forall i, u, w :: 1 <= i < |bs| && Matches(bs[i], w) ==> BeginsWithBranch(bs, u + w) {
      forall i: nat, u, w, v | Placeable(bs, true, false, i, u, w, v)
        ensures Tied(bs, true, false, u + w + v)
      {
        if i == 0 {
          assert (u + w)[..|w|] == w;
        }
        assert BeginsWithBranch(bs, u + w);
        BeginsLonger(bs, u + w, v);
        TiedToStart(bs, u + w + v);
      }
    }
  }

  /**
  A pattern that ends in `$` is read as ordinary anchors would be, on every text, exactly when
  whatever follows a string of an earlier branch, the whole ends with a string of a branch.
  */
  lemma {:induction false} DollarAgreesExactly(pattern: string, bs: seq<Frag>)
    requires Reads(pattern, false, bs, true)
    ensures AgreesAlways(pattern, false, bs, true)
            <==> forall i, w, v :: 0 <= i < |bs| - 1 && Matches(bs[i], w) ==> EndsWithBranch(bs, w + v)
  {
    AgreesAlwaysIfTied(pattern, false, bs, true);
    if AlwaysTied(bs, false, true) {
      forall i, w, v | 0 <= i < |bs| - 1 && Matches(bs[i], w)
        ensures EndsWithBranch(bs, w + v)
      {
        assert Placeable(bs, false, true, i, "", w, v);
        assert "" + w + v == w + v;
        TiedToEnd(bs, w + v);
      }
    }
    if forall i, w, v :: 0 <= i < |bs| - 1 && Matches(bs[i], w) ==> EndsWithBranch(bs, w + v) {
      forall i: nat, u, w, v | Placeable(bs, false, true, i, u, w, v)
        ensures Tied(bs, false, true, u + w + v)
      {
        TiedAfter(bs, i, u, w, v);
      }
    }
  }

  lemma {:induction false} TiedAfter(bs: seq<Frag>, i: nat, u: string, w: string, v: string)
    requires Placeable(bs, false, true, i, u, w, v) && (i < |bs| - 1 ==> EndsWithBranch(bs, w + v))
    ensures Tied(bs, false, true, u + w + v)
  {
    if i == |bs| - 1 {
      assert (w + v)[0..] == w;
    }
    EndsLonger(bs, u, w + v);
    assert u + (w + v) == u + w + v;
    TiedToEnd(bs, u + w + v);
  }

  /**
  Between both anchors, exactly when every text around a string of a branch, nothing preceding
  it in the first branch and nothing following it in the last, is itself a string of a branch.
  */
  lemma {:induction false} BothAgreeExactly(pattern: string, bs: seq<Frag>)
    requires Reads(pattern, true, bs, true)
    ensures AgreesAlways(pattern, true, bs, true)
            <==> forall i: nat, u, w, v :: Placeable(bs, true, true, i, u, w, v)
                   ==> exists j :: 0 <= j < |bs| && Matches(bs[j], u + w + v)
  {
    AgreesAlwaysIfTied(pattern, true, bs, true);
    forall text: string
      ensures Tied(bs, true, true, text) <==> exists j :: 0 <= j < |bs| && Matches(bs[j], text)
    {
      TiedToBoth(bs, text);
    }
  }

  /** Without anchors, and with a single branch, there is nothing to read differently. */
  lemma {:induction false} NothingToTie(pattern: string, anchorStart: bool, bs: seq<Frag>, anchorEnd: bool)
    requires Reads(pattern, anchorStart, bs, anchorEnd) && (|bs| == 1 || (!anchorStart && !anchorEnd))
    ensures AgreesAlways(pattern, anchorStart, bs, anchorEnd)
  {
    AgreesAlwaysIfTied(pattern, anchorStart, bs, anchorEnd);
    forall i: nat, u, w, v | Placeable(bs, anchorStart, anchorEnd, i, u, w, v)
      ensures Tied(bs, anchorStart, anchorEnd, u + w + v)
    {
      var text := u + w + v;
      assert text[|u|..|u| + |w|] == w;
      assert Found(bs[i], anchorStart, anchorEnd, text);
    }
  }

  // ---------- two conditions on the branches, and instances ----------

  /** A branch that matches the empty string makes `^` harmless. */
  lemma {:induction false} EmptyBranchAgrees(pattern: string, bs: seq<Frag>, k: nat)
    requires Reads(pattern, true, bs, false) && k < |bs| && Matches(bs[k], "")
    ensures AgreesAlways(pattern, true, bs, false)
  {
    CaretAgreesExactly(pattern, bs);
    forall i, u, w | 1 <= i < |bs| && Matches(bs[i], w)
      ensures BeginsWithBranch(bs, u + w)
    {
      assert (u + w)[..0] == "";
    }
  }

  /** No string of the tree starts with `c`, and the empty one is not among them. */
  ghost predicate NeverStarts(f: Frag, c: char) {
    forall s :: Matches(f, s) ==> s != "" && s[0] != c
  }

  /** A character that starts no branch hides every string of a later branch that it precedes. */
  lemma {:induction false} LaterBranchIsLost(pattern: string, bs: seq<Frag>, i: nat, c: char, w: string)
    requires Reads(pattern, true, bs, false) && 1 <= i < |bs| && Matches(bs[i], w)
    requires forall j :: 0 <= j < |bs| ==> NeverStarts(bs[j], c)
    ensures SearchMeaning(pattern, [c] + w) == Ok(false) && Ordinary(bs, true, false, [c] + w)
  {
    var text := [c] + w;
    AnchorsTieAll(pattern, true, bs, false, text);
    TiedToStart(bs, text);
    forall j, n | 0 <= j < |bs| && 0 <= n <= |text|
      ensures !Matches(bs[j], text[..n])
    {
      assert NeverStarts(bs[j], c);
      assert n > 0 ==> text[..n][0] == c;
    }
    assert Placeable(bs, true, false, i, [c], w, "");
    PlaceableIsFound(bs, true, false, i, [c], w, "");
    assert text + "" == text;
  }

  predicate IsLetter(c: char) {
    'a' <= c <= 'z'
  }

  lemma {:induction false} LetterThenBar(c: char, rest: string)
    requires IsLetter(c) && (rest == "" || rest[0] == '|')
    ensures GCat([c] + rest, None) == Ok((One(Char(c)), rest))
  {
    var s := [c] + rest;
    assert s[0] == c && s[1..] == rest;
    assert GAtom(s) == Ok((One(Char(c)), rest));
    assert GRepeat(s) == Ok((One(Char(c)), rest));
    assert GCat(rest, Some(One(Char(c)))) == Ok((One(Char(c)), rest));
  }

  lemma {:induction false} LastLetter(c: char)
    requires IsLetter(c)
    ensures GBranches([c]) == Ok(([One(Char(c))], ""))
  {
    LetterThenBar(c, "");
    assert [c] + "" == [c];
  }

  lemma {:induction false} LetterFirst(c: char, rest: string, more: seq<Frag>)
    requires IsLetter(c) && GBranches(rest) == Ok((more, ""))
    ensures GBranches([c, '|'] + rest) == Ok(([One(Char(c))] + more, ""))
  {
    var tail := ['|'] + rest;
    LetterThenBar(c, tail);
    assert [c] + tail == [c, '|'] + rest && tail[1..] == rest;
  }

  function Letter(c: char): Frag {
    One(Char(c))
  }

  lemma {:induction false} ReadsTwo(a: char, b: char)
    requires IsLetter(a) && IsLetter(b)
    ensures GBranches([a, '|', b]) == Ok(([Letter(a), Letter(b)], ""))
  {
    LastLetter(b);
    LetterFirst(a, [b], [Letter(b)]);
    assert [a, '|'] + [b] == [a, '|', b] && [Letter(a)] + [Letter(b)] == [Letter(a), Letter(b)];
  }

  lemma {:induction false} ReadsThree(a: char, b: char, c: char)
    requires IsLetter(a) && IsLetter(b) && IsLetter(c)
    ensures GBranches([a, '|', b, '|', c]) == Ok(([Letter(a), Letter(b), Letter(c)], ""))
  {
    var rest, more := [b, '|', c], [Letter(b), Letter(c)];
    ReadsTwo(b, c);
    LetterFirst(a, rest, more);
    assert [a, '|'] + rest == [a, '|', b, '|', c] && [Letter(a)] + more == [Letter(a), Letter(b), Letter(c)];
  }

  lemma {:induction false} CaretPattern(body: string, bs: seq<Frag>)
    requires GBranches(body) == Ok((bs, "")) && |body| < MAX_PATTERN && body != "" && body[|body| - 1] != '$'
    ensures Reads(['^'] + body, true, bs, false)
  {
    assert (['^'] + body)[1..] == body;
  }

  /** `^a|b` does not find the `b` of `xb`, which ordinary anchors would find, for any letters. */
  lemma {:induction false} CaretOfTwo(a: char, b: char, x: char)
    requires IsLetter(a) && IsLetter(b) && x != a && x != b
    ensures SearchMeaning(['^', a, '|', b], [x, b]) == Ok(false)
        && Ordinary([Letter(a), Letter(b)], true, false, [x, b])
  {
    ReadsTwo(a, b);
    CaretPattern([a, '|', b], [Letter(a), Letter(b)]);
    assert ['^'] + [a, '|', b] == ['^', a, '|', b] && [x] + [b] == [x, b];
    assert Matches(Letter(b), [b]);
    LaterBranchIsLost(['^', a, '|', b], [Letter(a), Letter(b)], 1, x, [b]);
  }

  /** Nor does `^a|b|c`. */
  lemma {:induction false} CaretOfThree(a: char, b: char, c: char, x: char)
    requires IsLetter(a) && IsLetter(b) && IsLetter(c) && x !in [a, b, c]
    ensures SearchMeaning(['^', a, '|', b, '|', c], [x, b]) == Ok(false)
    ensures Ordinary([Letter(a), Letter(b), Letter(c)], true, false, [x, b])
  {
    var body, bs := [a, '|', b, '|', c], [Letter(a), Letter(b), Letter(c)];
    ReadsThree(a, b, c);
    CaretPattern(body, bs);
    assert ['^'] + body == ['^', a, '|', b, '|', c] && [x] + [b] == [x, b];
    assert x != a && x != b && x != c by { assert [a, b, c][0] == a && [a, b, c][1] == b && [a, b, c][2] == c; }
    assert Matches(bs[1], [b]);
    LaterBranchIsLost(['^'] + body, bs, 1, x, [b]);
  }

  lemma {:induction false} CaretLosesB()
    ensures SearchMeaning("^a|b", "xb") == Ok(false) && Ordinary([Letter('a'), Letter('b')], true, false, "xb")
    ensures SearchMeaning("^a|b|c", "xb") == Ok(false)
            && Ordinary([Letter('a'), Letter('b'), Letter('c')], true, false, "xb")
  {
    CaretOfTwo('a', 'b', 'x');
    CaretOfThree('a', 'b', 'c', 'x');
  }

  /** `a|b$` does not find the `a` of `ax`, which ordinary anchors would find, for any letters. */
  lemma {:induction false} DollarOfTwo(a: char, b: char, x: char)
    requires IsLetter(a) && IsLetter(b) && x != a && x != b
    ensures SearchMeaning([a, '|', b, '$'], [a, x]) == Ok(false)
        && Ordinary([Letter(a), Letter(b)], false, true, [a, x])
  {
    var bs, text, pattern := [Letter(a), Letter(b)], [a, x], [a, '|', b, '$'];
    ReadsTwo(a, b);
    assert pattern[..3] == [a, '|', b];
    AnchorsTieAll(pattern, false, bs, true, text);
    TiedToEnd(bs, text);
    assert text[0..] == text && text[1..] == [x] && text[2..] == [];
    assert text[0..1] == [a] && Matches(bs[0], text[0..1]);
    assert FoundAt(bs, 0, false, true, text);
  }

  // ---------- which characters are anchors ----------

  /** The backslashes at the end of a text. */
  function Backslashes(s: string): nat {
    if s != "" && s[|s| - 1] == '\\' then 1 + Backslashes(s[..|s| - 1]) else 0
  }

  /** A pattern without its leading caret. */
  function AfterCaret(pattern: string): string {
    if pattern != "" && pattern[0] == '^' then pattern[1..] else pattern
  }

  /**
  A final dollar is an anchor exactly if no backslash precedes it. That differs from counting
  escapes, which an even number of backslashes leaves complete, exactly for an even number above zero.
  */
  lemma {:induction false} DollarRule(pattern: string)
    requires AfterCaret(pattern) != "" && AfterCaret(pattern)[|AfterCaret(pattern)| - 1] == '$'
    ensures
      var n := Backslashes(AfterCaret(pattern)[..|AfterCaret(pattern)| - 1]);
      && (Anchors(pattern).2 <==> n == 0)
      && ((Anchors(pattern).2 <==> n % 2 == 0) <==> n == 0 || n % 2 == 1)
  {
  }

  /** Two backslashes are one literal backslash, so what follows them is not escaped. */
  lemma {:induction false} PairOfBackslashes(rest: string)
    ensures GAtom(['\\', '\\'] + rest) == Ok((Letter('\\'), rest))
  {
    var s := ['\\', '\\'] + rest;
    assert s[0] == '\\' && s[1..][0] == '\\' && s[1..][1..] == rest;
  }

  /** Anywhere but at the ends of the pattern, the anchors' characters stand for themselves. */
  lemma {:induction false} InnerAnchorsAreLiteral(c: char, rest: string)
    requires c == '^' || c == '$'
    ensures GAtom([c] + rest) == Ok((Letter(c), rest))
  {
    assert ([c] + rest)[1..] == rest;
  }

  /** After an escaped backslash the dollar is read as a literal, so the pattern misses the text it should end at. */
  lemma {:induction false} DollarAfterEscapedBackslash(a: char)
    requires IsLetter(a)
    ensures SearchMeaning([a, '\\', '\\', '$'], [a, '\\']) == Ok(false)
    ensures Found(Cat(Letter(a), Letter('\\')), false, true, [a, '\\'])
  {
    var pattern, text := [a, '\\', '\\', '$'], [a, '\\'];
    var word := Cat(Letter(a), Letter('\\'));
    assert pattern[..3][2] == '\\';
    ThreeAtoms(a, pattern);
    forall lo, hi | 0 <= lo <= hi <= |text|
      ensures !Matches(Cat(word, Letter('$')), text[lo..hi])
    {
      LengthThree(a, text[lo..hi]);
    }
    assert text[0..2] == text && text[..1] == [a] && text[1..] == ['\\'];
    assert Matches(Letter(a), text[..1]) && Matches(Letter('\\'), text[1..]);
    assert Matches(word, text[0..2]);
  }

  lemma {:induction false} LengthThree(a: char, s: string)
    ensures Matches(Cat(Cat(Letter(a), Letter('\\')), Letter('$')), s) ==> |s| == 3
  {
    var word := Cat(Letter(a), Letter('\\'));
    if k :| 0 <= k <= |s| && Matches(word, s[..k]) && Matches(Letter('$'), s[k..]) {
      var m :| 0 <= m <= k && Matches(Letter(a), s[..k][..m]) && Matches(Letter('\\'), s[..k][m..]);
    }
  }

  lemma {:induction false} ThreeAtoms(a: char, pattern: string)
    requires IsLetter(a) && pattern == [a, '\\', '\\', '$']
    ensures ParseRegex(pattern) == Ok(Cat(Cat(Letter(a), Letter('\\')), Letter('$')))
  {
    var l, m, r := Letter(a), Letter('\\'), Letter('$');
    InnerAnchorsAreLiteral('$', "");
    PairOfBackslashes("$");
    assert ['$'] + "" == "$" && ['\\', '\\'] + "$" == pattern[1..];
    assert GRepeat("$") == Ok((r, "")) && GCat("", Some(Cat(Cat(l, m), r))) == Ok((Cat(Cat(l, m), r), ""));
    assert GCat("$", Some(Cat(l, m))) == Ok((Cat(Cat(l, m), r), ""));
    assert GRepeat(pattern[1..]) == Ok((m, "$"));
    assert GCat(pattern[1..], Some(l)) == Ok((Cat(Cat(l, m), r), ""));
    assert GAtom(pattern) == Ok((l, pattern[1..])) && GRepeat(pattern) == Ok((l, pattern[1..]));
    assert GCat(pattern, None) == Ok((Cat(Cat(l, m), r), ""));
    assert GAltRest("", Cat(Cat(l, m), r)) == Ok((Cat(Cat(l, m), r), ""));
  }
}
