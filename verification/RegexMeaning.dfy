/**
What the patterns of app/policy_as_code/cel.py mean, read off the pattern text alone: the
characters that each escape, class and literal finds, and the laws by which groups,
repetitions, sequences and branches make larger patterns of smaller ones.
*/
module RegexMeaning {
  import opened Common
  import opened RegexTree
  import opened RegexSyntax
  import opened RegexSearch

  // ---------- patterns that test one character ----------

  predicate IsDigit(c: char) {
    '0' <= c <= '9'
  }

  predicate IsWordChar(c: char) {
    'a' <= c <= 'z' || 'A' <= c <= 'Z' || IsDigit(c) || c == '_'
  }

  /** Space, tab, line feed, carriage return, form feed and vertical tab. */
  predicate IsBlank(c: char) {
    c == ' ' || c == '\t' || c == '\n' || c == '\r' || c == '\U{000C}' || c == '\U{000B}'
  }

  /** The pattern is a single test: it finds a text exactly if some character of the text passes. */
  lemma {:induction false} SingleTest(pattern: string, t: CharTest, text: string)
    requires pattern != "" && |pattern| <= 512 && pattern[0] !in "|)" && Anchors(pattern) == (false, pattern, false)
    requires GAtom(pattern) == Ok((One(t), ""))
    ensures SearchMeaning(pattern, text) == Ok(exists i :: 0 <= i < |text| && StateMatches(t, text[i]))
  {
    assert GRepeat(pattern) == Ok((One(t), ""));
    assert GCat("", Some(One(t))) == Ok((One(t), ""));
    assert GCat(pattern, None) == Ok((One(t), ""));
    assert GAltRest("", One(t)) == Ok((One(t), ""));
    assert ParseRegex(pattern) == Ok(One(t));
    FoundOne(t, text);
  }

  lemma {:induction false} FoundOne(t: CharTest, text: string)
    ensures Found(One(t), false, false, text) <==> exists i :: 0 <= i < |text| && StateMatches(t, text[i])
  {
    if i :| 0 <= i < |text| && StateMatches(t, text[i]) {
      assert text[i..i + 1] == [text[i]] && Matches(One(t), text[i..i + 1]);
    }
  }

  lemma {:induction false} EscapeRead(c: char)
    ensures GAtom(['\\', c]) == Ok((One(if IsClassEscape(c) then ClassEscape(c) else Char(c)), ""))
  {
    assert ['\\', c][1..] == [c] && [c][1..] == "";
  }

  lemma {:induction false} DigitTest(c: char)
    ensures StateMatches(ClassEscape('d'), c) <==> IsDigit(c)
    ensures StateMatches(ClassEscape('D'), c) <==> !IsDigit(c)
  {
    assert DIGIT[0] == ('0', '9');
  }

  lemma {:induction false} WordTest(c: char)
    ensures StateMatches(ClassEscape('w'), c) <==> IsWordChar(c)
    ensures StateMatches(ClassEscape('W'), c) <==> !IsWordChar(c)
  {
    assert WORD[0] == ('a', 'z') && WORD[1] == ('A', 'Z') && WORD[2] == ('0', '9') && WORD[3] == ('_', '_');
  }

  lemma {:induction false} BlankTest(c: char)
    ensures StateMatches(ClassEscape('s'), c) <==> IsBlank(c)
    ensures StateMatches(ClassEscape('S'), c) <==> !IsBlank(c)
  {
    assert SPACE[0] == (' ', ' ') && SPACE[1] == ('\t', '\t') && SPACE[2] == ('\n', '\n');
    assert SPACE[3] == ('\r', '\r') && SPACE[4] == ('\U{000C}', '\U{000C}') && SPACE[5] == ('\U{000B}', '\U{000B}');
  }

  /** `\d` finds exactly the texts with a digit, and `\D` those with anything else. */
  lemma {:induction false} DigitsAreFound(text: string)
    ensures SearchMeaning(['\\', 'd'], text) == Ok(exists i :: 0 <= i < |text| && '0' <= text[i] <= '9')
    ensures SearchMeaning(['\\', 'D'], text) == Ok(exists i :: 0 <= i < |text| && !('0' <= text[i] <= '9'))
  {
    EscapeRead('d');
    EscapeRead('D');
    SingleTest(['\\', 'd'], ClassEscape('d'), text);
    SingleTest(['\\', 'D'], ClassEscape('D'), text);
    forall c { DigitTest(c); }
  }

  /** `\w` finds exactly the texts with an ASCII letter, digit or underscore, and `\W` those with anything else. */
  lemma {:induction false} WordCharsAreFound(text: string)
    ensures SearchMeaning(['\\', 'w'], text) == Ok(exists i :: 0 <= i < |text| && IsWordChar(text[i]))
    ensures SearchMeaning(['\\', 'W'], text) == Ok(exists i :: 0 <= i < |text| && !IsWordChar(text[i]))
  {
    EscapeRead('w');
    EscapeRead('W');
    SingleTest(['\\', 'w'], ClassEscape('w'), text);
    SingleTest(['\\', 'W'], ClassEscape('W'), text);
    forall c { WordTest(c); }
  }

  /** `\s` finds exactly the texts with one of the six blanks, and `\S` those with anything else. */
  lemma {:induction false} BlanksAreFound(text: string)
    ensures SearchMeaning(['\\', 's'], text) == Ok(exists i :: 0 <= i < |text| && IsBlank(text[i]))
    ensures SearchMeaning(['\\', 'S'], text) == Ok(exists i :: 0 <= i < |text| && !IsBlank(text[i]))
  {
    EscapeRead('s');
    EscapeRead('S');
    SingleTest(['\\', 's'], ClassEscape('s'), text);
    SingleTest(['\\', 'S'], ClassEscape('S'), text);
    forall c { BlankTest(c); }
  }

  /** `.` finds every character but a newline. */
  lemma {:induction false} DotFindsAllButNewline(text: string)
    ensures SearchMeaning(['.'], text) == Ok(exists i :: 0 <= i < |text| && text[i] != '\n')
  {
    assert ['.'][1..] == "";
    SingleTest(['.'], Any, text);
  }

  /** A character without a meaning of its own finds itself; `*`, `+` and `?` have none at the start of a branch. */
  lemma {:induction false} LiteralFindsItself(c: char, text: string)
    requires c !in "()[.|\\^$"
    ensures SearchMeaning([c], text) == Ok(exists i :: 0 <= i < |text| && text[i] == c)
  {
    assert [c][1..] == "";
    NotSpecial(c);
    SingleTest([c], Char(c), text);
  }

  lemma {:induction false} NotSpecial(c: char)
    requires c !in "()[.|\\^$"
    ensures c != '(' && c != ')' && c != '[' && c != '.' && c != '|' && c != '\\' && c != '^' && c != '$'
  {
    var s := "()[.|\\^$";
    assert s[0] == '(' && s[1] == ')' && s[2] == '[' && s[3] == '.';
    assert s[4] == '|' && s[5] == '\\' && s[6] == '^' && s[7] == '$';
  }

  /** Behind a backslash every character but the six class letters finds itself, the special ones included. */
  lemma {:induction false} EscapedFindsItself(c: char, text: string)
    requires c !in "dDwWsS"
    ensures SearchMeaning(['\\', c], text) == Ok(exists i :: 0 <= i < |text| && text[i] == c)
  {
    EscapeRead(c);
    var s := "dDwWsS";
    assert s[0] == 'd' && s[1] == 'D' && s[2] == 'w' && s[3] == 'W' && s[4] == 's' && s[5] == 'S';
    SingleTest(['\\', c], Char(c), text);
  }

  // ---------- character classes ----------

  /** An item of a class as it is written: a character for itself, or the two ends of a range. */
  function ItemText(item: (char, char)): string {
    if item.0 == item.1 then [item.0] else [item.0, '-', item.1]
  }

  function ItemsText(items: seq<(char, char)>): string {
    if items == [] then "" else ItemText(items[0]) + ItemsText(items[1..])
  }

  /** An item that needs no escape: its low end is none of the characters a class gives a meaning. */
  predicate PlainItem(item: (char, char)) {
    item.0 != ']' && item.0 != '\\' && item.0 != '-' && item.0 != '^' && item.1 != ']'
  }

  lemma {:induction false} ItemRead(item: (char, char), tail: string, acc: seq<(char, char)>)
    requires PlainItem(item) && tail != "" && tail[0] != '-'
    ensures GItems(ItemText(item) + tail, acc) == GItems(tail, acc + [item])
  {
    var s := ItemText(item) + tail;
    assert s[0] == item.0;
    if item.0 == item.1 {
      assert s[1..] == tail;
    } else {
      var after := ['-', item.1] + tail;
      assert s[1..] == after && after[2..] == tail;
    }
  }

  lemma {:induction false} ItemsRead(items: seq<(char, char)>, acc: seq<(char, char)>)
    requires forall k :: 0 <= k < |items| ==> PlainItem(items[k])
    ensures GItems(ItemsText(items) + "]", acc) == Ok((acc + items, ""))
    decreases |items|
  {
    if items == [] {
      assert ItemsText(items) + "]" == "]" && "]"[1..] == "" && acc + items == acc;
    } else {
      var tail := ItemsText(items[1..]) + "]";
      FirstItem(items[1..]);
      assert ItemsText(items) + "]" == ItemText(items[0]) + tail;
      ItemRead(items[0], tail, acc);
      ItemsRead(items[1..], acc + [items[0]]);
      assert acc + [items[0]] + items[1..] == acc + items;
    }
  }

  lemma {:induction false} FirstItem(items: seq<(char, char)>)
    requires forall k :: 0 <= k < |items| ==> PlainItem(items[k])
    ensures !Starts(ItemsText(items) + "]", "^-")
  {
    if items != [] {
      assert PlainItem(items[0]) && (ItemsText(items) + "]")[0] == items[0].0;
    }
  }

  lemma {:induction false} ClassRead(items: seq<(char, char)>)
    requires forall k :: 0 <= k < |items| ==> PlainItem(items[k])
    ensures GAtom("[" + ItemsText(items) + "]") == Ok((One(Class(items, false)), ""))
    ensures GAtom("[^" + ItemsText(items) + "]") == Ok((One(Class(items, true)), ""))
  {
    var t := ItemsText(items) + "]";
    FirstItem(items);
    ItemsRead(items, []);
    assert [] + items == items;
    assert ("^" + t)[1..] == t;
    ClassOpens(t, items, false, "");
    ClassOpens("^" + t, items, true, "");
    assert "[" + ItemsText(items) + "]" == "[" + t;
    assert "[^" + ItemsText(items) + "]" == "[" + ("^" + t);
  }

  /** A class finds exactly the characters within one of its items. */
  lemma {:induction false} ClassFindsItsItems(items: seq<(char, char)>, text: string)
    requires (forall k :: 0 <= k < |items| ==> PlainItem(items[k])) && |ItemsText(items)| <= 510
    ensures SearchMeaning("[" + ItemsText(items) + "]", text)
            == Ok(exists i, k :: 0 <= i < |text| && 0 <= k < |items| && items[k].0 <= text[i] <= items[k].1)
  {
    ClassRead(items);
    SingleTest("[" + ItemsText(items) + "]", Class(items, false), text);
  }

  /** With a caret in front, exactly the characters within none, a newline among them. */
  lemma {:induction false} NegatedClassFindsTheRest(items: seq<(char, char)>, text: string)
    requires (forall k :: 0 <= k < |items| ==> PlainItem(items[k])) && |ItemsText(items)| <= 509
    ensures SearchMeaning("[^" + ItemsText(items) + "]", text)
            == Ok(exists i :: 0 <= i < |text| && OutsideAll(items, text[i]))
  {
    ClassRead(items);
    SingleTest("[^" + ItemsText(items) + "]", Class(items, true), text);
  }

  predicate OutsideAll(items: seq<(char, char)>, c: char) {
    forall k :: 0 <= k < |items| ==> c < items[k].0 || items[k].1 < c
  }

  /** In particular `[a-z]` finds the lower-case letters, and `[^a-z]` everything else. */
  lemma {:induction false} LowerCaseClass(text: string)
    ensures SearchMeaning("[a-z]", text) == Ok(exists i :: 0 <= i < |text| && 'a' <= text[i] <= 'z')
    ensures SearchMeaning("[^a-z]", text) == Ok(exists i :: 0 <= i < |text| && !('a' <= text[i] <= 'z'))
  {
    var items := [('a', 'z')];
    assert items[1..] == [] && ItemsText(items[1..]) == "";
    assert ItemsText(items) == "a-z";
    assert "[" + "a-z" + "]" == "[a-z]" && "[^" + "a-z" + "]" == "[^a-z]";
    ClassFindsItsItems(items, text);
    NegatedClassFindsTheRest(items, text);
    assert items[0] == ('a', 'z');
  }

  /** A class letter inside a class stands for its characters; the letter of a complement is refused there. */
  lemma {:induction false} EscapeInClass(c: char, text: string)
    ensures c == 'd' || c == 'w' || c == 's'
            ==> SearchMeaning(['[', '\\', c, ']'], text) == SearchMeaning(['\\', c], text)
    ensures c == 'D' || c == 'W' || c == 'S'
            ==> SearchMeaning(['[', '\\', c, ']'], text) == Err(NegatedEscapeInClass)
  {
    var pattern := ['[', '\\', c, ']'];
    var t := ['\\', c, ']'];
    assert pattern[1..] == t && t[2..] == "]" && "]"[1..] == "";
    if IsClassEscape(c) {
      var sub := ClassEscape(c);
      if sub.negate {
        assert GItems(t, []) == Err(NegatedEscapeInClass);
        assert GAtom(pattern) == Err(NegatedEscapeInClass) && GRepeat(pattern) == Err(NegatedEscapeInClass);
        assert GCat(pattern, None) == Err(NegatedEscapeInClass);
      } else {
        assert [] + sub.ranges == sub.ranges;
        assert GItems(t, []) == Ok((sub.ranges, ""));
        EscapeRead(c);
        SingleTest(pattern, sub, text);
        SingleTest(['\\', c], sub, text);
      }
    }
  }

  // ---------- a pattern inside a group ----------

  /** Within a class what follows the closing bracket makes no difference. */
  lemma {:induction false} ItemsFollowed(s: string, acc: seq<(char, char)>, u: string)
    requires GItems(s, acc).Ok?
    ensures GItems(s + u, acc) == Ok((GItems(s, acc).value.0, GItems(s, acc).value.1 + u))
    decreases |s|, 0
  {
    var t := s + u;
    assert t[1..] == s[1..] + u;
    assert |s| > 1 ==> t[2..] == s[2..] + u;
    if s[0] == ']' {
    } else if s[0] == '\\' && |s| > 1 && IsClassEscape(s[1]) {
      ItemsFollowed(s[2..], acc + ClassEscape(s[1]).ranges, u);
    } else if s[0] == '\\' && |s| > 1 {
      ItemFollowed(s[1], s[2..], acc, u);
    } else {
      ItemFollowed(s[0], s[1..], acc, u);
    }
  }

  lemma {:induction false} ItemFollowed(c: char, s: string, acc: seq<(char, char)>, u: string)
    requires GItem(c, s, acc).Ok?
    ensures GItem(c, s + u, acc) == Ok((GItem(c, s, acc).value.0, GItem(c, s, acc).value.1 + u))
    decreases |s|, 1
  {
    assert |s| > 1 ==> (s + u)[2..] == s[2..] + u;
    if Starts(s, "-") && |s| > 1 && s[1] != ']' {
      ItemsFollowed(s[2..], acc + [(c, s[1])], u);
    } else {
      assert s != "-";
      ItemsFollowed(s, acc + [(c, c)], u);
    }
  }

  /** Before a bar or a closing parenthesis a pattern is read as it is on its own. */
  lemma {:induction false} AltFollowed(s: string, u: string)
    requires GAlt(s).Ok? && Starts(u, "|)")
    ensures GAlt(s + u) == GAltRest(GAlt(s).value.1 + u, GAlt(s).value.0)
    decreases |s|, 4
  {
    CatFollowed(s, None, u);
    AltRestFollowed(GCat(s, None).value.1, GCat(s, None).value.0, u);
  }

  lemma {:induction false} AltRestFollowed(s: string, node: Frag, u: string)
    requires GAltRest(s, node).Ok? && Starts(u, "|)")
    ensures GAltRest(s + u, node) == GAltRest(GAltRest(s, node).value.1 + u, GAltRest(s, node).value.0)
    decreases |s|, 0
  {
    if Starts(s, "|") {
      assert (s + u)[1..] == s[1..] + u;
      CatFollowed(s[1..], None, u);
      var (right, rest) := GCat(s[1..], None).value;
      AltRestFollowed(rest, Alt(node, right), u);
    }
  }

  lemma {:induction false} CatFollowed(s: string, acc: Option<Frag>, u: string)
    requires GCat(s, acc).Ok? && Starts(u, "|)")
    ensures GCat(s + u, acc) == Ok((GCat(s, acc).value.0, GCat(s, acc).value.1 + u))
    decreases |s|, 3
  {
    if s == "" {
      assert s + u == u;
    } else if !Starts(s, "|)") {
      AtomFollowed(s, u);
      RepeatFollowed(GAtom(s).value.1, GAtom(s).value.0, u);
      var (piece, rest) := GRepeat(s).value;
      CatFollowed(rest, Some(CatAcc(acc, piece)), u);
    }
  }

  lemma {:induction false} RepeatFollowed(s: string, node: Frag, u: string)
    requires Starts(u, "|)")
    ensures GRepeatRest(s + u, node) == (GRepeatRest(s, node).0, GRepeatRest(s, node).1 + u)
    decreases |s|
  {
    if s == "" {
      assert s + u == u;
    } else {
      assert (s + u)[1..] == s[1..] + u;
      if s[0] == '*' { RepeatFollowed(s[1..], Star(node), u); }
      else if s[0] == '+' { RepeatFollowed(s[1..], Plus(node), u); }
      else if s[0] == '?' { RepeatFollowed(s[1..], Opt(node), u); }
    }
  }

  lemma {:induction false} AtomFollowed(s: string, u: string)
    requires s != "" && GAtom(s).Ok? && Starts(u, "|)")
    ensures GAtom(s + u) == Ok((GAtom(s).value.0, GAtom(s).value.1 + u))
    decreases |s|, 1
  {
    var t := s[1..];
    assert (s + u)[1..] == t + u;
    if s[0] == '(' {
      AltFollowed(t, u);
      var rest := GAlt(t).value.1;
      assert (rest + u)[1..] == rest[1..] + u;
    } else if s[0] == '[' {
      var inner := if Starts(t, "^") then t[1..] else t;
      ItemsFollowed(inner, [], u);
      assert Starts(t, "^") ==> (t + u)[1..] == inner + u;
    } else if s[0] == '\\' {
      assert (t + u)[1..] == t[1..] + u;
    }
  }

  /** A whole pattern in parentheses is one atom. */
  lemma {:induction false} GroupIsAtom(p: string, f: Frag, rest: string)
    requires ParseRegex(p) == Ok(f)
    ensures GAtom("(" + p + ")" + rest) == Ok((f, rest))
  {
    var u := ")" + rest;
    AltFollowed(p, u);
    assert "" + u == u;
    GroupRead(p, f, rest);
  }

  // ---------- the laws of the operators ----------

  function Group(p: string): string {
    "(" + p + ")"
  }

  /** The text as a whole is a match of the pattern. */
  ghost predicate Reads(p: string, text: string) {
    SearchMeaning("^" + Group(p) + "$", text) == Ok(true)
  }

  lemma {:induction false} OnePiece(s: string, f: Frag)
    requires s != "" && !Starts(s, "|)") && GRepeat(s) == Ok((f, ""))
    ensures ParseRegex(s) == Ok(f)
  {
    assert GCat("", Some(f)) == Ok((f, ""));
    assert GCat(s, None) == Ok((f, ""));
    assert GAltRest("", f) == Ok((f, ""));
  }

  lemma {:induction false} TwoPieces(s: string, f: Frag, t: string, g: Frag)
    requires s != "" && !Starts(s, "|)") && GRepeat(s) == Ok((f, t))
    requires t != "" && !Starts(t, "|)") && GRepeat(t) == Ok((g, ""))
    ensures ParseRegex(s) == Ok(Cat(f, g))
  {
    assert GCat("", Some(Cat(f, g))) == Ok((Cat(f, g), ""));
    assert GCat(t, Some(f)) == Ok((Cat(f, g), ""));
    assert GCat(s, None) == Ok((Cat(f, g), ""));
    assert GAltRest("", Cat(f, g)) == Ok((Cat(f, g), ""));
  }

  lemma {:induction false} GroupParses(p: string, f: Frag)
    requires ParseRegex(p) == Ok(f)
    ensures ParseRegex(Group(p)) == Ok(f)
  {
    GroupIsAtom(p, f, "");
    assert Group(p) + "" == Group(p);
    OnePiece(Group(p), f);
  }

  /** Being read as a whole is being in the language of the pattern's tree. */
  lemma {:induction false} ReadsIsMatch(p: string, f: Frag, text: string)
    requires ParseRegex(p) == Ok(f) && |p| <= 508
    ensures Reads(p, text) <==> Matches(f, text)
  {
    GroupParses(p, f);
    var body := Group(p);
    var pattern := "^" + body + "$";
    assert pattern[1..] == body + "$" && (body + "$")[..|body|] == body;
    assert body[|body| - 1] == ')';
    assert Anchors(pattern) == (true, body, true);
    assert text[0..|text|] == text;
    assert Found(f, true, true, text) <==> Matches(f, text);
  }

  /** The pattern reads exactly the language of the tree. */
  ghost predicate Means(p: string, f: Frag) {
    forall text :: Reads(p, text) <==> Matches(f, text)
  }

  lemma {:induction false} PatternMeans(p: string, f: Frag)
    requires ParseRegex(p) == Ok(f) && |p| <= 508
    ensures Means(p, f)
  {
    forall text
      ensures Reads(p, text) <==> Matches(f, text)
    {
      ReadsIsMatch(p, f, text);
    }
  }

  /** A search of a group finds any part of the text that is read as a whole; an anchor ties it to that end. */
  lemma {:induction false} SearchFindsAPart(p: string, text: string)
    requires ParseRegex(p).Ok? && |p| <= 508
    ensures SearchMeaning(Group(p), text) == Ok(exists lo, hi :: 0 <= lo <= hi <= |text| && Reads(p, text[lo..hi]))
    ensures SearchMeaning("^" + Group(p), text) == Ok(exists hi :: 0 <= hi <= |text| && Reads(p, text[..hi]))
    ensures SearchMeaning(Group(p) + "$", text) == Ok(exists lo :: 0 <= lo <= |text| && Reads(p, text[lo..]))
  {
    var f := ParseRegex(p).value;
    GroupParses(p, f);
    GroupAnchors(Group(p));
    PatternMeans(p, f);
    FoundAtStart(f, text);
    FoundAtEnd(f, text);
  }

  lemma {:induction false} GroupAnchors(body: string)
    requires body != "" && body[0] == '(' && body[|body| - 1] == ')'
    ensures Anchors(body) == (false, body, false)
    ensures Anchors("^" + body) == (true, body, false)
    ensures Anchors(body + "$") == (false, body, true)
    ensures Anchors("^" + body + "$") == (true, body, true)
  {
    assert ("^" + body)[1..] == body && (body + "$")[..|body|] == body;
    assert ("^" + body + "$")[1..] == body + "$";
  }

  lemma {:induction false} FoundAtStart(f: Frag, text: string)
    ensures Found(f, true, false, text) <==> exists hi :: 0 <= hi <= |text| && Matches(f, text[..hi])
  {
    if hi :| 0 <= hi <= |text| && Matches(f, text[..hi]) {
      assert text[0..hi] == text[..hi];
    }
    if Found(f, true, false, text) {
      var hi :| 0 <= hi <= |text| && Matches(f, text[0..hi]);
      assert text[0..hi] == text[..hi];
    }
  }

  lemma {:induction false} FoundAtEnd(f: Frag, text: string)
    ensures Found(f, false, true, text) <==> exists lo :: 0 <= lo <= |text| && Matches(f, text[lo..])
  {
    if lo :| 0 <= lo <= |text| && Matches(f, text[lo..]) {
      assert text[lo..|text|] == text[lo..];
    }
    if Found(f, false, true, text) {
      var lo :| 0 <= lo <= |text| && Matches(f, text[lo..|text|]);
      assert text[lo..|text|] == text[lo..];
    }
  }

  /** Every part is read as a whole by the pattern. */
  ghost predicate AllRead(p: string, parts: seq<string>) {
    forall part | part in parts :: Reads(p, part)
  }

  /** `*` repeats any number of times, `+` at least once, and `?` at most once. */
  lemma {:induction false} RepetitionLaw(p: string, text: string)
    requires ParseRegex(p).Ok? && |p| <= 500
    ensures Reads(Group(p) + "*", text) <==> exists parts :: AllRead(p, parts) && Flatten(parts) == text
    ensures Reads(Group(p) + "+", text) <==> exists parts :: parts != [] && AllRead(p, parts) && Flatten(parts) == text
    ensures Reads(Group(p) + "?", text) <==> text == "" || Reads(p, text)
  {
    var f := ParseRegex(p).value;
    RepeatedGroup(p, f, "*", Star(f));
    RepeatedGroup(p, f, "+", Plus(f));
    RepeatedGroup(p, f, "?", Opt(f));
    PatternMeans(p, f);
    StarOf(p, f, Group(p) + "*", text);
    PlusOf(p, f, Group(p) + "+", text);
  }

  lemma {:induction false} StarOf(p: string, f: Frag, star: string, text: string)
    requires Means(p, f) && Means(star, Star(f))
    ensures Reads(star, text) <==> exists parts :: AllRead(p, parts) && Flatten(parts) == text
  {
    if Matches(Star(f), text) {
      var parts :| Flatten(parts) == text && forall s | s in parts :: Matches(f, s);
      assert AllRead(p, parts);
    }
    if parts :| AllRead(p, parts) && Flatten(parts) == text {
      assert forall s | s in parts :: Matches(f, s);
    }
  }

  lemma {:induction false} PlusOf(p: string, f: Frag, plus: string, text: string)
    requires Means(p, f) && Means(plus, Plus(f))
    ensures Reads(plus, text) <==> exists parts :: parts != [] && AllRead(p, parts) && Flatten(parts) == text
  {
    if Matches(Plus(f), text) {
      var parts :| parts != [] && Flatten(parts) == text && forall s | s in parts :: Matches(f, s);
      assert AllRead(p, parts);
    }
    if parts :| parts != [] && AllRead(p, parts) && Flatten(parts) == text {
      assert forall s | s in parts :: Matches(f, s);
    }
  }

  lemma {:induction false} RepeatedGroup(p: string, f: Frag, op: string, h: Frag)
    requires ParseRegex(p) == Ok(f) && |p| <= 500
    requires (op == "*" && h == Star(f)) || (op == "+" && h == Plus(f)) || (op == "?" && h == Opt(f))
    ensures GRepeat(Group(p) + op) == Ok((h, "")) && Means(Group(p) + op, h)
  {
    GroupIsAtom(p, f, op);
    assert op[1..] == "";
    assert GRepeatRest(op, f) == (h, "");
    OnePiece(Group(p) + op, h);
    PatternMeans(Group(p) + op, h);
  }

  /** Two patterns in sequence read a text that splits between them. */
  lemma {:induction false} SequenceLaw(p: string, q: string, text: string)
    requires ParseRegex(p).Ok? && ParseRegex(q).Ok? && |p| + |q| <= 500
    ensures Reads(Group(p) + Group(q), text)
            <==> exists k :: 0 <= k <= |text| && Reads(p, text[..k]) && Reads(q, text[k..])
  {
    var f, g := ParseRegex(p).value, ParseRegex(q).value;
    GroupIsAtom(q, g, "");
    assert Group(q) + "" == Group(q);
    GroupThen(p, f, Group(q), g);
    PatternMeans(p, f);
    PatternMeans(q, g);
    SequenceOf(p, f, q, g, Group(p) + Group(q), text);
  }

  lemma {:induction false} SequenceOf(p: string, f: Frag, q: string, g: Frag, both: string, text: string)
    requires Means(p, f) && Means(q, g) && Means(both, Cat(f, g))
    ensures Reads(both, text) <==> exists k :: 0 <= k <= |text| && Reads(p, text[..k]) && Reads(q, text[k..])
  {
  }

  lemma {:induction false} GroupThen(p: string, f: Frag, t: string, g: Frag)
    requires ParseRegex(p) == Ok(f) && Starts(t, "(") && GRepeat(t) == Ok((g, "")) && |p| + |t| <= 506
    ensures Means(Group(p) + t, Cat(f, g))
  {
    GroupIsAtom(p, f, t);
    TwoPieces(Group(p) + t, f, t, g);
    PatternMeans(Group(p) + t, Cat(f, g));
  }

  /** A repetition behind two groups repeats the second alone. */
  lemma {:induction false} RepetitionBindsTightest(p: string, q: string, op: string, text: string)
    requires ParseRegex(p).Ok? && ParseRegex(q).Ok? && |p| + |q| <= 500 && (op == "*" || op == "+" || op == "?")
    ensures Reads(Group(p) + (Group(q) + op), text)
            <==> exists k :: 0 <= k <= |text| && Reads(p, text[..k]) && Reads(Group(q) + op, text[k..])
  {
    var f, g := ParseRegex(p).value, ParseRegex(q).value;
    var h := if op == "*" then Star(g) else if op == "+" then Plus(g) else Opt(g);
    RepeatedGroup(q, g, op, h);
    GroupThen(p, f, Group(q) + op, h);
    PatternMeans(p, f);
    SequenceOf(p, f, Group(q) + op, h, Group(p) + (Group(q) + op), text);
  }

  /** A bar reads what either side reads, whatever the sides are, so it binds loosest. */
  lemma {:induction false} BarLaw(p: string, q: string, text: string)
    requires ParseRegex(p).Ok? && ParseRegex(q).Ok? && |p| + |q| <= 500
    ensures Reads(p + ("|" + q), text) <==> Reads(p, text) || Reads(q, text)
  {
    var f, g := ParseRegex(p).value, ParseRegex(q).value;
    AltFollowed(p, "|" + q);
    assert ("|" + q)[1..] == q && "" + ("|" + q) == "|" + q;
    var (first, rest) := GCat(q, None).value;
    var h := BarTree(rest, f, first, Alt(f, first), text);
    assert ParseRegex(p + ("|" + q)) == Ok(h);
    ReadsIsMatch(p, f, text);
    ReadsIsMatch(q, g, text);
    ReadsIsMatch(p + ("|" + q), h, text);
  }

  /** Branches gathered onto `Alt(f, node)` read what `f` reads besides what they read gathered onto `node`. */
  lemma {:induction false} BarTree(s: string, f: Frag, node: Frag, whole: Frag, text: string) returns (h: Frag)
    requires GAltRest(s, node).Ok?
    requires Matches(whole, text) <==> Matches(f, text) || Matches(node, text)
    ensures GAltRest(s, whole) == Ok((h, GAltRest(s, node).value.1))
    ensures Matches(h, text) <==> Matches(f, text) || Matches(GAltRest(s, node).value.0, text)
    decreases |s|
  {
    if Starts(s, "|") {
      var (right, rest) := GCat(s[1..], None).value;
      h := BarTree(rest, f, Alt(node, right), Alt(whole, right), text);
    } else {
      h := whole;
    }
  }

  /** The empty pattern reads the empty text alone, and a pattern of one test a single character that passes. */
  lemma {:induction false} SmallestPatterns(p: string, text: string)
    requires ParseRegex(p).Ok? && ParseRegex(p).value.One? && |p| <= 508 && Anchors(p) == (false, p, false)
    ensures Reads("", text) <==> text == ""
    ensures Reads(p, text) <==> |text| == 1 && SearchMeaning(p, text) == Ok(true)
  {
    var f := ParseRegex(p).value;
    assert GCat("", None) == Ok((Empty, "")) && GAltRest("", Empty) == Ok((Empty, ""));
    assert ParseRegex("") == Ok(Empty);
    ReadsIsMatch("", Empty, text);
    ReadsIsMatch(p, f, text);
    FoundOne(f.test, text);
  }

  // ---------- plain words ----------

  predicate PlainChar(c: char) {
    && c != '(' && c != ')' && c != '[' && c != '.' && c != '|' && c != '\\'
    && c != '^' && c != '$' && c != '*' && c != '+' && c != '?'
  }

  predicate PlainWord(w: string) {
    forall i :: 0 <= i < |w| ==> PlainChar(w[i])
  }

  /** The tree reads `w` and nothing else. */
  ghost predicate ReadsOnly(f: Frag, w: string) {
    forall s :: Matches(f, s) <==> s == w
  }

  lemma {:induction false} OneMore(f: Frag, done: string, c: char)
    requires ReadsOnly(f, done)
    ensures ReadsOnly(Cat(f, One(Char(c))), done + [c])
  {
    forall s
      ensures Matches(Cat(f, One(Char(c))), s) <==> s == done + [c]
    {
      if k :| 0 <= k <= |s| && Matches(f, s[..k]) && Matches(One(Char(c)), s[k..]) {
        assert s == s[..k] + s[k..] && s[k..] == [c];
      }
      if s == done + [c] {
        assert s[..|done|] == done && s[|done|..] == [c];
      }
    }
  }

  /** The pieces of a plain word are gathered into a tree that reads the word. */
  lemma {:induction false} WordRead(w: string, acc: Option<Frag>, done: string) returns (f: Frag)
    requires PlainWord(w) && if acc.None? then done == "" else ReadsOnly(acc.value, done)
    ensures GCat(w, acc) == Ok((f, "")) && ReadsOnly(f, done + w)
    decreases |w|
  {
    if w == "" {
      f := if acc.None? then Empty else acc.value;
      assert done + w == done;
    } else {
      var c, t := w[0], w[1..];
      assert PlainChar(w[0]) && (t != "" ==> PlainChar(w[1]));
      assert GAtom(w) == Ok((One(Char(c)), t)) && GRepeat(w) == Ok((One(Char(c)), t));
      if acc.None? {
        assert ReadsOnly(One(Char(c)), [c]);
        assert done + [c] == [c];
      } else {
        OneMore(acc.value, done, c);
      }
      f := WordRead(t, Some(CatAcc(acc, One(Char(c)))), done + [c]);
      assert done + [c] + t == done + w;
    }
  }

  /** A plain word finds itself as a part of the text, and between anchors the text that equals it. */
  lemma {:induction false} WordIsFound(w: string, text: string)
    requires PlainWord(w) && |w| <= 510
    ensures SearchMeaning(w, text) == Ok(exists lo, hi :: 0 <= lo <= hi <= |text| && text[lo..hi] == w)
    ensures SearchMeaning("^" + w + "$", text) == Ok(text == w)
  {
    var f := WordRead(w, None, "");
    assert "" + w == w && GAltRest("", f) == Ok((f, ""));
    assert ParseRegex(w) == Ok(f);
    WordAnchors(w);
    assert text[0..|text|] == text;
  }

  lemma {:induction false} WordAnchors(w: string)
    requires PlainWord(w)
    ensures Anchors(w) == (false, w, false) && Anchors("^" + w + "$") == (true, w, true)
  {
    var pattern := "^" + w + "$";
    assert pattern[1..] == w + "$" && (w + "$")[..|w|] == w;
    if w != "" {
      assert PlainChar(w[0]) && PlainChar(w[|w| - 1]);
    }
  }

  // ---------- patterns that are refused ----------

  /** Too long a pattern, and a parenthesis too many on either side of a pattern without anchors. */
  lemma {:induction false} RefusedPatterns(p: string, text: string)
    ensures |p| > 512 ==> SearchMeaning(p, text) == Err(TooLong)
    ensures |p| < 512 && ParseRegex(p).Ok? && Anchors(p) == (false, p, false)
            ==> SearchMeaning("(" + p, text) == Err(UnbalancedGroup)
                && SearchMeaning(p + ")", text) == Err(Unexpected)
  {
    if |p| < 512 && ParseRegex(p).Ok? && Anchors(p) == (false, p, false) {
      var f := ParseRegex(p).value;
      OpenedTwice(p, f);
      AltFollowed(p, ")");
      assert "" + ")" == ")" && GAltRest(")", f) == Ok((f, ")"));
      assert ParseRegex(p + ")") == Err(Unexpected);
      assert Anchors(p + ")") == (false, p + ")", false);
      assert Anchors("(" + p) == (false, "(" + p, false);
    }
  }

  lemma {:induction false} OpenedTwice(p: string, f: Frag)
    requires ParseRegex(p) == Ok(f)
    ensures ParseRegex("(" + p) == Err(UnbalancedGroup)
  {
    var s := "(" + p;
    assert s[0] == '(' && s[1..] == p;
    assert GAtom(s) == Err(UnbalancedGroup) && GRepeat(s) == Err(UnbalancedGroup);
    assert GCat(s, None) == Err(UnbalancedGroup);
  }

  /** A backslash with nothing behind it, and a class that is not closed. */
  lemma {:induction false} UnfinishedPatterns(items: seq<(char, char)>, text: string)
    requires (forall k :: 0 <= k < |items| ==> PlainItem(items[k])) && |ItemsText(items)| <= 510
    requires items == [] || items[|items| - 1].1 != '$'
    ensures SearchMeaning(['\\'], text) == Err(TrailingBackslash)
    ensures SearchMeaning("[" + ItemsText(items), text) == Err(UnbalancedClass)
  {
    assert ['\\'][1..] == "" && GAtom(['\\']) == Err(TrailingBackslash);
    assert GRepeat(['\\']) == Err(TrailingBackslash) && GCat(['\\'], None) == Err(TrailingBackslash);
    var t := ItemsText(items);
    var s := "[" + t;
    assert s[0] == '[' && s[1..] == t;
    ItemsUnclosed(items, []);
    assert !Starts(t, "^") by { if items != [] { assert PlainItem(items[0]) && t[0] == items[0].0; } }
    assert GAtom(s) == Err(UnbalancedClass) && GRepeat(s) == Err(UnbalancedClass);
    assert GCat(s, None) == Err(UnbalancedClass);
    LastOfItems(items);
    assert Anchors(s) == (false, s, false);
  }

  lemma {:induction false} ItemsUnclosed(items: seq<(char, char)>, acc: seq<(char, char)>)
    requires forall k :: 0 <= k < |items| ==> PlainItem(items[k])
    ensures GItems(ItemsText(items), acc) == Err(UnbalancedClass)
    decreases |items|
  {
    if items != [] {
      var lo, hi, tail := items[0].0, items[0].1, ItemsText(items[1..]);
      var s := ItemsText(items);
      assert PlainItem(items[0]) && s[0] == lo;
      ItemsUnclosed(items[1..], acc + [(lo, hi)]);
      if items[1..] != [] {
        assert PlainItem(items[1]) && tail[0] == items[1].0;
        ItemRead(items[0], tail, acc);
      } else if lo == hi {
        assert s[1..] == "";
      } else {
        assert s[1..] == ['-', hi] && ['-', hi][2..] == "";
      }
    }
  }

  lemma {:induction false} LastOfItems(items: seq<(char, char)>)
    ensures var t := ItemsText(items);
      items != [] ==> t != "" && t[|t| - 1] == items[|items| - 1].1
  {
    if items != [] {
      LastOfItems(items[1..]);
    }
  }
}
