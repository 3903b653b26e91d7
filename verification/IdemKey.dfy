/**
Idempotency keys (app/services/assessment.py, `_hash_key`, `_idem_key`): a digest of a
compact JSON array of a kind and optional strings. The array text is proved to decode back
to its inputs, so that equal keys mean equal inputs.
*/
module IdemKey {
  import opened Common

  // ---------- the text of a JSON array of optional strings ----------

  function HexDigit(d: nat): char
    requires d < 16
  {
    if d < 10 then (48 + d) as char else (87 + d) as char
  }

  function HexValue(c: char): nat {
    if '0' <= c <= '9' then c as int - 48
    else if 'a' <= c <= 'f' then c as int - 87
    else 0
  }

  /** An escape of one 16-bit unit, in front of `rest`. */
  function Unit(n: nat, rest: string): string
    requires n < 0x1_0000
  {
    ['\\', 'u', HexDigit(n / 4096), HexDigit(n / 256 % 16), HexDigit(n / 16 % 16), HexDigit(n % 16)] + rest
  }

  function UnitValue(s: string): nat
    requires |s| >= 6
  {
    4096 * HexValue(s[2]) + 256 * HexValue(s[3]) + 16 * HexValue(s[4]) + HexValue(s[5])
  }

  /** The letter of a two-character escape, if the character has one. */
  function ShortEscape(c: char): Option<char> {
    if c == '"' then Some('"')
    else if c == '\\' then Some('\\')
    else if c == '\n' then Some('n')
    else if c == '\r' then Some('r')
    else if c == '\t' then Some('t')
    else if c == '\U{000C}' then Some('f')
    else if c == '\U{0008}' then Some('b')
    else None
  }

  function ShortMeaning(c: char): Option<char> {
    if c == '"' then Some('"')
    else if c == '\\' then Some('\\')
    else if c == 'n' then Some('\n')
    else if c == 'r' then Some('\r')
    else if c == 't' then Some('\t')
    else if c == 'f' then Some('\U{000C}')
    else if c == 'b' then Some('\U{0008}')
    else None
  }

  /** One character of a string, escaped down to printable ASCII, in front of `rest`. */
  function DumpChar(c: char, rest: string): string {
    var n := c as int;
    if ShortEscape(c).Some? then ['\\', ShortEscape(c).value] + rest
    else if 0x20 <= n <= 0x7e then [c] + rest
    else if n < 0x1_0000 then Unit(n, rest)
    else
      var v := n - 0x1_0000;
      Unit(0xd800 + v / 1024, Unit(0xdc00 + v % 1024, rest))
  }

  function DumpChars(s: string, rest: string): string {
    if s == "" then ['"'] + rest else DumpChar(s[0], DumpChars(s[1..], rest))
  }

  function DumpItem(item: Option<string>, rest: string): string {
    match item
    case None => "null" + rest
    case Some(s) => ['"'] + DumpChars(s, rest)
  }

  function DumpItems(items: seq<Option<string>>, rest: string): string
    requires items != []
  {
    DumpItem(items[0], if |items| == 1 then [']'] + rest else [','] + DumpItems(items[1..], rest))
  }

  /** `json.dumps(items, separators=(",", ":"))`. */
  function Dumps(items: seq<Option<string>>): string
    requires items != []
  {
    ['['] + DumpItems(items, "")
  }

  // ---------- reading it back ----------

  /** One character of a string and what follows; None at the closing quote or on a bad escape. */
  function LoadChar(s: string): (r: Option<(char, string)>)
    ensures r.Some? ==> |r.value.1| < |s|
  {
    if s == "" || s[0] == '"' then None
    else if s[0] != '\\' then Some((s[0], s[1..]))
    else if |s| < 2 then None
    else if ShortMeaning(s[1]).Some? then Some((ShortMeaning(s[1]).value, s[2..]))
    else if |s| < 6 || s[1] != 'u' then None
    else LoadUnits(s)
  }

  function LoadUnits(s: string): (r: Option<(char, string)>)
    requires |s| >= 6
    ensures r.Some? ==> |r.value.1| < |s|
  {
    var n := UnitValue(s);
    if 0xd800 <= n < 0xdc00 then
      if |s| < 12 then None
      else
        var m := UnitValue(s[6..]);
        if 0xdc00 <= m < 0xe000 then Some(((0x1_0000 + (n - 0xd800) * 1024 + (m - 0xdc00)) as char, s[12..])) else None
    else if n < 0xd800 || 0xe000 <= n < 0x1_0000 then Some((n as char, s[6..]))
    else None
  }

  function LoadChars(s: string): (r: Option<(string, string)>)
    ensures r.Some? ==> |r.value.1| < |s|
    decreases |s|
  {
    if s == "" then None
    else if s[0] == '"' then Some(("", s[1..]))
    else
      match LoadChar(s)
      case None => None
      case Some((c, t)) =>
        match LoadChars(t)
        case None => None
        case Some((cs, rest)) => Some(([c] + cs, rest))
  }

  function LoadItem(s: string): (r: Option<(Option<string>, string)>)
    ensures r.Some? ==> |r.value.1| < |s|
  {
    if |s| >= 4 && s[..4] == "null" then Some((None, s[4..]))
    else if s == "" || s[0] != '"' then None
    else
      match LoadChars(s[1..])
      case None => None
      case Some((cs, rest)) => Some((Some(cs), rest))
  }

  function LoadItems(s: string): Option<(seq<Option<string>>, string)>
    decreases |s|
  {
    match LoadItem(s)
    case None => None
    case Some((item, t)) =>
      if t == "" then None
      else if t[0] == ']' then Some(([item], t[1..]))
      else if t[0] != ',' then None
      else
        match LoadItems(t[1..])
        case None => None
        case Some((items, rest)) => Some(([item] + items, rest))
  }

  lemma {:induction false} UnitRoundTrip(n: nat, rest: string)
    requires n < 0x1_0000
    ensures |Unit(n, rest)| >= 6 && UnitValue(Unit(n, rest)) == n && Unit(n, rest)[6..] == rest
  {
    var a, b, c, d := n / 4096, n / 256 % 16, n / 16 % 16, n % 16;
    Positional(n);
    HexRoundTrip(a);
    HexRoundTrip(b);
    HexRoundTrip(c);
    HexRoundTrip(d);
    var s := Unit(n, rest);
    assert s[2] == HexDigit(a) && s[3] == HexDigit(b) && s[4] == HexDigit(c) && s[5] == HexDigit(d);
  }

  lemma {:induction false} HexRoundTrip(d: nat)
    requires d < 16
    ensures HexValue(HexDigit(d)) == d
  {
  }

  lemma {:induction false} Positional(n: nat)
    ensures n == 4096 * (n / 4096) + 256 * (n / 256 % 16) + 16 * (n / 16 % 16) + n % 16
  {
    var x, y := n / 16, n / 256;
    assert n == 16 * x + n % 16;
    assert x / 16 == y && x == 16 * y + x % 16;
    assert y / 16 == n / 4096 && y == 16 * (n / 4096) + y % 16;
  }

  /** One character's text reads back, and does not look like the closing quote. */
  ghost predicate ReadsBack(c: char, rest: string) {
    && DumpChar(c, rest) != "" && DumpChar(c, rest)[0] != '"'
    && LoadChar(DumpChar(c, rest)) == Some((c, rest))
  }

  lemma {:induction false} CharRoundTrip(c: char, rest: string)
    ensures DumpChar(c, rest) != "" && DumpChar(c, rest)[0] != '"'
    ensures LoadChar(DumpChar(c, rest)) == Some((c, rest))
  {
    assert ReadsBack(c, rest) by {
      if ShortEscape(c).Some? {
        ShortReadsBack(c, rest);
      } else if 0x20 <= c as int <= 0x7e {
        PrintedReadsBack(c, rest);
      } else if (c as int) < 0x1_0000 {
        UnitReadsBack(c, rest);
      } else {
        PairReadsBack(c, rest);
      }
    }
  }

  lemma {:induction false} ShortReadsBack(c: char, rest: string)
    requires ShortEscape(c).Some?
    ensures ReadsBack(c, rest)
  {
    var e := ShortEscape(c).value;
    assert DumpChar(c, rest) == ['\\', e] + rest;
    ShortRoundTrip(c, e, rest);
  }

  lemma {:induction false} PrintedReadsBack(c: char, rest: string)
    requires ShortEscape(c).None? && 0x20 <= c as int <= 0x7e
    ensures ReadsBack(c, rest)
  {
    var s := DumpChar(c, rest);
    assert s == [c] + rest && s[1..] == rest;
  }

  lemma {:induction false} UnitReadsBack(c: char, rest: string)
    requires ShortEscape(c).None? && (c as int < 0x20 || 0x7e < c as int < 0x1_0000)
    ensures ReadsBack(c, rest)
  {
    var n := c as int;
    var s := Unit(n, rest);
    UnitRoundTrip(n, rest);
    assert DumpChar(c, rest) == s && s[0] == '\\' && s[1] == 'u';
    UnitsRead(s);
  }

  lemma {:induction false} PairReadsBack(c: char, rest: string)
    requires ShortEscape(c).None? && 0x1_0000 <= c as int
    ensures ReadsBack(c, rest)
  {
    var v := c as int - 0x1_0000;
    var s := Unit(0xd800 + v / 1024, Unit(0xdc00 + v % 1024, rest));
    PairRoundTrip(v, rest);
    assert DumpChar(c, rest) == s;
    UnitsRead(s);
    assert (0x1_0000 + v) as char == c;
  }

  lemma {:induction false} UnitsRead(s: string)
    requires |s| >= 6 && s[0] == '\\' && s[1] == 'u'
    ensures LoadChar(s) == LoadUnits(s)
  {
  }

  lemma {:induction false} ShortRoundTrip(c: char, e: char, rest: string)
    requires ShortEscape(c) == Some(e)
    ensures LoadChar(['\\', e] + rest) == Some((c, rest))
  {
    var s := ['\\', e] + rest;
    assert s[0] == '\\' && s[1] == e && s[2..] == rest;
    assert ShortMeaning(e) == Some(c);
  }

  lemma {:induction false} PairRoundTrip(v: nat, rest: string)
    requires v < 0x10_0000
    ensures var s := Unit(0xd800 + v / 1024, Unit(0xdc00 + v % 1024, rest));
      |s| >= 12 && s[0] == '\\' && s[1] == 'u' && LoadUnits(s) == Some(((0x1_0000 + v) as char, rest))
  {
    var low := Unit(0xdc00 + v % 1024, rest);
    var s := Unit(0xd800 + v / 1024, low);
    UnitRoundTrip(0xdc00 + v % 1024, rest);
    UnitRoundTrip(0xd800 + v / 1024, low);
    assert s[6..] == low && s[12..] == low[6..];
    assert v == v / 1024 * 1024 + v % 1024;
  }

  lemma {:induction false} CharsRoundTrip(s: string, rest: string)
    ensures LoadChars(DumpChars(s, rest)) == Some((s, rest))
    decreases |s|
  {
    if s == "" {
      assert (['"'] + rest)[1..] == rest;
    } else {
      CharRoundTrip(s[0], DumpChars(s[1..], rest));
      CharsRoundTrip(s[1..], rest);
      assert [s[0]] + s[1..] == s;
    }
  }

  lemma {:induction false} ItemRoundTrip(item: Option<string>, rest: string)
    ensures LoadItem(DumpItem(item, rest)) == Some((item, rest))
  {
    var text := DumpItem(item, rest);
    match item
    case None => assert text[..4] == "null" && text[4..] == rest;
    case Some(s) =>
      assert text[0] == '"';
      if |text| >= 4 { assert text[..4][0] == '"'; }
      CharsRoundTrip(s, rest);
      assert text[1..] == DumpChars(s, rest);
  }

  lemma {:induction false} ItemsRoundTrip(items: seq<Option<string>>, rest: string)
    requires items != []
    ensures LoadItems(DumpItems(items, rest)) == Some((items, rest))
    decreases |items|
  {
    var after := if |items| == 1 then [']'] + rest else [','] + DumpItems(items[1..], rest);
    ItemRoundTrip(items[0], after);
    if |items| == 1 {
      assert after[1..] == rest && [items[0]] == items;
    } else {
      ItemsRoundTrip(items[1..], rest);
      assert after[1..] == DumpItems(items[1..], rest);
      assert [items[0]] + items[1..] == items;
    }
  }

  /** The encoding is injective: null is not "null", and no value can forge a field boundary. */
  lemma {:induction false} DumpsInjective(a: seq<Option<string>>, b: seq<Option<string>>)
    requires a != [] && b != [] && Dumps(a) == Dumps(b)
    ensures a == b
  {
    ItemsRoundTrip(a, "");
    ItemsRoundTrip(b, "");
    assert Dumps(a)[1..] == DumpItems(a, "") && Dumps(b)[1..] == DumpItems(b, "");
  }

  // ---------- keys ----------

  /** How long a derived key suppresses a new assessment: five minutes, in the clock's microseconds. */
  const WINDOW := 5 * 60 * 1_000_000

  /** A digest stands for the text it was taken of: equal digests, equal texts. */
  datatype Digest = Sha256(text: string)

  datatype Key = Key(namespace: char, digest: Digest)

  function HashKey(kind: string, parts: seq<Option<string>>): Key
    requires kind != ""
  {
    Key(kind[0], Sha256(Dumps([Some(kind)] + parts)))
  }

  datatype Request = Request(tenant: string, framework: string, control: string, source: string,
                             asset: Option<string>, idempotencyKey: Option<string>)

  const CLIENT := "client"
  const DERIVED := "derived"
  const EXTERNAL := "external"

  /** A caller supplies a key by giving one that is not empty. */
  predicate Explicit(req: Request) {
    req.idempotencyKey.Some? && req.idempotencyKey.value != ""
  }

  function KeyOf(req: Request): Key {
    if Explicit(req) then HashKey(CLIENT, [Some(req.tenant), req.idempotencyKey])
    else HashKey(DERIVED, [Some(req.tenant), Some(req.framework), Some(req.control), Some(req.source), req.asset])
  }

  function ExternalKey(tenant: string, externalId: Option<string>, control: string, asset: Option<string>): Key {
    HashKey(EXTERNAL, [Some(tenant), externalId, Some(control), asset])
  }

  lemma {:induction false} HashKeyInjective(kind: string,
      parts: seq<Option<string>>, kind': string, parts': seq<Option<string>>)
    requires kind != "" && kind' != "" && HashKey(kind, parts) == HashKey(kind', parts')
    ensures kind == kind' && parts == parts'
  {
    var a, b := [Some(kind)] + parts, [Some(kind')] + parts';
    DumpsInjective(a, b);
    assert a[0] == b[0] && a[1..] == parts && b[1..] == parts';
  }

  /** Two requests share a key exactly when they name the same thing in the same way. */
  lemma {:induction false} KeyMeansOneThing(a: Request, b: Request)
    ensures KeyOf(a) == KeyOf(b) <==>
      if Explicit(a) then Explicit(b) && a.tenant == b.tenant && a.idempotencyKey == b.idempotencyKey
      else !Explicit(b) && (a.tenant, a.framework, a.control, a.source, a.asset)
                           == (b.tenant, b.framework, b.control, b.source, b.asset)
  {
    if KeyOf(a) == KeyOf(b) {
      var ka, pa := if Explicit(a) then CLIENT else DERIVED, PartsOf(a);
      var kb, pb := if Explicit(b) then CLIENT else DERIVED, PartsOf(b);
      HashKeyInjective(ka, pa, kb, pb);
      assert |pa| == |pb| && forall k :: 0 <= k < |pa| ==> pa[k] == pb[k];
      assert pa[0] == pb[0] && pa[1] == pb[1];
      if !Explicit(a) && !Explicit(b) {
        assert pa[2] == pb[2] && pa[3] == pb[3] && pa[4] == pb[4];
      }
    }
  }

  /** An empty key is no key, and behind any other only the tenant counts. */
  lemma {:induction false} OnlyAFilledKeyIsExplicit(a: Request, b: Request, k: string)
    ensures KeyOf(a.(idempotencyKey := Some(""))) == KeyOf(a.(idempotencyKey := None))
    ensures k != "" && a.tenant == b.tenant
            ==> KeyOf(a.(idempotencyKey := Some(k))) == KeyOf(b.(idempotencyKey := Some(k)))
    ensures k != "" ==> KeyOf(a.(idempotencyKey := Some(k))) != KeyOf(b.(idempotencyKey := None))
  {
    KeyMeansOneThing(a.(idempotencyKey := Some(k)), b.(idempotencyKey := None));
  }

  function PartsOf(req: Request): seq<Option<string>> {
    if Explicit(req) then [Some(req.tenant), req.idempotencyKey]
    else [Some(req.tenant), Some(req.framework), Some(req.control), Some(req.source), req.asset]
  }

  /** An ingested finding's key never meets a request's, and means one external finding. */
  lemma {:induction false} ExternalKeysApart(tenant: string,
      ext: Option<string>, control: string, asset: Option<string>,
                                             req: Request, tenant': string, ext': Option<string>, control': string,
                                             asset': Option<string>)
    ensures ExternalKey(tenant, ext, control, asset) != KeyOf(req)
    ensures ExternalKey(tenant, ext, control, asset) == ExternalKey(tenant', ext', control', asset')
            <==> (tenant, ext, control, asset) == (tenant', ext', control', asset')
  {
    var parts, parts' := [Some(tenant), ext, Some(control), asset], [Some(tenant'), ext', Some(control'), asset'];
    if ExternalKey(tenant, ext, control, asset) == ExternalKey(tenant', ext', control', asset') {
      HashKeyInjective(EXTERNAL, parts, EXTERNAL, parts');
      assert parts[0] == parts'[0] && parts[1] == parts'[1] && parts[2] == parts'[2] && parts[3] == parts'[3];
    }
    assert CLIENT[0] == 'c' && DERIVED[0] == 'd' && EXTERNAL[0] == 'e';
  }
}
