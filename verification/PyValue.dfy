/** The values both expression evaluators work on, with Python's equality, ordering and truth. */
module PyValue {
  import opened Common

  /** What a dictionary key compares as: a bool is the integer 0 or 1. */
  datatype Key = IntKey(n: int) | StrKey(s: string) | NullKey

  datatype Value =
    | Null
    | Bool(b: bool)
    | Int(n: int)
    | Str(s: string)
    | List(items: seq<Value>)
    | Dict(m: map<Key, Value>)

  predicate IsNumeric(v: Value) {
    v.Int? || v.Bool?
  }

  function AsInt(v: Value): int
    requires IsNumeric(v)
  {
    match v
    case Int(n) => n
    case Bool(b) => if b then 1 else 0
  }

  /** `==`: a bool equals the integer it stands for, and containers compare by content. */
  predicate PyEq(a: Value, b: Value) {
    match (a, b)
    case (Null, Null) => true
    case (Str(x), Str(y)) => x == y
    case (List(xs), List(ys)) => |xs| == |ys| && forall k :: 0 <= k < |xs| ==> PyEq(xs[k], ys[k])
    case (Dict(x), Dict(y)) => x.Keys == y.Keys && forall k :: k in x ==> PyEq(x[k], y[k])
    case _ => IsNumeric(a) && IsNumeric(b) && AsInt(a) == AsInt(b)
  }

  function Sign(n: int): int {
    if n < 0 then -1 else if n > 0 then 1 else 0
  }

  /** Lexicographic by character. */
  function StrOrder(a: string, b: string): int {
    if a == "" || b == "" then Sign(|a| - |b|)
    else if a[0] == b[0] then StrOrder(a[1..], b[1..])
    else if a[0] < b[0] then -1 else 1
  }

  lemma {:induction false} OrderFlips(a: string, b: string)
    ensures StrOrder(a, b) == -StrOrder(b, a)
    ensures StrOrder(a, b) == 0 <==> a == b
  {
    if a != "" && b != "" && a[0] == b[0] {
      OrderFlips(a[1..], b[1..]);
      assert a == [a[0]] + a[1..] && b == [b[0]] + b[1..];
    }
  }

  lemma {:induction false} OrderChains(a: string, b: string, c: string)
    requires StrOrder(a, b) < 0 && StrOrder(b, c) < 0
    ensures StrOrder(a, c) < 0
  {
    if a != "" && b != "" && c != "" && a[0] == b[0] == c[0] { OrderChains(a[1..], b[1..], c[1..]); }
  }

  /** The sign of a comparison, or None where Python raises a TypeError. */
  function PyOrder(a: Value, b: Value): Option<int>
    decreases a, 1
  {
    match (a, b)
    case (Str(x), Str(y)) => Some(StrOrder(x, y))
    case (List(xs), List(ys)) => ListOrder(xs, ys)
    case _ => if IsNumeric(a) && IsNumeric(b) then Some(Sign(AsInt(a) - AsInt(b))) else None
  }

  /** Lists compare at the first unequal pair, else by length. */
  function ListOrder(xs: seq<Value>, ys: seq<Value>): Option<int>
    decreases xs, 0
  {
    if xs == [] || ys == [] then Some(Sign(|xs| - |ys|))
    else if PyEq(xs[0], ys[0]) then ListOrder(xs[1..], ys[1..])
    else PyOrder(xs[0], ys[0])
  }

  /** The key a value hashes to; None where it is unhashable. */
  function ToKey(v: Value): Option<Key> {
    match v
    case Null => Some(NullKey)
    case Str(s) => Some(StrKey(s))
    case List(_) => None
    case Dict(_) => None
    case _ => Some(IntKey(AsInt(v)))
  }

  predicate Truthy(v: Value) {
    match v
    case Null => false
    case Bool(b) => b
    case Int(n) => n != 0
    case Str(s) => s != ""
    case List(items) => items != []
    case Dict(m) => m != map[]
  }

  predicate Contains(s: string, sub: string) {
    exists i :: 0 <= i <= |s| && sub <= s[i..]
  }

  predicate Member(v: Value, items: seq<Value>) {
    exists k :: 0 <= k < |items| && PyEq(v, items[k])
  }
}
