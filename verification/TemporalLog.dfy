/**
The valid-time log of app/services/bitemporal.py. A put closes the open rows it
supersedes and inserts its own; the rows any sequence of puts leaves, in whatever time
order they come, are given outright, and what a point-in-time read finds follows.
*/
module TemporalLog {
  import opened Common

  datatype Interval<V> = Interval(validFrom: int, validTo: Option<int>, value: V, recordedAt: int)

  /** What one put asks for. */
  datatype Entry<V> = Entry(from: int, value: V, recordedAt: int)

  function CloseOne<V>(r: Interval<V>, v: int): Interval<V> {
    if r.validTo.None? && r.validFrom <= v then r.(validTo := Some(v)) else r
  }

  /** Closes every open row that starts at or before `v`. */
  function Close<V>(rows: seq<Interval<V>>, v: int): (r: seq<Interval<V>>)
    ensures |r| == |rows|
  {
    seq(|rows|, i requires 0 <= i < |rows| => CloseOne(rows[i], v))
  }

  /** Inserts behind the rows that start no later. */
  function Insert<V>(rows: seq<Interval<V>>, r: Interval<V>): seq<Interval<V>> {
    if rows == [] || rows[|rows| - 1].validFrom <= r.validFrom then rows + [r]
    else Insert(rows[..|rows| - 1], r) + [rows[|rows| - 1]]
  }

  function Opened<V>(e: Entry<V>): Interval<V> {
    Interval(e.from, None, e.value, e.recordedAt)
  }

  function PutRows<V>(rows: seq<Interval<V>>, e: Entry<V>): seq<Interval<V>> {
    Insert(Close(rows, e.from), Opened(e))
  }

  predicate Covers<V>(r: Interval<V>, t: int) {
    r.validFrom <= t && (r.validTo.None? || t < r.validTo.value)
  }

  /** The value of the first row that covers `t`. */
  function At<V>(rows: seq<Interval<V>>, t: int): Option<V> {
    if rows == [] then None
    else if Covers(rows[0], t) then Some(rows[0].value)
    else At(rows[1..], t)
  }

  predicate Sorted<V>(rows: seq<Interval<V>>) {
    forall i, j :: 0 <= i < j < |rows| ==> rows[i].validFrom <= rows[j].validFrom
  }

  class Log<V(==)> {
    var byKey: map<string, seq<Interval<V>>>

    ghost predicate Valid()
      reads this
    {
      forall k :: k in byKey ==> Sorted(byKey[k])
    }

    function Rows(key: string): seq<Interval<V>>
      reads this
    {
      if key in byKey then byKey[key] else []
    }

    constructor ()
      ensures Valid() && byKey == map[]
    {
      byKey := map[];
    }

    /** `now` and `later` are the clock readings that stand in for times the caller leaves out. */
    method Put(key: string, value: V, validFrom: Option<int>, recordedAt: Option<int>, now: int, later: int)
      returns (iv: Interval<V>)
      requires Valid()
      modifies this
      ensures Valid()
      ensures var e := Entry(if validFrom.Some? then validFrom.value else now, value,
                             if recordedAt.Some? then recordedAt.value else later);
        iv == Opened(e) && byKey == old(byKey)[key := PutRows(old(Rows(key)), e)]
    {
      var vf := if validFrom.Some? then validFrom.value else now;
      var rows := CloseOpen(Rows(key), vf);
      iv := Interval(vf, None, value, if recordedAt.Some? then recordedAt.value else later);
      InsertSorted(rows, iv);
      var p := Bisect(rows, vf);
      InsertPosition(rows, iv, p);
      byKey := byKey[key := rows[..p] + [iv] + rows[p..]];
    }

    /** The snapshot at `t`: each key whose rows cover it, with the value they give. */
    method AsOf(t: int) returns (out: map<string, V>)
      ensures forall k :: k in out <==> At(Rows(k), t).Some?
      ensures forall k :: k in out ==> At(Rows(k), t) == Some(out[k])
    {
      out := map[];
      var todo := byKey.Keys;
      while todo != {}
        invariant todo <= byKey.Keys
        invariant forall k :: k in out <==> k !in todo && At(Rows(k), t).Some?
        invariant forall k :: k in out ==> At(Rows(k), t) == Some(out[k])
        decreases todo
      {
        var key :| key in todo;
        var v := ValueAt(key, t);
        if v.Some? {
          out := out[key := v.value];
        }
        todo := todo - {key};
      }
    }

    /** The original answers None both for no row and for a row whose value is None. */
    method ValueAt(key: string, t: int) returns (v: Option<V>)
      ensures v == At(Rows(key), t)
    {
      var rows := Rows(key);
      var k := 0;
      while k < |rows|
        invariant 0 <= k <= |rows| && At(rows, t) == At(rows[k..], t)
      {
        if Covers(rows[k], t) {
          return Some(rows[k].value);
        }
        assert rows[k..][1..] == rows[k + 1..];
        k := k + 1;
      }
      v := None;
    }
  }

  /** Ends every open row that starts at or before `v`, in place. */
  method CloseOpen<V>(before: seq<Interval<V>>, v: int) returns (rows: seq<Interval<V>>)
    ensures rows == Close(before, v)
  {
    rows := before;
    var k := 0;
    while k < |rows|
      invariant 0 <= k <= |rows| == |before|
      invariant forall i :: 0 <= i < k ==> rows[i] == CloseOne(before[i], v)
      invariant forall i :: k <= i < |rows| ==> rows[i] == before[i]
    {
      if rows[k].validTo.None? && rows[k].validFrom <= v {
        rows := rows[k := rows[k].(validTo := Some(v))];
      }
      k := k + 1;
    }
  }

  /** Binary search for where a row starting at `v` goes: behind its equals. */
  method Bisect<V>(rows: seq<Interval<V>>, v: int) returns (p: nat)
    requires Sorted(rows)
    ensures p <= |rows|
    ensures forall i :: 0 <= i < p ==> rows[i].validFrom <= v
    ensures forall i :: p <= i < |rows| ==> v < rows[i].validFrom
  {
    p := 0;
    var hi := |rows|;
    while p < hi
      invariant 0 <= p <= hi <= |rows|
      invariant forall i :: 0 <= i < p ==> rows[i].validFrom <= v
      invariant forall i :: hi <= i < |rows| ==> v < rows[i].validFrom
    {
      var mid := (p + hi) / 2;
      if v < rows[mid].validFrom {
        hi := mid;
      } else {
        p := mid + 1;
      }
    }
  }

  lemma {:induction false} InsertPosition<V>(rows: seq<Interval<V>>, r: Interval<V>, p: nat)
    requires p <= |rows|
    requires forall i :: 0 <= i < p ==> rows[i].validFrom <= r.validFrom
    requires forall i :: p <= i < |rows| ==> r.validFrom < rows[i].validFrom
    ensures Insert(rows, r) == rows[..p] + [r] + rows[p..]
    decreases |rows|
  {
    if rows == [] || rows[|rows| - 1].validFrom <= r.validFrom {
      assert rows[..p] == rows && rows[p..] == [];
    } else {
      var init := rows[..|rows| - 1];
      InsertPosition(init, r, p);
      assert init[..p] == rows[..p] && init[p..] + [rows[|rows| - 1]] == rows[p..];
    }
  }

  lemma {:induction false} InsertBounded<V>(rows: seq<Interval<V>>, r: Interval<V>, v: int)
    requires r.validFrom <= v && forall i :: 0 <= i < |rows| ==> rows[i].validFrom <= v
    ensures forall i :: 0 <= i < |Insert(rows, r)| ==> Insert(rows, r)[i].validFrom <= v
    decreases |rows|
  {
    if !(rows == [] || rows[|rows| - 1].validFrom <= r.validFrom) { InsertBounded(rows[..|rows| - 1], r, v); }
  }

  lemma {:induction false} InsertElements<V>(rows: seq<Interval<V>>, r: Interval<V>)
    ensures multiset(Insert(rows, r)) == multiset(rows) + multiset{r}
    decreases |rows|
  {
    if !(rows == [] || rows[|rows| - 1].validFrom <= r.validFrom) {
      var init, last := rows[..|rows| - 1], rows[|rows| - 1];
      InsertElements(init, r);
      assert rows == init + [last];
    }
  }

  lemma {:induction false} InsertSorted<V>(rows: seq<Interval<V>>, r: Interval<V>)
    requires Sorted(rows)
    ensures Sorted(Insert(rows, r))
    ensures multiset(Insert(rows, r)) == multiset(rows) + multiset{r}
    decreases |rows|
  {
    InsertElements(rows, r);
    if !(rows == [] || rows[|rows| - 1].validFrom <= r.validFrom) {
      var init, last := rows[..|rows| - 1], rows[|rows| - 1];
      InsertSorted(init, r);
      InsertBounded(init, r, last.validFrom);
    }
  }

  // ---------- every sequence of puts ----------

  function Replay<V>(puts: seq<Entry<V>>): seq<Interval<V>> {
    if puts == [] then [] else PutRows(Replay(puts[..|puts| - 1]), puts[|puts| - 1])
  }

  /** Where the first put from position `i` on that starts no earlier than `v` starts. */
  function NextNotEarlier<V>(puts: seq<Entry<V>>, i: nat, v: int): Option<int>
    requires i <= |puts|
    decreases |puts| - i
  {
    if i == |puts| then None
    else if v <= puts[i].from then Some(puts[i].from)
    else NextNotEarlier(puts, i + 1, v)
  }

  /** The row of the `i`-th put: it ends where the next later put that is not earlier starts. */
  function RowOf<V>(puts: seq<Entry<V>>, i: nat): Interval<V>
    requires i < |puts|
  {
    Interval(puts[i].from, NextNotEarlier(puts, i + 1, puts[i].from), puts[i].value, puts[i].recordedAt)
  }

  /** Those rows, in the order of the puts. */
  function Expected<V>(puts: seq<Entry<V>>): (r: seq<Interval<V>>)
    ensures |r| == |puts|
  {
    seq(|puts|, i requires 0 <= i < |puts| => RowOf(puts, i))
  }

  function StableSort<V>(rows: seq<Interval<V>>): seq<Interval<V>> {
    if rows == [] then [] else Insert(StableSort(rows[..|rows| - 1]), rows[|rows| - 1])
  }

  lemma {:induction false} StableSortSorts<V>(rows: seq<Interval<V>>)
    ensures Sorted(StableSort(rows)) && multiset(StableSort(rows)) == multiset(rows)
    decreases |rows|
  {
    if rows != [] {
      var init := rows[..|rows| - 1];
      StableSortSorts(init);
      InsertSorted(StableSort(init), rows[|rows| - 1]);
      assert rows == init + [rows[|rows| - 1]];
    }
  }

  lemma {:induction false} NextAfterOneMore<V>(puts: seq<Entry<V>>, e: Entry<V>, i: nat, v: int)
    requires i <= |puts|
    ensures NextNotEarlier(puts + [e], i, v) ==
      if NextNotEarlier(puts, i, v).Some? then NextNotEarlier(puts, i, v)
      else if v <= e.from then Some(e.from) else None
    decreases |puts| - i
  {
    if i == |puts| {
      assert (puts + [e])[i] == e;
      assert NextNotEarlier(puts + [e], i + 1, v) == None;
    } else {
      NextAfterOneMore(puts, e, i + 1, v);
      assert (puts + [e])[i] == puts[i];
    }
  }

  lemma {:induction false} ExpectedOneMore<V>(puts: seq<Entry<V>>, e: Entry<V>)
    ensures Expected(puts + [e]) == Close(Expected(puts), e.from) + [Opened(e)]
  {
    var more := puts + [e];
    forall i | 0 <= i < |puts|
      ensures Expected(more)[i] == CloseOne(RowOf(puts, i), e.from)
    {
      NextAfterOneMore(puts, e, i + 1, puts[i].from);
    }
    assert RowOf(more, |puts|) == Opened(e);
  }

  lemma {:induction false} CloseInsert<V>(rows: seq<Interval<V>>, r: Interval<V>, v: int)
    ensures Close(Insert(rows, r), v) == Insert(Close(rows, v), CloseOne(r, v))
    decreases |rows|
  {
    if rows == [] || rows[|rows| - 1].validFrom <= r.validFrom {
      assert Close(rows + [r], v) == Close(rows, v) + [CloseOne(r, v)];
    } else {
      var init, last := rows[..|rows| - 1], rows[|rows| - 1];
      CloseInsert(init, r, v);
      assert Close(rows, v)[..|rows| - 1] == Close(init, v);
      assert Close(Insert(init, r) + [last], v) == Close(Insert(init, r), v) + [CloseOne(last, v)];
    }
  }

  lemma {:induction false} CloseSort<V>(rows: seq<Interval<V>>, v: int)
    ensures Close(StableSort(rows), v) == StableSort(Close(rows, v))
    decreases |rows|
  {
    if rows == [] {
      assert Close(rows, v) == [];
    } else {
      var init, last := rows[..|rows| - 1], rows[|rows| - 1];
      CloseSort(init, v);
      CloseInsert(StableSort(init), last, v);
      assert Close(rows, v)[..|rows| - 1] == Close(init, v);
    }
  }

  /** For every sequence of puts, in any time order: one row per put, ended as `RowOf` says, sorted by start. */
  lemma {:induction false} ReplayRows<V>(puts: seq<Entry<V>>)
    ensures Replay(puts) == StableSort(Expected(puts))
    ensures Sorted(Replay(puts)) && multiset(Replay(puts)) == multiset(Expected(puts))
    decreases |puts|
  {
    if puts != [] {
      var init, e := puts[..|puts| - 1], puts[|puts| - 1];
      ReplayRows(init);
      assert puts == init + [e];
      ExpectedOneMore(init, e);
      CloseSort(Expected(init), e.from);
      assert (Close(Expected(init), e.from) + [Opened(e)])[..|init|] == Close(Expected(init), e.from);
    }
    StableSortSorts(Expected(puts));
  }

  // ---------- what a point-in-time read finds ----------

  lemma {:induction false} AtFinds<V>(rows: seq<Interval<V>>, t: int)
    ensures At(rows, t).Some? <==> exists i :: 0 <= i < |rows| && Covers(rows[i], t)
    decreases |rows|
  {
    if rows != [] {
      AtFinds(rows[1..], t);
      if At(rows[1..], t).Some? {
        var i :| 0 <= i < |rows| - 1 && Covers(rows[1..][i], t);
        assert Covers(rows[i + 1], t);
      }
      forall i | 0 <= i < |rows| && Covers(rows[i], t)
        ensures i == 0 || Covers(rows[1..][i - 1], t)
      {
      }
    }
  }

  lemma {:induction false} NextIsLater<V>(puts: seq<Entry<V>>, i: nat, v: int, t: int)
    requires i <= |puts| && forall j :: i <= j < |puts| ==> t < puts[j].from
    ensures NextNotEarlier(puts, i, v).None? || t < NextNotEarlier(puts, i, v).value
    decreases |puts| - i
  {
    if i < |puts| {
      NextIsLater(puts, i + 1, v, t);
    }
  }

  lemma {:induction false} LastAtOrBefore<V>(puts: seq<Entry<V>>, t: int) returns (i: nat)
    requires exists k :: 0 <= k < |puts| && puts[k].from <= t
    ensures i < |puts| && puts[i].from <= t && forall j :: i < j < |puts| ==> t < puts[j].from
    decreases |puts|
  {
    if puts[|puts| - 1].from <= t {
      i := |puts| - 1;
    } else {
      var init := puts[..|puts| - 1];
      var k :| 0 <= k < |puts| && puts[k].from <= t;
      assert init[k].from <= t;
      i := LastAtOrBefore(init, t);
      assert forall j :: i < j < |init| ==> t < init[j].from && init[j] == puts[j];
    }
  }

  /** A read finds a value exactly when some put starts at or before the time, for every sequence of puts. */
  lemma {:induction false} Coverage<V>(puts: seq<Entry<V>>, t: int)
    ensures At(Replay(puts), t).Some? <==> exists i :: 0 <= i < |puts| && puts[i].from <= t
  {
    AtFinds(Replay(puts), t);
    if exists i :: 0 <= i < |puts| && puts[i].from <= t {
      CoveredAfter(puts, t);
    }
    forall k | 0 <= k < |Replay(puts)| && Covers(Replay(puts)[k], t)
      ensures exists i :: 0 <= i < |puts| && puts[i].from <= t
    {
      CoveredOnlyAfter(puts, k, t);
    }
  }

  lemma {:induction false} CoveredAfter<V>(puts: seq<Entry<V>>, t: int)
    requires exists i :: 0 <= i < |puts| && puts[i].from <= t
    ensures exists k :: 0 <= k < |Replay(puts)| && Covers(Replay(puts)[k], t)
  {
    var rows := Replay(puts);
    ReplayRows(puts);
    var i := LastAtOrBefore(puts, t);
    NextIsLater(puts, i + 1, puts[i].from, t);
    var row := Expected(puts)[i];
    assert row in multiset(rows);
    var k :| 0 <= k < |rows| && rows[k] == row;
    assert Covers(rows[k], t);
  }

  lemma {:induction false} CoveredOnlyAfter<V>(puts: seq<Entry<V>>, k: nat, t: int)
    requires k < |Replay(puts)| && Covers(Replay(puts)[k], t)
    ensures exists i :: 0 <= i < |puts| && puts[i].from <= t
  {
    ReplayRows(puts);
    assert Replay(puts)[k] in multiset(Expected(puts));
    var i :| 0 <= i < |puts| && Expected(puts)[i] == Replay(puts)[k];
    assert puts[i].from <= t;
  }

  lemma {:induction false} AtAppend<V>(rows: seq<Interval<V>>, more: seq<Interval<V>>, t: int)
    ensures At(rows + more, t) == if At(rows, t).Some? then At(rows, t) else At(more, t)
    decreases |rows|
  {
    if rows == [] {
      assert rows + more == more;
    } else {
      AtAppend(rows[1..], more, t);
      assert (rows + more)[1..] == rows[1..] + more;
    }
  }

  lemma {:induction false} AtClose<V>(rows: seq<Interval<V>>, v: int, t: int)
    requires t < v
    ensures At(Close(rows, v), t) == At(rows, t)
    decreases |rows|
  {
    if rows != [] {
      AtClose(rows[1..], v, t);
      assert Close(rows, v)[1..] == Close(rows[1..], v);
    }
  }

  lemma {:induction false} AtInsert<V>(rows: seq<Interval<V>>, r: Interval<V>, t: int)
    requires !Covers(r, t)
    ensures At(Insert(rows, r), t) == At(rows, t)
    decreases |rows|
  {
    if rows == [] || rows[|rows| - 1].validFrom <= r.validFrom {
      AtAppend(rows, [r], t);
    } else {
      var init, last := rows[..|rows| - 1], rows[|rows| - 1];
      AtInsert(init, r, t);
      AtAppend(init, [last], t);
      AtAppend(Insert(init, r), [last], t);
      assert rows == init + [last];
    }
  }

  /** A put never changes what a read of an earlier time finds. */
  lemma {:induction false} PastImmutable<V>(puts: seq<Entry<V>>, e: Entry<V>, t: int)
    requires t < e.from
    ensures At(Replay(puts + [e]), t) == At(Replay(puts), t)
  {
    assert (puts + [e])[..|puts|] == puts;
    AtInsert(Close(Replay(puts), e.from), Opened(e), t);
    AtClose(Replay(puts), e.from, t);
  }

  // ---------- which row a read finds, for every sequence of puts ----------

  /** The row that `At` takes its value from. */
  function First<V>(rows: seq<Interval<V>>, t: int): Option<Interval<V>> {
    if rows == [] then None
    else
      var before := First(rows[..|rows| - 1], t);
      if before.Some? then before
      else if Covers(rows[|rows| - 1], t) then Some(rows[|rows| - 1]) else None
  }

  lemma {:induction false} AtIsFirst<V>(rows: seq<Interval<V>>, t: int)
    ensures At(rows, t) == if First(rows, t).Some? then Some(First(rows, t).value.value) else None
    decreases |rows|
  {
    if rows != [] {
      var init, last := rows[..|rows| - 1], rows[|rows| - 1];
      AtIsFirst(init, t);
      AtAppend(init, [last], t);
      assert rows == init + [last] && [last][1..] == [];
    }
  }

  /**
  Among the rows of the puts in put order, the position of the one a read finds: earliest start,
  then earliest put.
  */
  function Pick<V>(rows: seq<Interval<V>>, t: int): (p: Option<nat>)
    ensures p.Some? ==> p.value < |rows|
  {
    if rows == [] then None
    else
      var init, last := rows[..|rows| - 1], rows[|rows| - 1];
      var before := Pick(init, t);
      if !Covers(last, t) || (before.Some? && init[before.value].validFrom <= last.validFrom) then before
      else Some(|rows| - 1)
  }

  /** `rows[i]` covers `t` and starts before every other row that does, or with it but from an earlier put. */
  ghost predicate Earliest<V>(rows: seq<Interval<V>>, i: nat, t: int) {
    && i < |rows| && Covers(rows[i], t)
    && forall k :: 0 <= k < |rows| && Covers(rows[k], t) ==>
         rows[i].validFrom < rows[k].validFrom || (rows[i].validFrom == rows[k].validFrom && i <= k)
  }

  lemma {:induction false} PickIsEarliest<V>(rows: seq<Interval<V>>, t: int)
    ensures Pick(rows, t).Some? ==> Earliest(rows, Pick(rows, t).value, t)
    ensures Pick(rows, t).None? ==> forall k :: 0 <= k < |rows| ==> !Covers(rows[k], t)
    decreases |rows|
  {
    if rows != [] { PickIsEarliest(rows[..|rows| - 1], t); }
  }

  lemma {:induction false} FirstAfterInsert<V>(rows: seq<Interval<V>>, r: Interval<V>, t: int)
    requires Sorted(rows)
    ensures First(rows, t).Some? ==> First(rows, t).value in rows
    ensures First(Insert(rows, r), t) ==
      if !Covers(r, t) || (First(rows, t).Some? && First(rows, t).value.validFrom <= r.validFrom) then First(rows, t)
      else Some(r)
    decreases |rows|
  {
    if rows == [] || rows[|rows| - 1].validFrom <= r.validFrom {
      assert (rows + [r])[..|rows|] == rows;
      FirstIsARow(rows, t);
    } else {
      var init, last := rows[..|rows| - 1], rows[|rows| - 1];
      FirstAfterInsert(init, r, t);
      var inner := Insert(init, r);
      assert (inner + [last])[..|inner|] == inner;
      FirstIsARow(rows, t);
    }
  }

  lemma {:induction false} FirstIsARow<V>(rows: seq<Interval<V>>, t: int)
    ensures First(rows, t).Some? ==> First(rows, t).value in rows
    decreases |rows|
  {
    if rows != [] { FirstIsARow(rows[..|rows| - 1], t); }
  }

  lemma {:induction false} FirstOfSort<V>(rows: seq<Interval<V>>, t: int)
    ensures First(StableSort(rows), t) == if Pick(rows, t).Some? then Some(rows[Pick(rows, t).value]) else None
    decreases |rows|
  {
    if rows != [] {
      var init := rows[..|rows| - 1];
      FirstOfSort(init, t);
      StableSortSorts(init);
      FirstAfterInsert(StableSort(init), rows[|rows| - 1], t);
    }
  }

  /** A read at `t` finds the row of the `i`-th put: of those that cover `t` it starts earliest, and was put first. */
  ghost predicate ReadsPut<V>(puts: seq<Entry<V>>, i: nat, t: int) {
    Earliest(Expected(puts), i, t)
  }

  /** For every sequence of puts, a read gives the value of the earliest-starting row that covers the time. */
  lemma {:induction false} ReadIsEarliest<V>(puts: seq<Entry<V>>, t: int, v: V)
    ensures At(Replay(puts), t) == Some(v)
            <==> exists i :: 0 <= i < |puts| && ReadsPut(puts, i, t) && puts[i].value == v
    ensures At(Replay(puts), t).None? <==> forall i :: 0 <= i < |puts| ==> !ReadsPut(puts, i, t)
  {
    ReplayRows(puts);
    AtIsFirst(Replay(puts), t);
    FirstOfSort(Expected(puts), t);
    PickIsEarliest(Expected(puts), t);
    var p := Pick(Expected(puts), t);
    if p.Some? { assert ReadsPut(puts, p.value, t) && RowOf(puts, p.value) == Expected(puts)[p.value]; }
  }

  /** The last put, in put order, that starts at or before `t`. */
  ghost predicate LastBy<V>(puts: seq<Entry<V>>, i: nat, t: int) {
    i < |puts| && puts[i].from <= t && forall j :: i < j < |puts| ==> t < puts[j].from
  }

  /** Every earlier put that starts no later than put `i` was superseded by a put at or before `t`. */
  ghost predicate Superseded<V>(puts: seq<Entry<V>>, i: nat, t: int)
    requires i < |puts|
  {
    forall k :: 0 <= k < i && puts[k].from <= puts[i].from ==>
      NextNotEarlier(puts, k + 1, puts[k].from).Some? && NextNotEarlier(puts, k + 1, puts[k].from).value <= t
  }

  /** A row covers `t` unless it starts later or was superseded by then. */
  lemma {:induction false} CoversUnlessSuperseded<V>(puts: seq<Entry<V>>, k: nat, t: int)
    requires k < |puts| && puts[k].from <= t
    ensures Covers(Expected(puts)[k], t) <==>
      !(NextNotEarlier(puts, k + 1, puts[k].from).Some? && NextNotEarlier(puts, k + 1, puts[k].from).value <= t)
  {
  }

  lemma {:induction false} LastIsEarliest<V>(puts: seq<Entry<V>>, i: nat, t: int)
    requires LastBy(puts, i, t)
    ensures ReadsPut(puts, i, t) <==> forall k :: 0 <= k < i && puts[k].from <= puts[i].from ==>
        !Covers(Expected(puts)[k], t)
  {
    NextIsLater(puts, i + 1, puts[i].from, t);
    assert Covers(Expected(puts)[i], t);
  }

  /** A read finds the last put at or before the time exactly when every earlier put below it was superseded by then. */
  lemma {:induction false} ReadsLastExactly<V>(puts: seq<Entry<V>>, i: nat, t: int)
    requires LastBy(puts, i, t)
    ensures ReadsPut(puts, i, t) <==> Superseded(puts, i, t)
    ensures Superseded(puts, i, t) ==> At(Replay(puts), t) == Some(puts[i].value)
  {
    LastIsEarliest(puts, i, t);
    forall k | 0 <= k < i && puts[k].from <= puts[i].from
      ensures Covers(Expected(puts)[k], t) <==>
        !(NextNotEarlier(puts, k + 1, puts[k].from).Some? && NextNotEarlier(puts, k + 1, puts[k].from).value <= t)
    {
      CoversUnlessSuperseded(puts, k, t);
    }
    ReadIsEarliest(puts, t, puts[i].value);
  }

  /** Of two puts only one can be the one that is read. */
  lemma {:induction false} ReadsOnePut<V>(puts: seq<Entry<V>>, i: nat, j: nat, t: int)
    requires ReadsPut(puts, i, t) && ReadsPut(puts, j, t)
    ensures i == j
  {
  }

  /**
  A correction dated back into a closed interval is not read there, although it is the last put by
  the time asked.
  */
  lemma {:induction false} BackdatedPutIsIgnored<V>(x: V, y: V, z: V)
    ensures
      var puts := [Entry(5, x, 0), Entry(20, y, 0), Entry(7, z, 0)];
      LastBy(puts, 2, 10) && !Superseded(puts, 2, 10) && At(Replay(puts), 10) == Some(x)
  {
    var puts := [Entry(5, x, 0), Entry(20, y, 0), Entry(7, z, 0)];
    assert NextNotEarlier(puts, 1, 5) == Some(20);
    assert ReadsPut(puts, 0, 10);
    ReadIsEarliest(puts, 10, x);
  }

  // ---------- when rows overlap ----------

  function Count<V>(rows: seq<Interval<V>>, p: Interval<V> -> bool): nat {
    if rows == [] then 0 else Count(rows[..|rows| - 1], p) + if p(rows[|rows| - 1]) then 1 else 0
  }

  lemma {:induction false} CountInsert<V>(rows: seq<Interval<V>>, r: Interval<V>, p: Interval<V> -> bool)
    ensures Count(Insert(rows, r), p) == Count(rows, p) + if p(r) then 1 else 0
    decreases |rows|
  {
    if rows == [] || rows[|rows| - 1].validFrom <= r.validFrom {
      assert (rows + [r])[..|rows|] == rows;
    } else {
      var init, last := rows[..|rows| - 1], rows[|rows| - 1];
      CountInsert(init, r, p);
      var inner := Insert(init, r);
      assert (inner + [last])[..|inner|] == inner;
    }
  }

  lemma {:induction false} CountSort<V>(rows: seq<Interval<V>>, p: Interval<V> -> bool)
    ensures Count(StableSort(rows), p) == Count(rows, p)
    decreases |rows|
  {
    if rows != [] {
      CountSort(rows[..|rows| - 1], p);
      CountInsert(StableSort(rows[..|rows| - 1]), rows[|rows| - 1], p);
    }
  }

  /** Two rows at different positions satisfy `p`. */
  ghost predicate Two<V>(rows: seq<Interval<V>>, p: Interval<V> -> bool) {
    exists i, j :: 0 <= i < j < |rows| && p(rows[i]) && p(rows[j])
  }

  lemma {:induction false} CountMeans<V>(rows: seq<Interval<V>>, p: Interval<V> -> bool)
    ensures Count(rows, p) >= 1 <==> exists i :: 0 <= i < |rows| && p(rows[i])
    ensures Count(rows, p) >= 2 <==> Two(rows, p)
    decreases |rows|
  {
    if rows != [] {
      var init, last := rows[..|rows| - 1], |rows| - 1;
      CountMeans(init, p);
      if Count(init, p) >= 1 {
        var i :| 0 <= i < |init| && p(init[i]);
        assert p(rows[i]);
        if p(rows[last]) { assert Two(rows, p); }
      }
      if Two(init, p) {
        var i, j :| 0 <= i < j < |init| && p(init[i]) && p(init[j]);
        assert p(rows[i]) && p(rows[j]);
      }
      if Two(rows, p) {
        var i, j :| 0 <= i < j < |rows| && p(rows[i]) && p(rows[j]);
        assert p(init[i]);
        if j < last { assert p(init[j]); }
      }
    }
  }

  function Covering<V>(t: int): Interval<V> -> bool {
    r => Covers(r, t)
  }

  function Open<V>(): Interval<V> -> bool {
    (r: Interval<V>) => r.validTo.None?
  }

  /** No time is covered by two rows. */
  ghost predicate Disjoint<V>(rows: seq<Interval<V>>) {
    forall i, j, t :: 0 <= i < j < |rows| ==> !(Covers(rows[i], t) && Covers(rows[j], t))
  }

  lemma {:induction false} DisjointInPutOrder<V>(puts: seq<Entry<V>>)
    ensures Disjoint(Replay(puts)) <==> Disjoint(Expected(puts))
  {
    ReplayRows(puts);
    DisjointCounts(Replay(puts));
    DisjointCounts(Expected(puts));
    forall t: int
      ensures Count(Replay(puts), Covering(t)) == Count(Expected(puts), Covering(t))
    {
      CountSort(Expected(puts), Covering(t));
    }
  }

  lemma {:induction false} DisjointCounts<V>(rows: seq<Interval<V>>)
    ensures Disjoint(rows) <==> forall t: int :: Count(rows, Covering(t)) <= 1
  {
    forall t: int
      ensures Count(rows, Covering(t)) <= 1 <==> !Two(rows, Covering(t))
    {
      CountMeans(rows, Covering(t));
    }
    if Disjoint(rows) {
      forall t: int
        ensures !Two(rows, Covering(t))
      {
      }
    }
    if forall t: int :: Count(rows, Covering(t)) <= 1 {
      forall i, j, t | 0 <= i < j < |rows| && Covers(rows[i], t)
        ensures !Covers(rows[j], t)
      {
        assert !Two(rows, Covering(t));
        assert Covering(t)(rows[i]);
        assert Covering(t)(rows[j]) == Covers(rows[j], t);
      }
    }
  }

  /** No put starts strictly later than both a put before it and a put after it. */
  ghost predicate NoPeak<V>(puts: seq<Entry<V>>) {
    forall i, m, k :: 0 <= i < m < k < |puts| ==> puts[m].from <= puts[i].from || puts[m].from <= puts[k].from
  }

  /** Whenever a later put starts earlier than this one, a still later put starts exactly where this one does. */
  ghost predicate DescentsReturn<V>(puts: seq<Entry<V>>) {
    forall i, k :: 0 <= i < k < |puts| && puts[k].from < puts[i].from ==> Returns(puts, i, k)
  }

  ghost predicate Returns<V>(puts: seq<Entry<V>>, i: nat, k: nat)
    requires i < |puts|
  {
    exists m :: k < m < |puts| && puts[m].from == puts[i].from
  }

  /** Which put ends a row. */
  lemma {:induction false} NextPut<V>(puts: seq<Entry<V>>, i: nat, v: int) returns (p: nat)
    requires i <= |puts|
    ensures i <= p <= |puts| && forall j :: i <= j < p ==> puts[j].from < v
    ensures NextNotEarlier(puts, i, v) == if p < |puts| then Some(puts[p].from) else None
    ensures p < |puts| ==> v <= puts[p].from
    decreases |puts| - i
  {
    if i == |puts| || v <= puts[i].from {
      p := i;
    } else {
      p := NextPut(puts, i + 1, v);
    }
  }

  lemma {:induction false} RepairedIsDisjoint<V>(puts: seq<Entry<V>>, i: nat, k: nat, t: int)
    requires NoPeak(puts) && DescentsReturn(puts) && i < k < |puts|
    ensures !(Covers(RowOf(puts, i), t) && Covers(RowOf(puts, k), t))
  {
    if puts[i].from <= t && puts[k].from <= t {
      if puts[k].from < puts[i].from {
        assert Returns(puts, i, k);
        var m :| k < m < |puts| && puts[m].from == puts[i].from;
        EndsBy(puts, i, m, t);
      } else {
        EndsBy(puts, i, k, t);
      }
    }
  }

  /** Where nothing peaks, a row has ended by any later put that starts no earlier than it. */
  lemma {:induction false} EndsBy<V>(puts: seq<Entry<V>>, i: nat, m: nat, t: int)
    requires NoPeak(puts) && i < m < |puts| && puts[i].from <= puts[m].from <= t
    ensures !Covers(RowOf(puts, i), t)
  {
    var p := NextPut(puts, i + 1, puts[i].from);
    assert p == m || puts[p].from <= puts[i].from || puts[p].from <= puts[m].from;
  }

  /** A put that no put up to the next one after `t` equals or passes covers `t`. */
  lemma {:induction false} CoversUntil<V>(puts: seq<Entry<V>>, i: nat, e: nat, t: int)
    requires i < e <= |puts| && puts[i].from <= t && (e < |puts| ==> t < puts[e].from)
    requires forall j :: i < j < e ==> puts[j].from < puts[i].from
    ensures Covers(RowOf(puts, i), t)
  {
    var p := NextPut(puts, i + 1, puts[i].from);
  }

  /** The last position before `e` whose put starts at or before `t`, counting from `i`. */
  lemma {:induction false} LastLow<V>(puts: seq<Entry<V>>, i: nat, t: int) returns (b: nat)
    requires i < |puts| && puts[i].from <= t
    ensures i <= b < |puts| && LastBy(puts, b, t)
    decreases |puts| - i
  {
    b := LastAtOrBefore(puts, t);
  }

  /** The first position after `i` whose put starts after `t`. */
  lemma {:induction false} FirstHigh<V>(puts: seq<Entry<V>>, i: nat, m: nat, t: int) returns (e: nat)
    requires i < m < |puts| && t < puts[m].from
    ensures i < e <= m && t < puts[e].from && forall j :: i < j < e ==> puts[j].from <= t
    decreases m
  {
    if j :| i < j < m && t < puts[j].from {
      e := FirstHigh(puts, i, j, t);
    } else {
      e := m;
    }
  }

  lemma {:induction false} PeakOverlaps<V>(puts: seq<Entry<V>>, i: nat, m: nat, k: nat)
    requires i < m < k < |puts| && puts[i].from < puts[m].from && puts[k].from < puts[m].from
    ensures !Disjoint(Expected(puts))
  {
    var t := if puts[i].from <= puts[k].from then puts[k].from else puts[i].from;
    var e := FirstHigh(puts, i, m, t);
    assert puts[e - 1].from <= t;
    CoversUntil(puts, e - 1, e, t);
    var b := LastLow(puts, k, t);
    CoversUntil(puts, b, b + 1, t);
    assert Covers(Expected(puts)[e - 1], t) && Covers(Expected(puts)[b], t);
  }

  /** The last position up to `b` that holds a put starting at `v`. */
  lemma {:induction false} LastEqual<V>(puts: seq<Entry<V>>, i: nat, b: nat, v: int) returns (q: nat)
    requires i <= b < |puts| && puts[i].from == v
    ensures i <= q <= b && puts[q].from == v && forall j :: q < j <= b ==> puts[j].from != v
    decreases b
  {
    if puts[b].from == v {
      q := b;
    } else {
      q := LastEqual(puts, i, b - 1, v);
    }
  }

  lemma {:induction false} UnreturnedOverlaps<V>(puts: seq<Entry<V>>, i: nat, k: nat)
    requires i < k < |puts| && puts[k].from < puts[i].from && !Returns(puts, i, k)
    requires NoPeak(puts)
    ensures !Disjoint(Expected(puts))
  {
    var t := puts[i].from;
    var b := LastLow(puts, k, t);
    CoversUntil(puts, b, b + 1, t);
    var q := LastEqual(puts, i, b, t);
    forall j | q < j <= b
      ensures puts[j].from < t
    {
      assert j == b || puts[j].from <= puts[q].from || puts[j].from <= puts[b].from;
    }
    CoversUntil(puts, q, b + 1, t);
    assert Covers(Expected(puts)[q], t) && Covers(Expected(puts)[b], t);
  }

  /** The rows of any puts are pairwise disjoint exactly when the puts have no peak and return from every descent. */
  lemma {:induction false} DisjointExactly<V>(puts: seq<Entry<V>>)
    ensures Disjoint(Replay(puts)) <==> NoPeak(puts) && DescentsReturn(puts)
  {
    DisjointInPutOrder(puts);
    if NoPeak(puts) && DescentsReturn(puts) {
      forall i, k, t | 0 <= i < k < |puts|
        ensures !(Covers(Expected(puts)[i], t) && Covers(Expected(puts)[k], t))
      {
        RepairedIsDisjoint(puts, i, k, t);
      }
    } else if !NoPeak(puts) {
      var i, m, k :| 0 <= i < m < k < |puts| && puts[i].from < puts[m].from && puts[k].from < puts[m].from;
      PeakOverlaps(puts, i, m, k);
    } else {
      var i, k :| 0 <= i < k < |puts| && puts[k].from < puts[i].from && !Returns(puts, i, k);
      UnreturnedOverlaps(puts, i, k);
    }
  }

  /** Exactly one row is open if and only if the last put starts no earlier than any other. */
  lemma {:induction false} OneOpenRow<V>(puts: seq<Entry<V>>)
    requires puts != []
    ensures Count(Replay(puts), Open()) == 1 <==> forall i :: 0 <= i < |puts| ==> puts[i].from <= puts[|puts| - 1].from
  {
    var rows, last := Expected(puts), |puts| - 1;
    ReplayRows(puts);
    CountSort(rows, Open());
    CountMeans(rows, Open());
    assert Open()(rows[last]);
    if i :| 0 <= i < |puts| && puts[last].from < puts[i].from {
      OlderStaysOpen(puts, i);
    } else {
      forall i | 0 <= i < last
        ensures !Open()(rows[i])
      {
        ClosedByLast(puts, i);
      }
    }
  }

  lemma {:induction false} ClosedByLast<V>(puts: seq<Entry<V>>, i: nat)
    requires i < |puts| - 1 && puts[i].from <= puts[|puts| - 1].from
    ensures RowOf(puts, i).validTo.Some?
  {
    var p := NextPut(puts, i + 1, puts[i].from);
  }

  lemma {:induction false} OlderStaysOpen<V>(puts: seq<Entry<V>>, i: nat)
    requires i < |puts| && puts[|puts| - 1].from < puts[i].from
    ensures Two(Expected(puts), Open())
  {
    var q := LastHighest(puts, i);
    var rows, last := Expected(puts), |puts| - 1;
    assert q < last && Open()(rows[q]) && Open()(rows[last]);
  }

  /** A put after which nothing starts as late. */
  lemma {:induction false} LastHighest<V>(puts: seq<Entry<V>>, i: nat) returns (q: nat)
    requires i < |puts|
    ensures i <= q < |puts| && puts[i].from <= puts[q].from && RowOf(puts, q).validTo.None?
    decreases |puts| - i
  {
    var p := NextPut(puts, i + 1, puts[i].from);
    if p < |puts| {
      q := LastHighest(puts, p);
    } else {
      q := i;
    }
  }

  /** A put dated before the one already there leaves two open rows, both covering the later start. */
  lemma {:induction false} EarlierPutOverlaps<V>(x: V, y: V)
    ensures
      var rows := Replay([Entry(10, x, 0), Entry(5, y, 0)]);
      && rows == [Interval(5, None, y, 0), Interval(10, None, x, 0)]
      && Covers(rows[0], 10) && Covers(rows[1], 10)
  {
    var puts := [Entry(10, x, 0), Entry(5, y, 0)];
    var late, early := Interval(10, None, x, 0), Interval(5, None, y, 0);
    assert puts[..1] == [Entry(10, x, 0)] && puts[..1][..0] == [];
    assert Replay(puts[..1]) == [late];
    assert Close([late], 5) == [late] && [late][..0] == [];
    assert Insert([late], early) == Insert([], early) + [late];
  }

  /** Returning is not enough: puts at 5, 10, 6, 10 descend only from an empty row, and still overlap at 7. */
  lemma {:induction false} PeakOverEmptyRow<V>(w: V, x: V, y: V, z: V)
    ensures
      var puts := [Entry(5, w, 0), Entry(10, x, 0), Entry(6, y, 0), Entry(10, z, 0)];
      && DescentsReturn(puts) && RowOf(puts, 1).validTo == Some(10)
      && Covers(RowOf(puts, 0), 7) && Covers(RowOf(puts, 2), 7) && !Disjoint(Replay(puts))
  {
    var puts := [Entry(5, w, 0), Entry(10, x, 0), Entry(6, y, 0), Entry(10, z, 0)];
    assert NextNotEarlier(puts, 1, 5) == Some(10) && NextNotEarlier(puts, 3, 6) == Some(10)
        && NextNotEarlier(puts, 3, 10) == Some(10);
    forall i, k | 0 <= i < k < |puts| && puts[k].from < puts[i].from
      ensures Returns(puts, i, k)
    {
      assert puts[3].from == puts[i].from;
    }
    PeakOverlaps(puts, 0, 1, 2);
    DisjointInPutOrder(puts);
  }

  // ---------- in-order runs ----------

  ghost predicate InOrder<V>(puts: seq<Entry<V>>) {
    forall i, j :: 0 <= i < j < |puts| ==> puts[i].from <= puts[j].from
  }

  lemma {:induction false} SortedStays<V>(rows: seq<Interval<V>>)
    requires Sorted(rows)
    ensures StableSort(rows) == rows
    decreases |rows|
  {
    if rows != [] {
      var init := rows[..|rows| - 1];
      SortedStays(init);
      assert rows == init + [rows[|rows| - 1]];
    }
  }

  /** Puts in time order leave back-to-back rows, in order: each ends where the next begins, the last is open. */
  lemma {:induction false} InOrderRows<V>(puts: seq<Entry<V>>)
    requires InOrder(puts)
    ensures Replay(puts) == Expected(puts)
    ensures forall i :: 0 <= i < |puts| ==>
      Replay(puts)[i].validTo == if i + 1 < |puts| then Some(Replay(puts)[i + 1].validFrom) else None
  {
    ReplayRows(puts);
    var rows := Expected(puts);
    forall i | 0 <= i < |puts|
      ensures rows[i].validFrom == puts[i].from
      ensures rows[i].validTo == if i + 1 < |puts| then Some(puts[i + 1].from) else None
    {
      NextInOrder(puts, i);
    }
    SortedStays(rows);
  }

  lemma {:induction false} NextInOrder<V>(puts: seq<Entry<V>>, i: nat)
    requires InOrder(puts) && i < |puts|
    ensures NextNotEarlier(puts, i + 1, puts[i].from) == if i + 1 < |puts| then Some(puts[i + 1].from) else None
  {
  }

  /** So no two rows cover one time. */
  lemma {:induction false} InOrderDisjoint<V>(puts: seq<Entry<V>>, i: nat, j: nat, t: int)
    requires InOrder(puts) && i < j < |puts|
    ensures |Replay(puts)| == |puts| && !(Covers(Replay(puts)[i], t) && Covers(Replay(puts)[j], t))
  {
    InOrderRows(puts);
    DisjointExactly(puts);
  }

  /** And a read finds the last put at or before the time. */
  lemma {:induction false} InOrderReadsLast<V>(puts: seq<Entry<V>>, i: nat, t: int)
    requires InOrder(puts) && i < |puts| && puts[i].from <= t
    requires forall j :: i < j < |puts| ==> t < puts[j].from
    ensures At(Replay(puts), t) == Some(puts[i].value)
  {
    forall k | 0 <= k < i && puts[k].from <= puts[i].from
      ensures NextNotEarlier(puts, k + 1, puts[k].from).Some? && NextNotEarlier(puts, k + 1, puts[k].from).value <= t
    {
      NextInOrder(puts, k);
      assert puts[k + 1].from <= puts[i].from;
    }
    ReadsLastExactly(puts, i, t);
  }
}
