/**
Reading findings in pages (app/services/assessment.py, `list_findings`, `iter_findings`).

The table is a sequence of rows; a statement may return its rows in any order that its ORDER
BY clause permits, and may choose a different one each time it is executed.
*/
module FindingPages {
  import opened PyValue
  import CelMeaning

  datatype Finding = Finding(id: string, tenant: string, control: string, created: int)

  const MAX_PAGE := 500

  function Clamp(n: int): (r: nat)
    ensures 1 <= r <= MAX_PAGE
  {
    if n < 1 then 1 else if n > MAX_PAGE then MAX_PAGE else n
  }

  // ---------- what a statement may return ----------

  /** Newest first, and then by id. */
  predicate Before(a: Finding, b: Finding) {
    a.created > b.created || (a.created == b.created && StrOrder(a.id, b.id) <= 0)
  }

  predicate Wanted(f: Finding, tenant: string, control: string) {
    f.tenant == tenant && (control != "" ==> f.control == control)
  }

  function Filter(rows: seq<Finding>, tenant: string, control: string): seq<Finding> {
    if rows == [] then []
    else (if Wanted(rows[0], tenant, control) then [rows[0]] else []) + Filter(rows[1..], tenant, control)
  }

  /** No two rows share their primary key. */
  ghost predicate UniqueIds(rows: seq<Finding>) {
    forall i, j :: 0 <= i < j < |rows| ==> rows[i].id != rows[j].id
  }

  ghost predicate InOrder(s: seq<Finding>) {
    forall i, j :: 0 <= i < j < |s| ==> Before(s[i], s[j])
  }

  /** `s` is a permitted answer to the query without its limit and offset. */
  ghost predicate Answers(s: seq<Finding>, rows: seq<Finding>, tenant: string, control: string) {
    InOrder(s) && multiset(s) == multiset(Filter(rows, tenant, control))
  }

  // ---------- the order leaves the database no choice ----------

  /** A selected row is a row of the table. */
  lemma {:induction false} FilterSelects(rows: seq<Finding>, tenant: string, control: string, f: Finding)
    ensures f in Filter(rows, tenant, control) <==> f in rows && Wanted(f, tenant, control)
  {
    if rows != [] { FilterSelects(rows[1..], tenant, control, f); }
  }

  /** Rows are determined by their ids. */
  ghost predicate Keyed(m: multiset<Finding>) {
    forall a, b :: a in m && b in m && a.id == b.id ==> a == b
  }

  lemma {:induction false} FilterKeyed(rows: seq<Finding>, tenant: string, control: string)
    requires UniqueIds(rows)
    ensures Keyed(multiset(Filter(rows, tenant, control)))
  {
    forall a, b | a in multiset(Filter(rows, tenant, control)) && b in multiset(Filter(rows, tenant, control))
        && a.id == b.id
      ensures a == b
    {
      FilterSelects(rows, tenant, control, a);
      FilterSelects(rows, tenant, control, b);
      SameId(rows, a, b);
    }
  }

  lemma {:induction false} SameId(rows: seq<Finding>, a: Finding, b: Finding)
    requires UniqueIds(rows) && a in rows && b in rows && a.id == b.id
    ensures a == b
  {
  }

  lemma {:induction false} FirstIsLeast(s: seq<Finding>, f: Finding)
    requires InOrder(s) && f in s
    ensures f == s[0] || Before(s[0], f)
  {
  }

  lemma {:induction false} SameFirst(a: seq<Finding>, b: seq<Finding>)
    requires InOrder(a) && InOrder(b) && a != [] && b != [] && a[0] in b && b[0] in a
    requires a[0].id == b[0].id ==> a[0] == b[0]
    ensures a[0] == b[0]
  {
    FirstIsLeast(a, b[0]);
    FirstIsLeast(b, a[0]);
    OrderFlips(a[0].id, b[0].id);
  }

  lemma {:induction false} Rest(a: seq<Finding>)
    requires a != []
    ensures multiset(a) == multiset{a[0]} + multiset(a[1..]) && a == [a[0]] + a[1..]
    ensures InOrder(a) ==> InOrder(a[1..])
  {
    assert a == [a[0]] + a[1..];
  }

  lemma {:induction false} SameRest(a: seq<Finding>, b: seq<Finding>)
    requires a != [] && b != [] && a[0] == b[0] && multiset(a) == multiset(b)
    ensures multiset(a[1..]) == multiset(b[1..])
  {
    Rest(a);
    Rest(b);
    assert multiset(a[1..]) == multiset(a) - multiset{a[0]};
    assert multiset(b[1..]) == multiset(b) - multiset{b[0]};
  }

  lemma {:induction false} SameRows(a: seq<Finding>, b: seq<Finding>)
    requires a != [] && multiset(a) == multiset(b)
    ensures b != [] && a[0] in b && b[0] in a
  {
    assert a[0] in multiset(b);
    assert b[0] in multiset(b);
  }

  lemma {:induction false} SortedUnique(a: seq<Finding>, b: seq<Finding>, all: multiset<Finding>)
    requires InOrder(a) && InOrder(b) && multiset(a) == multiset(b) && multiset(a) <= all && Keyed(all)
    ensures a == b
  {
    if a == [] {
      assert b == [] by { if b != [] { SameRows(b, a); } }
    } else {
      SameRows(a, b);
      assert a[0] in multiset(a) && b[0] in multiset(a);
      SameFirst(a, b);
      SameRest(a, b);
      Rest(a);
      Rest(b);
      SortedUnique(a[1..], b[1..], all);
    }
  }

  /** Two executions of the same query over the same table range over the same sequence. */
  lemma {:induction false} AnswerIsUnique(s: seq<Finding>,
      t: seq<Finding>, rows: seq<Finding>, tenant: string, control: string)
    requires UniqueIds(rows) && Answers(s, rows, tenant, control) && Answers(t, rows, tenant, control)
    ensures s == t
  {
    FilterKeyed(rows, tenant, control);
    SortedUnique(s, t, multiset(s));
  }

  lemma {:induction false} FilterOnce(rows: seq<Finding>, tenant: string, control: string, f: Finding)
    requires UniqueIds(rows)
    ensures multiset(Filter(rows, tenant, control))[f] == if f in rows && Wanted(f, tenant, control) then 1 else 0
  {
    if rows != [] {
      FilterOnce(rows[1..], tenant, control, f);
      if f in rows[1..] { assert f.id != rows[0].id; }
    }
  }

  /** An answer holds each wanted row exactly once and nothing else. */
  lemma {:induction false} AnswerIsComplete(s: seq<Finding>,
      rows: seq<Finding>, tenant: string, control: string, f: Finding)
    requires UniqueIds(rows) && Answers(s, rows, tenant, control)
    ensures multiset(s)[f] == if f in rows && Wanted(f, tenant, control) then 1 else 0
  {
    FilterOnce(rows, tenant, control, f);
  }

  // ---------- the two operations ----------

  /** The rows from `offset` on, at most `limit` of them. */
  function Slice(s: seq<Finding>, limit: nat, offset: nat): seq<Finding> {
    if offset >= |s| then [] else if limit <= |s| - offset then s[offset..offset + limit] else s[offset..]
  }

  /** One page of what the statement ranges over. */
  function ListFindings(selected: seq<Finding>, limit: int, offset: int): (page: seq<Finding>)
    ensures |page| <= MAX_PAGE
    ensures forall i :: 0 <= i < |page| ==> 0 <= Max0(offset) + i < |selected| && page[i] == selected[Max0(offset) + i]
    ensures |page| < Clamp(limit) ==> Max0(offset) + |page| >= |selected|
  {
    Slice(selected, Clamp(limit), Max0(offset))
  }

  function Max0(n: int): nat {
    if n < 0 then 0 else n
  }

  lemma {:induction false} PageExtends(all: seq<Finding>, stride: nat, offset: nat)
    requires 1 <= stride <= MAX_PAGE && offset <= |all|
    ensures
      var page := ListFindings(all, stride, offset);
      && offset + |page| <= |all| && all[..offset] + page == all[..offset + |page|]
      && (|page| < stride ==> offset + |page| == |all|)
      && |page| <= stride
  {
  }

  /**
  Every wanted finding once, in order, whatever the batch size asked for, and whichever
  permitted order each of the statements happens to use.
  */
  method IterFindings(rows: seq<Finding>, tenant: string, control: string, batch: int, query: nat -> seq<Finding>)
    returns (yielded: seq<Finding>)
    requires UniqueIds(rows) && forall n :: Answers(query(n), rows, tenant, control)
    ensures NewestFirst(yielded) && TiesById(yielded)
    ensures forall f :: multiset(yielded)[f] ==
                          if f in rows && f.tenant == tenant && (control == "" || f.control == control) then 1 else 0
  {
    var stride := Clamp(batch);
    var offset := 0;
    var statement := 0;
    yielded := [];
    ghost var all := query(0);
    while true
      invariant offset <= |all| && yielded == all[..offset]
      decreases |all| - offset
    {
      AnswerIsUnique(query(statement), all, rows, tenant, control);
      PageExtends(all, stride, offset);
      var page := ListFindings(query(statement), stride, offset);
      if page == [] {
        break;
      }
      yielded := yielded + page;
      if |page| < stride {
        break;
      }
      statement := statement + 1;
      offset := offset + stride;
    }
    assert yielded == all;
    OrderMeans(all);
    forall f
      ensures multiset(yielded)[f] == if f in rows && Wanted(f, tenant, control) then 1 else 0
    {
      AnswerIsComplete(all, rows, tenant, control, f);
    }
  }

  /** Sorting by time alone would permit two statements whose pages repeat one row and lose another. */
  lemma {:induction false} TieBreakIsNeeded(x: Finding, y: Finding)
    requires x.created == y.created && x.id != y.id
    ensures NewestFirst([x, y]) && NewestFirst([y, x]) && multiset([x, y]) == multiset([y, x])
    ensures ListFindings([x, y], 1, 0) + ListFindings([y, x], 1, 1) == [x, x]
    ensures !(InOrder([x, y]) && InOrder([y, x]))
  {
    var s, t := [x, y], [y, x];
    assert s[0] == x && s[1] == y && t[0] == y && t[1] == x;
    OrderFlips(x.id, y.id);
  }

  ghost predicate NewestFirst(s: seq<Finding>) {
    forall i, j :: 0 <= i < j < |s| ==> s[i].created >= s[j].created
  }

  /** Findings of one time are in the order of their ids, which is decided by the first character that differs. */
  ghost predicate TiesById(s: seq<Finding>) {
    forall i, j :: 0 <= i < j < |s| && s[i].created == s[j].created ==> !CelMeaning.Precedes(s[j].id, s[i].id)
  }

  lemma {:induction false} OrderMeans(s: seq<Finding>)
    requires InOrder(s)
    ensures NewestFirst(s) && TiesById(s)
  {
    forall i, j | 0 <= i < j < |s| && s[i].created == s[j].created
      ensures !CelMeaning.Precedes(s[j].id, s[i].id)
    {
      assert Before(s[i], s[j]);
      CelMeaning.OrderIsFirstDifference(s[j].id, s[i].id);
      OrderFlips(s[i].id, s[j].id);
    }
  }

  /** A page has as many rows as were asked for, within 1 and 500, unless the answer ends first. */
  lemma {:induction false} PageIsFull(selected: seq<Finding>, limit: int, offset: int)
    ensures
      var asked := if limit < 1 then 1 else if limit > 500 then 500 else limit;
      var from := if offset < 0 then 0 else offset;
      var page := ListFindings(selected, limit, offset);
      && (from >= |selected| ==> page == [])
      && (from < |selected| < from + asked ==> page == selected[from..])
      && (from + asked <= |selected| ==> page == selected[from..from + asked])
  {
  }
}
