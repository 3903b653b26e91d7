/**
Following a paged collection to its end (app/connectors/http_client.py, `get_all_pages`).

`fetch(n, url)` is what the n-th fetch of the call gets for `url`, so the server may answer
differently each time and the caller's parameters, sent with the first fetch only, are part
of it. `late(n)` says whether the deadline has passed when the n-th fetch is about to start.
*/
module Pagination {
  import opened Common

  type Url = string

  datatype Reply<+Item> = SendFailed | NotJson | NotList | Page(items: seq<Item>, next: Option<Url>)

  datatype Error = Late | Loop(url: Url) | BadPage(number: nat) | TooManyPages

  /** The URL the n-th fetch is for; None past the end of the chain or past a failed fetch. */
  function UrlAt<Item>(fetch: (nat, Url) -> Reply<Item>, url: Url, n: nat): Option<Url> {
    if n == 0 then Some(url)
    else
      var before := UrlAt(fetch, url, n - 1);
      if before.Some? && fetch(n - 1, before.value).Page? then fetch(n - 1, before.value).next else None
  }

  /** The n-th fetch happens and gets a page. */
  predicate GoodAt<Item>(fetch: (nat, Url) -> Reply<Item>, url: Url, n: nat) {
    var u := UrlAt(fetch, url, n);
    u.Some? && fetch(n, u.value).Page?
  }

  /** The chain of next links from `url` has exactly `n` pages. */
  ghost predicate Whole<Item>(fetch: (nat, Url) -> Reply<Item>, url: Url, n: nat) {
    (forall k :: 0 <= k < n ==> GoodAt(fetch, url, k)) && UrlAt(fetch, url, n).None?
  }

  ghost predicate Distinct<Item>(fetch: (nat, Url) -> Reply<Item>, url: Url, n: nat) {
    forall j, k :: 0 <= j < k < n ==> UrlAt(fetch, url, j) != UrlAt(fetch, url, k)
  }

  ghost predicate InTime(late: nat -> bool, n: nat) {
    forall k :: 0 <= k < n ==> !late(k)
  }

  /** The items of the first `n` pages of the chain, in order. */
  function Items<Item>(fetch: (nat, Url) -> Reply<Item>, url: Url, n: nat): seq<Item> {
    if n == 0 then []
    else Items(fetch, url, n - 1) + if GoodAt(fetch, url, n - 1) then
        fetch(n - 1, UrlAt(fetch, url, n - 1).value).items else []
  }

  /** The chain is whole after `n` pages, and the stops do not apply to it. */
  ghost predicate Collectable<Item>(fetch: (nat, Url) -> Reply<Item>, late: nat -> bool, url: Url, maxPages: int,
      n: nat) {
    n < maxPages && Whole(fetch, url, n) && Distinct(fetch, url, n) && InTime(late, n)
  }

  ghost predicate Succeeds<Item>(fetch: (nat, Url) -> Reply<Item>, late: nat -> bool, url: Url, maxPages: int) {
    exists n: nat :: Collectable(fetch, late, url, maxPages, n)
  }

  /** The URLs in `fetched` are the first of the chain, all got pages, and no stop applied to them. */
  ghost predicate Progress<Item>(fetch: (nat, Url) -> Reply<Item>, late: nat -> bool, url: Url, fetched: seq<Url>) {
    && (forall k :: 0 <= k < |fetched| ==> UrlAt(fetch, url, k) == Some(fetched[k]))
    && (forall k :: 0 <= k < |fetched| ==> GoodAt(fetch, url, k))
    && (forall j, k :: 0 <= j < k < |fetched| ==> fetched[j] != fetched[k])
    && InTime(late, |fetched|)
  }

  lemma {:induction false} NotBefore<Item>(fetch: (nat, Url) -> Reply<Item>, url: Url, n: nat, m: nat)
    requires (forall k :: 0 <= k < n ==> GoodAt(fetch, url, k)) && UrlAt(fetch, url, m).None?
    ensures n <= m
  {
    assert m < n ==> GoodAt(fetch, url, m);
  }

  /** A chain with an end is collectable only if each of its fetches can go ahead. */
  lemma {:induction false} StopsAreFinal<Item>(fetch: (nat, Url) -> Reply<Item>, late: nat -> bool, url: Url,
      maxPages: int,
                                               fetched: seq<Url>)
    requires Progress(fetch, late, url, fetched) && Succeeds(fetch, late, url, maxPages)
    ensures |fetched| < maxPages
    ensures UrlAt(fetch, url, |fetched|).Some? ==>
      !late(|fetched|) && UrlAt(fetch, url, |fetched|).value !in fetched && GoodAt(fetch, url, |fetched|)
  {
    var n := |fetched|;
    var m: nat :| Collectable(fetch, late, url, maxPages, m);
    NotBefore(fetch, url, n, m);
  }

  lemma {:induction false} WholeIsCollectable<Item>(fetch: (nat, Url) -> Reply<Item>, late: nat -> bool, url: Url,
      maxPages: int,
                                                    fetched: seq<Url>)
    requires Progress(fetch, late, url, fetched) && UrlAt(fetch, url, |fetched|).None? && |fetched| < maxPages
    ensures Collectable(fetch, late, url, maxPages, |fetched|)
  {
    forall j, k | 0 <= j < k < |fetched|
      ensures UrlAt(fetch, url, j) != UrlAt(fetch, url, k)
    {
      assert fetched[j] != fetched[k];
    }
  }

  lemma {:induction false} NextFetch<Item>(fetch: (nat, Url) -> Reply<Item>, late: nat -> bool, url: Url,
      fetched: seq<Url>, u: Url)
    requires Progress(fetch, late, url, fetched) && UrlAt(fetch, url, |fetched|) == Some(u)
    requires !late(|fetched|) && u !in fetched && fetch(|fetched|, u).Page?
    ensures Progress(fetch, late, url, fetched + [u])
    ensures UrlAt(fetch, url, |fetched| + 1) == fetch(|fetched|, u).next
    ensures Items(fetch, url, |fetched| + 1) == Items(fetch, url, |fetched|) + fetch(|fetched|, u).items
  {
  }

  /**
  It returns exactly when the chain can be collected within the stops, and then returns all of
  it; otherwise it raises. No URL is fetched twice.
  */
  method GetAllPages<Item>(fetch: (nat, Url) -> Reply<Item>, late: nat -> bool, url: Url, maxPages: int)
    returns (r: Result<seq<Item>, Error>, fetched: seq<Url>)
    ensures r.Ok? <==> Succeeds(fetch, late, url, maxPages)
    ensures r.Ok? ==> Collectable(fetch, late, url, maxPages, |fetched|) && r.value == Items(fetch, url, |fetched|)
    ensures forall j, k :: 0 <= j < k < |fetched| ==> fetched[j] != fetched[k]
    ensures forall k :: 0 <= k < |fetched| ==> UrlAt(fetch, url, k) == Some(fetched[k])
    ensures |fetched| <= if maxPages < 0 then 0 else maxPages
    ensures r == Err(Late) ==> late(|fetched|)
    ensures r.Err? && r.error.Loop? ==> r.error.url in fetched && UrlAt(fetch, url, |fetched|) == Some(r.error.url)
    ensures r.Err? && r.error.BadPage? ==> |fetched| == r.error.number + 1 && !GoodAt(fetch, url, r.error.number)
    ensures r == Err(TooManyPages) ==> |fetched| == if maxPages < 0 then 0 else maxPages
  {
    var out: seq<Item> := [];
    var seen: set<Url> := {};
    var next: Option<Url> := Some(url);
    fetched := [];
    while |fetched| < maxPages
      invariant |fetched| <= if maxPages < 0 then 0 else maxPages
      invariant Progress(fetch, late, url, fetched)
      invariant next == UrlAt(fetch, url, |fetched|)
      invariant out == Items(fetch, url, |fetched|)
      invariant forall u :: u in seen <==> u in fetched
      decreases maxPages - |fetched|
    {
      var n := |fetched|;
      if next.None? {
        WholeIsCollectable(fetch, late, url, maxPages, fetched);
        return Ok(out), fetched;
      }
      if Succeeds(fetch, late, url, maxPages) { StopsAreFinal(fetch, late, url, maxPages, fetched); }
      if late(n) {
        return Err(Late), fetched;
      }
      if next.value in seen {
        return Err(Loop(next.value)), fetched;
      }
      seen := seen + {next.value};
      var reply := fetch(n, next.value);
      if !reply.Page? {
        return Err(BadPage(n)), fetched + [next.value];
      }
      NextFetch(fetch, late, url, fetched, next.value);
      fetched := fetched + [next.value];
      out := out + reply.items;
      next := reply.next;
    }
    if Succeeds(fetch, late, url, maxPages) { StopsAreFinal(fetch, late, url, maxPages, fetched); }
    return Err(TooManyPages), fetched;
  }

  // ---------- a server that does not change its mind ----------

  /** The same URL gets the same answer at every fetch. */
  ghost predicate Steady<Item>(fetch: (nat, Url) -> Reply<Item>) {
    forall j, k, u :: fetch(j, u) == fetch(k, u)
  }

  lemma {:induction false} SteadyRepeats<Item>(fetch: (nat, Url) -> Reply<Item>, url: Url, i: nat, j: nat, m: nat)
    requires Steady(fetch) && UrlAt(fetch, url, i) == UrlAt(fetch, url, j)
    ensures UrlAt(fetch, url, i + m) == UrlAt(fetch, url, j + m)
  {
    if m > 0 { SteadyRepeats(fetch, url, i, j, m - 1); }
  }

  lemma {:induction false} Halfway<Item>(fetch: (nat, Url) -> Reply<Item>, url: Url, n: nat, k: nat)
    requires Whole(fetch, url, n) && k < n
    ensures UrlAt(fetch, url, k).Some?
  {
    assert GoodAt(fetch, url, k);
  }

  /** A chain that ends does not visit a URL twice. */
  lemma {:induction false} EndingChainIsAcyclic<Item>(fetch: (nat, Url) -> Reply<Item>, url: Url, n: nat)
    requires Steady(fetch) && Whole(fetch, url, n)
    ensures Distinct(fetch, url, n)
  {
    forall j, k | 0 <= j < k < n
      ensures UrlAt(fetch, url, j) != UrlAt(fetch, url, k)
    {
      if UrlAt(fetch, url, j) == UrlAt(fetch, url, k) {
        SteadyRepeats(fetch, url, j, k, n - k);
        Halfway(fetch, url, n, j + n - k);
      }
    }
  }

  /**
  With a steady server and no time-out, the call returns if and only if the chain has an end
  after fewer than `maxPages` pages; a chain of exactly `maxPages` pages is refused.
  */
  lemma {:induction false} SteadyServer<Item>(fetch: (nat, Url) -> Reply<Item>, late: nat -> bool, url: Url,
      maxPages: int)
    requires Steady(fetch) && forall k :: !late(k)
    ensures Succeeds(fetch, late, url, maxPages) <==> exists n: nat :: n < maxPages && Whole(fetch, url, n)
    ensures maxPages >= 0 && Whole(fetch, url, maxPages) ==> !Succeeds(fetch, late, url, maxPages)
  {
    forall n: nat | n < maxPages && Whole(fetch, url, n)
      ensures Collectable(fetch, late, url, maxPages, n)
    {
      EndingChainIsAcyclic(fetch, url, n);
    }
    if Succeeds(fetch, late, url, maxPages) {
      var n: nat :| Collectable(fetch, late, url, maxPages, n);
      if maxPages >= 0 && Whole(fetch, url, maxPages) { Halfway(fetch, url, maxPages, n); }
    }
  }
}
