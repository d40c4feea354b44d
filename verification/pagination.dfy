/**
 * `CanvasService._paginated`: request page 1, 2, 3, … with `per_page` set,
 * appending each page's items, until a page comes back empty or shorter than
 * `per_page`. The HTTP request is an input: page p (counted from 1) is
 * `pages[p - 1]`, every page past the end of `pages` is empty, and a request
 * that raises is `Failed`; the exception is not caught here, so the whole
 * call fails and the items gathered so far are lost.
 */
module Pagination {

  /** `self.per_page`. */
  const PerPage: nat := 100

  /** What one page request gave: a JSON list (an empty or null body is an empty list), or an exception. */
  datatype Response<T> = Served(items: seq<T>) | Failed

  /** The result of a paginated fetch, with the number of the last page requested. */
  datatype Outcome<T> = Complete(items: seq<T>, lastPage: nat) | Aborted(lastPage: nat)

  /** The response to page index i (page number i + 1). */
  function PageAt<T>(pages: seq<Response<T>>, i: nat): Response<T> {
    if i < |pages| then pages[i] else Served([])
  }

  /** A page after which the loop asks for the next one: non-empty and full. */
  predicate Continues<T>(r: Response<T>, perPage: nat) {
    r.Served? && r.items != [] && |r.items| >= perPage
  }

  /** The items of the first k pages, joined in request order. */
  function Joined<T>(pages: seq<Response<T>>, k: nat): seq<T>
    decreases k
  {
    if k == 0 then []
    else
      var r := PageAt(pages, k - 1);
      Joined(pages, k - 1) + (if r.Served? then r.items else [])
  }

  /** The loop from page index i on, having gathered `acc` before it. */
  function PaginateFrom<T>(pages: seq<Response<T>>, perPage: nat, i: nat, acc: seq<T>): Outcome<T>
    decreases |pages| - i
  {
    match PageAt(pages, i)
    case Failed => Aborted(i + 1)
    case Served(items) =>
      if items == [] then Complete(acc, i + 1)
      else if |items| < perPage then Complete(acc + items, i + 1)
      // never taken (past the end a page is empty); it only lets termination be shown
      else if i >= |pages| then Complete(acc + items, i + 1)
      else PaginateFrom(pages, perPage, i + 1, acc + items)
  }

  /** `_paginated`. */
  function Paginate<T>(pages: seq<Response<T>>, perPage: nat): Outcome<T> {
    PaginateFrom(pages, perPage, 0, [])
  }

  lemma {:induction false} PaginateFromStops<T>(pages: seq<Response<T>>, perPage: nat, i: nat, k: nat)
    requires i <= k
    requires forall j :: i <= j < k ==> Continues(PageAt(pages, j), perPage)
    requires !Continues(PageAt(pages, k), perPage)
    ensures PaginateFrom(pages, perPage, i, Joined(pages, i))
            == if PageAt(pages, k).Failed? then Aborted(k + 1) else Complete(Joined(pages, k + 1), k + 1)
    decreases k - i
  {
    if i < k {
      assert Continues(PageAt(pages, i), perPage);
      assert i < |pages|;
      PaginateFromStops(pages, perPage, i + 1, k);
    }
  }

  /**
   * The fetch stops at the first page that is empty, short or raising: a
   * failure there fails the whole call, otherwise the result is every item of
   * the pages up to and including that one, in request order.
   */
  lemma PaginateStopsAtFirstShortPage<T>(pages: seq<Response<T>>, perPage: nat, k: nat)
    requires forall j :: 0 <= j < k ==> Continues(PageAt(pages, j), perPage)
    requires !Continues(PageAt(pages, k), perPage)
    ensures Paginate(pages, perPage)
            == if PageAt(pages, k).Failed? then Aborted(k + 1) else Complete(Joined(pages, k + 1), k + 1)
  {
    PaginateFromStops(pages, perPage, 0, k);
  }

  /** Some page always stops the loop: at the latest the first page past the end of the list. */
  lemma {:induction false} FirstStop<T>(pages: seq<Response<T>>, perPage: nat) returns (k: nat)
    ensures k <= |pages|
    ensures forall j :: 0 <= j < k ==> Continues(PageAt(pages, j), perPage)
    ensures !Continues(PageAt(pages, k), perPage)
  {
    k := 0;
    while k < |pages| && Continues(PageAt(pages, k), perPage)
      invariant k <= |pages|
      invariant forall j :: 0 <= j < k ==> Continues(PageAt(pages, j), perPage)
    {
      k := k + 1;
    }
  }

  /** The loop as written: pages requested one after another until one stops it. */
  method FetchAll<T>(pages: seq<Response<T>>, perPage: nat) returns (result: Outcome<T>)
    ensures result.Complete? ==>
              exists k :: && 0 <= k <= |pages| && result.lastPage == k + 1
                          && (forall j :: 0 <= j < k ==> Continues(PageAt(pages, j), perPage))
                          && PageAt(pages, k).Served? && !Continues(PageAt(pages, k), perPage)
                          && result.items == Joined(pages, k + 1)
    ensures result.Aborted? ==>
              && 1 <= result.lastPage <= |pages|
              && (forall j :: 0 <= j < result.lastPage - 1 ==> Continues(PageAt(pages, j), perPage))
              && PageAt(pages, result.lastPage - 1).Failed?
  {
    var all: seq<T> := [];
    var page: nat := 1;
    while true
      invariant 1 <= page <= |pages| + 1
      invariant forall j :: 0 <= j < page - 1 ==> Continues(PageAt(pages, j), perPage)
      invariant all == Joined(pages, page - 1)
      decreases |pages| + 1 - page
    {
      var resp := PageAt(pages, page - 1);
      if resp.Failed? {
        return Aborted(page);
      }
      if resp.items == [] {
        assert Joined(pages, page) == all;
        return Complete(all, page);
      }
      all := all + resp.items;
      if |resp.items| < perPage || page > |pages| {
        return Complete(all, page);
      }
      page := page + 1;
    }
  }
}
