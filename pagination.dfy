/**
  The listing paginator: a listing is cut into pages of a fixed size
  (POSTS_PER_PAGE) and one page is picked by the `page` query parameter,
  the way `get_paginator` does it with the framework's `Paginator.get_page`.
*/
module Pagination {
  import Seqs

  /** The `page` query parameter, once the framework has tried to read it as an integer. */
  datatype PageQuery = Missing | NotANumber | Number(n: int)

  /** One page of a listing: its items, its 1-based number and the number of pages. */
  datatype Page<T> = Page(items: seq<T>, number: nat, numPages: nat)

  function Min(a: int, b: int): int { if a <= b then a else b }

  /**
    Number of pages for `count` items: the least n >= 1 with count <= n * perPage
    (an empty listing still has one, empty, page).
  */
  function NumPages(count: nat, perPage: nat): (n: nat)
    requires perPage > 0
    ensures n >= 1
    ensures count <= n * perPage
    ensures (n - 1) * perPage < count || (count == 0 && n == 1)
    decreases count
  {
    if count <= perPage then 1
    else
      var m := NumPages(count - perPage, perPage);
      assert (m + 1) * perPage == m * perPage + perPage;
      assert m * perPage == (m - 1) * perPage + perPage;
      m + 1
  }

  /**
    The page number actually served: a missing or non-numeric parameter gives
    the first page, a number outside 1..numPages gives the last page.
  */
  function ResolvePage(q: PageQuery, numPages: nat): (k: nat)
    requires numPages >= 1
    ensures 1 <= k <= numPages
    ensures (q.Missing? || q.NotANumber?) ==> k == 1
    ensures q.Number? && 1 <= q.n <= numPages ==> k == q.n
    ensures q.Number? && (q.n < 1 || q.n > numPages) ==> k == numPages
  {
    match q
    case Missing => 1
    case NotANumber => 1
    case Number(n) => if 1 <= n <= numPages then n else numPages
  }

  lemma MulMono(a: nat, b: nat, c: nat)
    requires a <= b
    ensures a * c <= b * c
  {
    assert b * c == a * c + (b - a) * c;
  }

  /** Page `k` starts inside the listing, and every page before the last is full. */
  lemma PageBounds(count: nat, perPage: nat, k: nat)
    requires perPage > 0 && 1 <= k <= NumPages(count, perPage)
    ensures PageStart(k, perPage) <= count
    ensures k < NumPages(count, perPage) ==> PageStart(k, perPage) + perPage <= count
  {
    var n := NumPages(count, perPage);
    MulMono(k - 1, n - 1, perPage);
    if k < n {
      MulMono(k, n - 1, perPage);
      assert k * perPage == PageStart(k, perPage) + perPage;
    }
  }

  /** Index of the first item of page `k`. */
  function PageStart(k: nat, perPage: nat): nat
    requires k >= 1
  {
    (k - 1) * perPage
  }

  /** Items of page `k`, a contiguous slice of the listing of at most `perPage` items. */
  function PageSlice<T>(items: seq<T>, perPage: nat, k: nat): (r: seq<T>)
    requires perPage > 0 && 1 <= k <= NumPages(|items|, perPage)
    ensures |r| <= perPage
    ensures k < NumPages(|items|, perPage) ==> |r| == perPage
  {
    PageBounds(|items|, perPage, k);
    var lo := PageStart(k, perPage);
    items[lo..Min(lo + perPage, |items|)]
  }

  /** The page `get_paginator` returns for the listing `items` and the query `q`. */
  function GetPage<T>(items: seq<T>, perPage: nat, q: PageQuery): (r: Page<T>)
    requires perPage > 0
    ensures r.numPages == NumPages(|items|, perPage)
    ensures r.number == ResolvePage(q, r.numPages)
    ensures r.items == PageSlice(items, perPage, r.number)
  {
    var n := NumPages(|items|, perPage);
    var k := ResolvePage(q, n);
    Page(PageSlice(items, perPage, k), k, n)
  }

  /** A page never holds more than `perPage` items. */
  lemma PageSizeBound<T>(items: seq<T>, perPage: nat, q: PageQuery)
    requires perPage > 0
    ensures |GetPage(items, perPage, q).items| <= perPage
  {
  }

  /** Without a `page` parameter the first page is served. */
  lemma MissingGivesFirstPage<T>(items: seq<T>, perPage: nat)
    requires perPage > 0
    ensures GetPage(items, perPage, Missing) == GetPage(items, perPage, Number(1))
    ensures GetPage(items, perPage, Missing).number == 1
    ensures GetPage(items, perPage, Missing).items == items[..Min(perPage, |items|)]
  {
  }

  /** One item more than a page: a full first page and a second page of one item. */
  lemma OneItemOverflow<T>(items: seq<T>, perPage: nat)
    requires perPage > 0 && |items| == perPage + 1
    ensures NumPages(|items|, perPage) == 2
    ensures |GetPage(items, perPage, Number(1)).items| == perPage
    ensures |GetPage(items, perPage, Number(2)).items| == 1
    ensures GetPage(items, perPage, Number(2)).items == [items[perPage]]
  {
    assert NumPages(1, perPage) == 1;
  }

  /** The concatenation of pages k, k + 1, ..., numPages. */
  function PagesFrom<T>(items: seq<T>, perPage: nat, k: nat): seq<T>
    requires perPage > 0 && k >= 1
    decreases NumPages(|items|, perPage) + 1 - k
  {
    if k > NumPages(|items|, perPage) then []
    else PageSlice(items, perPage, k) + PagesFrom(items, perPage, k + 1)
  }

  lemma {:induction false} PagesFromIsSuffix<T>(items: seq<T>, perPage: nat, k: nat)
    requires perPage > 0 && 1 <= k <= NumPages(|items|, perPage)
    ensures PagesFrom(items, perPage, k) == items[PageStart(k, perPage)..]
    decreases NumPages(|items|, perPage) - k
  {
    var n := NumPages(|items|, perPage);
    var lo := PageStart(k, perPage);
    assert k * perPage == lo + perPage;
    if k == n {
      assert PagesFrom(items, perPage, k + 1) == [];
      assert |items| <= lo + perPage;
      assert PageSlice(items, perPage, k) == items[lo..];
    } else {
      PageBounds(|items|, perPage, k);
      PagesFromIsSuffix(items, perPage, k + 1);
      assert PageStart(k + 1, perPage) == lo + perPage <= |items|;
      assert PageSlice(items, perPage, k) == items[lo..lo + perPage];
      assert items[lo..] == items[lo..lo + perPage] + items[lo + perPage..];
    }
  }

  /** Pages 1..numPages, in order, give back the listing: nothing lost, repeated or reordered. */
  lemma PagesConcatenateToListing<T>(items: seq<T>, perPage: nat)
    requires perPage > 0
    ensures PagesFrom(items, perPage, 1) == items
  {
    PagesFromIsSuffix(items, perPage, 1);
  }

  /** Pagination keeps the listing's order: a page of a sorted listing is sorted. */
  lemma PageOfSortedIsSorted<T(!new)>(items: seq<T>, perPage: nat, q: PageQuery, key: T -> int)
    requires perPage > 0 && Seqs.SortedDesc(items, key)
    ensures Seqs.SortedDesc(GetPage(items, perPage, q).items, key)
  {
    var r := GetPage(items, perPage, q);
    PageBounds(|items|, perPage, r.number);
    var lo := PageStart(r.number, perPage);
    Seqs.SliceOfSorted(items, key, lo, Min(lo + perPage, |items|));
  }
}
