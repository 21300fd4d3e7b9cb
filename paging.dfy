/**
 * Page arithmetic: `Math.ceil(count / perPage)` and the window
 * `list.slice((page - 1) * perPage, (page - 1) * perPage + perPage)`,
 * with `slice`'s clamping at the end of the list.
 */
module Paging {

  function Min(a: int, b: int): int
  {
    if a <= b then a else b
  }

  /** `Math.ceil(count / perPage)`. */
  function PageCount(count: nat, perPage: nat): (p: nat)
    requires perPage > 0
    ensures count == 0 <==> p == 0
    ensures p <= 1 <==> count <= perPage
  {
    PageCountBounds(count, perPage);
    (count + perPage - 1) / perPage
  }

  /** The last page is the one holding the last item. */
  lemma PageCountBounds(count: nat, perPage: nat)
    requires perPage > 0
    ensures var p := (count + perPage - 1) / perPage;
      && (p > 0 ==> (p - 1) * perPage < count <= p * perPage)
      && (p <= 1 <==> count <= perPage)
  {
    var p := (count + perPage - 1) / perPage;
    if p >= 2 {
      MulMonotone(1, p - 1, perPage);
    } else if p == 1 {
      assert count <= 1 * perPage;
    }
  }

  /**
   * The page count is the ceiling: the last page, and no page before it,
   * reaches the last item.
   */
  lemma PageCountIsCeiling(count: nat, perPage: nat)
    requires perPage > 0
    ensures count <= PageCount(count, perPage) * perPage
    ensures count > 0 ==> (PageCount(count, perPage) - 1) * perPage < count
  {
    PageCountBounds(count, perPage);
  }

  /** Page `page` (from 1) of `s`. */
  function PageOf<T>(s: seq<T>, page: nat, perPage: nat): (r: seq<T>)
    requires 1 <= page && perPage > 0
    ensures var start := (page - 1) * perPage;
      && |r| == (if start >= |s| then 0 else Min(perPage, |s| - start))
      && forall k :: 0 <= k < |r| ==> r[k] == s[start + k]
  {
    var start: nat := (page - 1) * perPage;
    if start >= |s| then [] else s[start..Min(start + perPage, |s|)]
  }

  /** A page has repositories on it exactly when its number is at most the page count. */
  lemma PageNonEmpty<T>(s: seq<T>, page: nat, perPage: nat)
    requires 1 <= page && perPage > 0
    ensures PageOf(s, page, perPage) != [] <==> page <= PageCount(|s|, perPage)
  {
    var p := PageCount(|s|, perPage);
    PageCountBounds(|s|, perPage);
    var start := (page - 1) * perPage;
    if page <= p {
      MulMonotone(page - 1, p - 1, perPage);
    } else {
      MulMonotone(p, page - 1, perPage);
    }
  }

  lemma MulMonotone(a: nat, b: nat, n: nat)
    requires a <= b
    ensures a * n <= b * n
  {
  }

  /** The first page holds `min(perPage, |s|)` items. */
  lemma FirstPageSize<T>(s: seq<T>, perPage: nat)
    requires perPage > 0
    ensures |PageOf(s, 1, perPage)| == Min(perPage, |s|)
    ensures |s| <= perPage ==> PageOf(s, 1, perPage) == s
  {
  }

  /** Pages `page`, `page + 1`, ... as long as they are not empty, one after the other. */
  function PagesFrom<T>(s: seq<T>, perPage: nat, page: nat): seq<T>
    requires 1 <= page && perPage > 0
    decreases |s| - (page - 1) * perPage
  {
    if (page - 1) * perPage >= |s| then []
    else
      assert page * perPage == (page - 1) * perPage + perPage;
      PageOf(s, page, perPage) + PagesFrom(s, perPage, page + 1)
  }

  /** Page `page + 1` starts one page size after page `page`. */
  lemma NextOffset(page: nat, perPage: nat)
    requires 1 <= page
    ensures page * perPage == (page - 1) * perPage + perPage
  {
  }

  /** The pages from `page` on, whose first item is at `start`, are the list from `start` on. */
  lemma {:induction false} PagesFromIsSuffix<T>(s: seq<T>, perPage: nat, page: nat, start: nat)
    requires 1 <= page && perPage > 0
    requires start == (page - 1) * perPage <= |s|
    ensures PagesFrom(s, perPage, page) == s[start..]
    decreases |s| - start
  {
    if start < |s| {
      NextOffset(page, perPage);
      var end := Min(start + perPage, |s|);
      var rest := PagesFrom(s, perPage, page + 1);
      assert PagesFrom(s, perPage, page) == s[start..end] + rest;
      if start + perPage <= |s| {
        PagesFromIsSuffix(s, perPage, page + 1, start + perPage);
      } else {
        assert rest == [];
      }
      assert s[start..] == s[start..end] + s[end..];
    }
  }

  /** Reading all pages in order gives back the whole list. */
  lemma PagesReconstruct<T>(s: seq<T>, perPage: nat)
    requires perPage > 0
    ensures PagesFrom(s, perPage, 1) == s
  {
    PagesFromIsSuffix(s, perPage, 1, 0);
  }
}
