/**
 * The pagination of the productSearch table: pages of ten rows, the page count
 * and the slice shown for a page.
 */
module SearchPaging {
  /** `pageSize`: the rows on a page. */
  const PageSize: nat := 10

  function Min(a: int, b: int): int { if a <= b then a else b }
  function Max(a: int, b: int): int { if a >= b then a else b }

  /** `Math.max(1, Math.ceil(n / pageSize))`: the fewest pages that hold `n` rows,
      and one page when there are none. */
  function TotalPages(n: nat): (t: nat)
    ensures t >= 1
  {
    var pages := (n + PageSize - 1) / PageSize;
    if pages < 1 then 1 else pages
  }

  /** The pages hold every row, and one page fewer would not. */
  lemma TotalPagesBounds(n: nat)
    ensures n <= TotalPages(n) * PageSize
    ensures TotalPages(n) == 1 || (TotalPages(n) - 1) * PageSize < n
  {
  }

  /** `Array.prototype.slice(start, end)`: a negative bound counts from the end, and
      both bounds are clamped to the sequence. */
  function JsSlice<T>(s: seq<T>, start: int, end: int): (r: seq<T>)
    ensures 0 <= start <= end ==> r == s[Min(start, |s|)..Min(end, |s|)]
  {
    var from := if start < 0 then Max(|s| + start, 0) else Min(start, |s|);
    var to := if end < 0 then Max(|s| + end, 0) else Min(end, |s|);
    if from < to then s[from..to] else []
  }

  /** `rows.slice(start, start + pageSize)` with `start = (page - 1) * pageSize`:
      never more than a page of rows, whatever the page number. */
  function PageSlice<T>(rows: seq<T>, page: int): (r: seq<T>)
    ensures |r| <= PageSize
  {
    var start := (page - 1) * PageSize;
    JsSlice(rows, start, start + PageSize)
  }

  /** A page holds up to ten rows: the ten from `(page - 1) * 10` on, or as many of
      them as there are. */
  lemma PageSliceShape<T>(rows: seq<T>, page: int)
    requires page >= 1
    ensures var r := PageSlice(rows, page);
      |r| == Max(0, Min(PageSize, |rows| - (page - 1) * PageSize)) &&
      forall k :: 0 <= k < |r| ==> r[k] == rows[(page - 1) * PageSize + k]
  {
  }

  /** Row `i` is shown at place `i % 10` of page `i / 10 + 1`, which exists. */
  lemma PageOfRow<T>(rows: seq<T>, i: nat)
    requires i < |rows|
    ensures var page := i / PageSize + 1;
      1 <= page <= TotalPages(|rows|) &&
      i % PageSize < |PageSlice(rows, page)| && PageSlice(rows, page)[i % PageSize] == rows[i]
  {
    var page := i / PageSize + 1;
    assert (page - 1) * PageSize + i % PageSize == i;
    TotalPagesBounds(|rows|);
    PageSliceShape(rows, page);
  }

  /** Every page from the first to the last has a row, when there are rows. */
  lemma PagesInRangeNotEmpty<T>(rows: seq<T>, page: int)
    requires |rows| > 0 && 1 <= page <= TotalPages(|rows|)
    ensures |PageSlice(rows, page)| > 0
  {
    var t := TotalPages(|rows|);
    TotalPagesBounds(|rows|);
    PageSliceShape(rows, page);
    if page < t {
      assert (page - 1) * PageSize <= (t - 2) * PageSize;
    }
  }

  /** No page after the last has a row. */
  lemma PagesPastLastEmpty<T>(rows: seq<T>, page: int)
    requires page > TotalPages(|rows|)
    ensures PageSlice(rows, page) == []
  {
    TotalPagesBounds(|rows|);
    PageSliceShape(rows, page);
    assert (page - 1) * PageSize >= TotalPages(|rows|) * PageSize;
  }

  /** The first `k` pages one after the other. */
  function Pages<T>(rows: seq<T>, k: nat): seq<T> {
    if k == 0 then [] else Pages(rows, k - 1) + PageSlice(rows, k)
  }

  /** The first `k` pages are the first `10 * k` rows. */
  lemma {:induction false} PagesArePrefix<T>(rows: seq<T>, k: nat)
    ensures Pages(rows, k) == rows[..Min(k * PageSize, |rows|)]
  {
    if k > 0 {
      PagesArePrefix(rows, k - 1);
      var a, b := Min((k - 1) * PageSize, |rows|), Min(k * PageSize, |rows|);
      assert PageSlice(rows, k) == rows[a..b];
      assert rows[..a] + rows[a..b] == rows[..b];
    }
  }

  /** The pages together show every row once, in order. */
  lemma PagesCoverRows<T>(rows: seq<T>)
    ensures Pages(rows, TotalPages(|rows|)) == rows
  {
    PagesArePrefix(rows, TotalPages(|rows|));
  }

  /** Twenty-three rows make three pages, the last holding rows 21 to 23. */
  lemma TwentyThreeRows<T>(rows: seq<T>)
    requires |rows| == 23
    ensures TotalPages(|rows|) == 3
    ensures PageSlice(rows, 3) == rows[20..]
  {
  }
}
