/** Pagination of the sorted offers: the Python slice
    `offers[(page-1)*pageSize : (page-1)*pageSize + pageSize]`, with Python's
    treatment of negative and out-of-range slice bounds. */
module Pagination {

  function Min(x: int, y: int): int { if x <= y then x else y }

  function Max(x: int, y: int): int { if x >= y then x else y }

  /** How Python turns one bound of `s[start:stop]` into a position of a list
      of length `n`: a negative bound counts from the end, and the outcome is
      clamped to [0, n]. */
  function SliceBound(i: int, n: nat): (r: nat)
    ensures r <= n
  {
    if i < 0 then Max(i + n, 0) else Min(i, n)
  }

  /** Python's `s[start:stop]`. */
  function Slice<T>(s: seq<T>, start: int, stop: int): seq<T>
  {
    var lo := SliceBound(start, |s|);
    var hi := SliceBound(stop, |s|);
    if lo < hi then s[lo..hi] else []
  }

  function PageStart(page: int, pageSize: int): int
  {
    (page - 1) * pageSize
  }

  /** The page the search returns. */
  function Page<T>(s: seq<T>, page: int, pageSize: int): seq<T>
  {
    Slice(s, PageStart(page, pageSize), PageStart(page, pageSize) + pageSize)
  }

  /** For non-negative bounds Python's slice is the clamped window. */
  lemma SliceNonNegative<T>(s: seq<T>, start: int, stop: int)
    requires 0 <= start && 0 <= stop
    ensures Slice(s, start, stop) ==
      s[Min(start, |s|)..Max(Min(start, |s|), Min(stop, |s|))]
  {
  }

  lemma PageStartNonNegative(page: int, pageSize: int)
    requires page >= 1 && pageSize >= 1
    ensures PageStart(page, pageSize) >= 0
  {
    var p: nat, k: nat := page - 1, pageSize;
    assert p * k >= 0;
  }

  lemma NegativeProduct(x: int, y: int)
    requires x >= 1 && y <= -1
    ensures x * y < 0
  {
    var p: nat, k: nat := x - 1, -y - 1;
    assert x * y == -(p * k) - p - k - 1;
  }

  /** A page with a positive number and size holds the offers from its start
      up to (not including) the end of the page or of the list, whichever is
      first; it never holds more than `pageSize` offers, holds exactly
      `pageSize` when the list reaches the end of the page, and is empty
      exactly when it starts at or past the end of the list. */
  lemma PageWindow<T>(s: seq<T>, page: int, pageSize: int)
    requires page >= 1 && pageSize >= 1
    ensures PageStart(page, pageSize) >= 0
    ensures Page(s, page, pageSize) ==
      s[Min(PageStart(page, pageSize), |s|)..Min(PageStart(page, pageSize) + pageSize, |s|)]
    ensures |Page(s, page, pageSize)| <= pageSize
    ensures PageStart(page, pageSize) + pageSize <= |s| ==> |Page(s, page, pageSize)| == pageSize
    ensures Page(s, page, pageSize) == [] <==> PageStart(page, pageSize) >= |s|
  {
    PageStartNonNegative(page, pageSize);
    var start := PageStart(page, pageSize);
    SliceNonNegative(s, start, start + pageSize);
  }

  /** Pages 1 to `count` laid end to end. */
  function PagesUpTo<T>(s: seq<T>, count: nat, pageSize: int): seq<T>
  {
    if count == 0 then [] else PagesUpTo(s, count - 1, pageSize) + Page(s, count, pageSize)
  }

  /** Consecutive pages neither overlap nor leave gaps: the first `count`
      pages together are exactly the first `count * pageSize` offers (or all
      of them, when there are fewer). */
  lemma {:induction false} PagesUpToIsPrefix<T>(s: seq<T>, count: nat, pageSize: int)
    requires pageSize >= 1
    ensures PagesUpTo(s, count, pageSize) == s[..Min(count * pageSize, |s|)]
  {
    if count > 0 {
      PagesUpToIsPrefix(s, count - 1, pageSize);
      PageWindow(s, count, pageSize);
      assert PageStart(count, pageSize) == (count - 1) * pageSize;
      assert (count - 1) * pageSize + pageSize == count * pageSize;
      var a := Min((count - 1) * pageSize, |s|);
      var b := Min(count * pageSize, |s|);
      assert s[..a] + s[a..b] == s[..b];
    }
  }

  /** Two consecutive pages together are the window of twice the page size
      that starts where the first of them starts. */
  lemma ConsecutivePages<T>(s: seq<T>, page: int, pageSize: int)
    requires page >= 1 && pageSize >= 1
    ensures Page(s, page, pageSize) + Page(s, page + 1, pageSize) ==
      s[Min(PageStart(page, pageSize), |s|)..Min(PageStart(page, pageSize) + 2 * pageSize, |s|)]
  {
    PageWindow(s, page, pageSize);
    PageWindow(s, page + 1, pageSize);
    assert PageStart(page + 1, pageSize) == PageStart(page, pageSize) + pageSize;
    var a := Min(PageStart(page, pageSize), |s|);
    var b := Min(PageStart(page, pageSize) + pageSize, |s|);
    var c := Min(PageStart(page, pageSize) + 2 * pageSize, |s|);
    assert s[a..b] + s[b..c] == s[a..c];
  }

  /** Every offer of the list is on some page: the one numbered
      `index / pageSize + 1`, at position `index % pageSize`. */
  lemma PageLocates<T>(s: seq<T>, pageSize: int, index: int)
    requires pageSize >= 1 && 0 <= index < |s|
    ensures index % pageSize < |Page(s, index / pageSize + 1, pageSize)|
    ensures Page(s, index / pageSize + 1, pageSize)[index % pageSize] == s[index]
  {
    var page := index / pageSize + 1;
    PageWindow(s, page, pageSize);
    assert PageStart(page, pageSize) + index % pageSize == index;
  }

  /** Page 0 of a positive size is always empty: its slice stops at index 0. */
  lemma PageZero<T>(s: seq<T>, pageSize: int)
    requires pageSize >= 1
    ensures Page(s, 0, pageSize) == []
  {
  }

  /** A negative page of a positive size reads from the end of the list, as
      Python's negative slice bounds do. */
  lemma NegativePage<T>(s: seq<T>, page: int, pageSize: int)
    requires page <= -1 && pageSize >= 1
    ensures var lo := Max(|s| + PageStart(page, pageSize), 0);
            var hi := Max(|s| + PageStart(page, pageSize) + pageSize, 0);
            Page(s, page, pageSize) == s[lo..hi]
  {
    assert PageStart(page, pageSize) + pageSize == page * pageSize;
    assert page * pageSize <= -1 * pageSize;
  }

  /** A page size of zero always gives an empty page. */
  lemma PageSizeZero<T>(s: seq<T>, page: int)
    ensures Page(s, page, 0) == []
  {
  }

  /** A negative page size gives an empty page, except on page 1, which is
      the slice `s[0:pageSize]`: the list without its last `-pageSize`
      offers. */
  lemma NegativePageSize<T>(s: seq<T>, page: int, pageSize: int)
    requires pageSize <= -1
    ensures page == 1 ==> Page(s, page, pageSize) == s[..Max(|s| + pageSize, 0)]
    ensures page != 1 ==> Page(s, page, pageSize) == []
  {
    var start := PageStart(page, pageSize);
    if page == 1 {
      assert start == 0;
    } else if page >= 2 {
      assert start < 0 by { NegativeProduct(page - 1, pageSize); }
    } else {
      assert start > 0 by { NegativeProduct(1 - page, pageSize); }
    }
  }
}
