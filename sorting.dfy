/** The in-place sort of the filtered offers by (price, ID), ascending or,
    with `reverse=True`, descending. */
module Sorting {
  import opened OfferModel
  import opened Ordering

  /** Every adjacent pair of `s` inside positions [lo, hi) is in order. */
  ghost predicate SortedBetween(s: seq<Offer>, lo: int, hi: int, desc: bool)
    requires 0 <= lo && hi <= |s|
  {
    forall k :: lo < k < hi ==> InOrder(s[k - 1], s[k], desc)
  }

  /** One step of insertion: the element at `j` trades places with its left
      neighbour, which must follow it. */
  lemma InsertionStep(s: seq<Offer>, t: seq<Offer>, i: int, j: int, desc: bool)
    requires 0 < j <= i < |s| == |t|
    requires SortedBetween(s, 0, j, desc) && SortedBetween(s, j, i + 1, desc)
    requires j < i ==> InOrder(s[j - 1], s[j + 1], desc)
    requires !InOrder(s[j - 1], s[j], desc)
    requires t == s[j - 1 := s[j]][j := s[j - 1]]
    ensures SortedBetween(t, 0, j - 1, desc) && SortedBetween(t, j - 1, i + 1, desc)
    ensures 0 < j - 1 < i ==> InOrder(t[j - 2], t[j], desc)
  {
    InOrderTotal(s[j - 1], s[j], desc);
    forall k | j - 1 < k < i + 1
      ensures InOrder(t[k - 1], t[k], desc)
    {
      if k == j + 1 {
        assert t[k - 1] == s[j - 1] && t[k] == s[j + 1];
      }
    }
  }

  /** Exchanges two elements of `a` and leaves the rest alone. */
  method Swap(a: array<Offer>, i: int, j: int)
    requires 0 <= i < j < a.Length
    modifies a
    ensures a[..] == old(a[..])[i := old(a[j])][j := old(a[i])]
    ensures multiset(a[..]) == multiset(old(a[..]))
  {
    a[i], a[j] := a[j], a[i];
  }

  /** Sorts `a` in place so that every adjacent pair is in key order (for
      `desc`, in reversed key order); the elements are permuted, not changed. */
  method SortOffers(a: array<Offer>, desc: bool)
    modifies a
    ensures Sorted(a[..], desc)
    ensures multiset(a[..]) == multiset(old(a[..]))
  {
    var i := 0;
    while i < a.Length
      invariant 0 <= i <= a.Length
      invariant SortedBetween(a[..], 0, i, desc)
      invariant multiset(a[..]) == multiset(old(a[..]))
    {
      var j := i;
      // a[i] moves left past every element that must follow it.
      while 0 < j && !InOrder(a[j - 1], a[j], desc)
        invariant 0 <= j <= i
        invariant SortedBetween(a[..], 0, j, desc)
        invariant SortedBetween(a[..], j, i + 1, desc)
        invariant 0 < j < i ==> InOrder(a[j - 1], a[j + 1], desc)
        invariant multiset(a[..]) == multiset(old(a[..]))
      {
        ghost var before := a[..];
        Swap(a, j - 1, j);
        InsertionStep(before, a[..], i, j, desc);
        j := j - 1;
      }
      i := i + 1;
    }
  }
}
