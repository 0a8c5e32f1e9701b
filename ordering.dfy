/** The sort key of a search: the pair (price, ID), compared the way Python
    compares tuples, integer first and then the string by code point. */
module Ordering {
  import opened OfferModel

  /** Python's `<=` on str: code point by code point, a proper prefix first. */
  predicate StrLe(a: string, b: string)
  {
    if a == [] then true
    else if b == [] then false
    else if a[0] != b[0] then a[0] < b[0]
    else StrLe(a[1..], b[1..])
  }

  /** The textbook definition of lexicographic order, independent of the
      recursion in StrLe: `a` is a prefix of `b`, or they first differ at an
      index where `a` has the smaller character. */
  ghost predicate Lexicographic(a: string, b: string)
  {
    a <= b || exists k :: 0 <= k < |a| && k < |b| && a[..k] == b[..k] && a[k] < b[k]
  }

  lemma {:induction false} StrLeIsLexicographic(a: string, b: string)
    ensures StrLe(a, b) <==> Lexicographic(a, b)
  {
    if a == [] {
    } else if b == [] {
      assert !(a <= b);
    } else if a[0] != b[0] {
      if a[0] < b[0] {
        assert a[..0] == b[..0];
      }
      assert !(a <= b);
      forall k | 0 <= k < |a| && k < |b| && a[..k] == b[..k]
        ensures k == 0
      {
      }
    } else {
      StrLeIsLexicographic(a[1..], b[1..]);
      assert a == [a[0]] + a[1..];
      assert b == [b[0]] + b[1..];
      if StrLe(a, b) {
        if a[1..] <= b[1..] {
          assert a <= b;
        } else {
          var k :| 0 <= k < |a[1..]| && k < |b[1..]| && a[1..][..k] == b[1..][..k] && a[1..][k] < b[1..][k];
          assert a[..k + 1] == [a[0]] + a[1..][..k];
          assert b[..k + 1] == [b[0]] + b[1..][..k];
          assert a[k + 1] < b[k + 1];
        }
      } else {
        assert !(a[1..] <= b[1..]);
        assert !(a <= b);
        forall k | 0 <= k < |a| && k < |b| && a[..k] == b[..k]
          ensures !(a[k] < b[k])
        {
          if k == 0 {
          } else {
            assert a[1..][..k - 1] == a[..k][1..];
            assert b[1..][..k - 1] == b[..k][1..];
            assert a[1..][k - 1] == a[k];
            assert b[1..][k - 1] == b[k];
          }
        }
      }
    }
  }

  lemma {:induction false} StrLeReflexive(a: string)
    ensures StrLe(a, a)
  {
    if a != [] { StrLeReflexive(a[1..]); }
  }

  lemma {:induction false} StrLeTotal(a: string, b: string)
    ensures StrLe(a, b) || StrLe(b, a)
  {
    if a != [] && b != [] && a[0] == b[0] { StrLeTotal(a[1..], b[1..]); }
  }

  lemma {:induction false} StrLeAntisymmetric(a: string, b: string)
    requires StrLe(a, b) && StrLe(b, a)
    ensures a == b
  {
    if a != [] && b != [] {
      StrLeAntisymmetric(a[1..], b[1..]);
      assert a == [a[0]] + a[1..];
      assert b == [b[0]] + b[1..];
    }
  }

  lemma {:induction false} StrLeTransitive(a: string, b: string, c: string)
    requires StrLe(a, b) && StrLe(b, c)
    ensures StrLe(a, c)
  {
    if a != [] && b != [] && c != [] && a[0] == b[0] && b[0] == c[0] {
      StrLeTransitive(a[1..], b[1..], c[1..]);
    }
  }

  /** The sort key of an offer: the tuple (price, ID). */
  type SortKey = (int, string)

  function KeyOf(o: Offer): SortKey
  {
    (o.price, o.id)
  }

  /** Python's `<=` on (int, str) tuples. */
  predicate SortKeyLe(a: SortKey, b: SortKey)
  {
    a.0 < b.0 || (a.0 == b.0 && StrLe(a.1, b.1))
  }

  /** `(x.price, x.ID) <= (y.price, y.ID)`. */
  predicate KeyLe(x: Offer, y: Offer)
  {
    x.price < y.price || (x.price == y.price && StrLe(x.id, y.id))
  }

  predicate SortKeyInOrder(a: SortKey, b: SortKey, desc: bool)
  {
    if desc then SortKeyLe(b, a) else SortKeyLe(a, b)
  }

  /** The order a result list must be in: ascending keys, or, for
      `reverse=True`, the same comparison with both components reversed. */
  predicate InOrder(x: Offer, y: Offer, desc: bool)
  {
    if desc then KeyLe(y, x) else KeyLe(x, y)
  }

  /** Every adjacent pair of `s` is in order. */
  predicate Sorted(s: seq<Offer>, desc: bool)
  {
    forall i :: 0 < i < |s| ==> InOrder(s[i - 1], s[i], desc)
  }

  lemma KeyLeTotal(x: Offer, y: Offer)
    ensures KeyLe(x, y) || KeyLe(y, x)
  {
    StrLeTotal(x.id, y.id);
  }

  lemma KeyLeTransitive(x: Offer, y: Offer, z: Offer)
    requires KeyLe(x, y) && KeyLe(y, z)
    ensures KeyLe(x, z)
  {
    if x.price == y.price == z.price { StrLeTransitive(x.id, y.id, z.id); }
  }

  /** Two offers that are each in order before the other have the same key. */
  lemma KeyLeAntisymmetric(x: Offer, y: Offer)
    requires KeyLe(x, y) && KeyLe(y, x)
    ensures x.price == y.price && x.id == y.id
  {
    StrLeAntisymmetric(x.id, y.id);
  }

  lemma InOrderTotal(x: Offer, y: Offer, desc: bool)
    ensures InOrder(x, y, desc) || InOrder(y, x, desc)
  {
    KeyLeTotal(x, y);
  }

  lemma InOrderTransitive(x: Offer, y: Offer, z: Offer, desc: bool)
    requires InOrder(x, y, desc) && InOrder(y, z, desc)
    ensures InOrder(x, z, desc)
  {
    if desc { KeyLeTransitive(z, y, x); } else { KeyLeTransitive(x, y, z); }
  }

  /** Adjacent order gives order between every pair of positions. */
  lemma {:induction false} SortedPairwise(s: seq<Offer>, desc: bool, i: int, j: int)
    requires Sorted(s, desc)
    requires 0 <= i < j < |s|
    ensures InOrder(s[i], s[j], desc)
    decreases j - i
  {
    if i + 1 < j {
      SortedPairwise(s, desc, i, j - 1);
      InOrderTransitive(s[i], s[j - 1], s[j], desc);
    }
  }

  /** The keys of a list of offers, position by position. */
  function Keys(s: seq<Offer>): (r: seq<SortKey>)
    ensures |r| == |s|
    ensures forall i :: 0 <= i < |s| ==> r[i] == KeyOf(s[i])
  {
    if s == [] then [] else [KeyOf(s[0])] + Keys(s[1..])
  }

  /** Dropping one offer drops its key, at the same position. */
  lemma KeysRemove(t: seq<Offer>, j: int)
    requires 0 <= j < |t|
    ensures Keys(t[..j] + t[j + 1..]) == Keys(t)[..j] + Keys(t)[j + 1..]
  {
    var l := Keys(t[..j] + t[j + 1..]);
    var r := Keys(t)[..j] + Keys(t)[j + 1..];
    assert |l| == |r|;
    forall i | 0 <= i < |l| ensures l[i] == r[i] {
      if i < j {
        assert (t[..j] + t[j + 1..])[i] == t[i];
      } else {
        assert (t[..j] + t[j + 1..])[i] == t[i + 1];
      }
    }
  }

  /** Taking out the element at `j` takes one copy of it out of the multiset. */
  lemma MultisetRemove<T>(t: seq<T>, j: int)
    requires 0 <= j < |t|
    ensures multiset(t[..j] + t[j + 1..]) == multiset(t) - multiset{t[j]}
  {
    assert t == t[..j] + [t[j]] + t[j + 1..];
    assert multiset(t) == multiset(t[..j]) + multiset{t[j]} + multiset(t[j + 1..]);
  }

  /** Taking the first element out of one of two permutations of each other,
      and one of its copies out of the other, leaves permutations. */
  lemma PermutationRemove<T>(s: seq<T>, t: seq<T>, j: int)
    requires multiset(s) == multiset(t) && s != [] && 0 <= j < |t| && t[j] == s[0]
    ensures multiset(s[1..]) == multiset(t[..j] + t[j + 1..])
  {
    MultisetRemove(t, j);
    MultisetRemove(s, 0);
    assert s[..0] + s[1..] == s[1..];
  }

  /** Two lists holding the same offers hold the same keys. */
  lemma {:induction false} KeysOfPermutation(s: seq<Offer>, t: seq<Offer>)
    requires multiset(s) == multiset(t)
    ensures multiset(Keys(s)) == multiset(Keys(t))
    decreases |s|
  {
    if s == [] {
      assert |t| == |multiset(t)| == 0;
    } else {
      assert s[0] in multiset(t);
      var j :| 0 <= j < |t| && t[j] == s[0];
      var rest := t[..j] + t[j + 1..];
      PermutationRemove(s, t, j);
      var ms, mt := multiset(Keys(s[1..])), multiset(Keys(rest));
      assert ms == mt by { KeysOfPermutation(s[1..], rest); }
      assert multiset(Keys(t)) == mt + multiset{KeyOf(s[0])} by { KeysRemoveMultiset(t, j); }
      assert multiset(Keys(s)) == ms + multiset{KeyOf(s[0])} by {
        assert Keys(s) == [KeyOf(s[0])] + Keys(s[1..]);
      }
    }
  }

  lemma KeysRemoveMultiset(t: seq<Offer>, j: int)
    requires 0 <= j < |t|
    ensures multiset(Keys(t)) == multiset(Keys(t[..j] + t[j + 1..])) + multiset{KeyOf(t[j])}
  {
    var kt := Keys(t);
    KeysRemove(t, j);
    MultisetRemove(kt, j);
    assert kt[j] in multiset(kt);
  }

  /** The keys at positions `i` and `j` are in order, if `i` comes first. */
  predicate PairInOrder(ks: seq<SortKey>, i: int, j: int, desc: bool)
  {
    0 <= i < j < |ks| ==> SortKeyInOrder(ks[i], ks[j], desc)
  }

  /** Keys in order at every pair of positions. */
  ghost predicate KeysPairwiseInOrder(ks: seq<SortKey>, desc: bool)
  {
    forall i, j :: PairInOrder(ks, i, j, desc)
  }

  /** A multiset of keys has one arrangement in which every pair is in order:
      the order on keys is antisymmetric. */
  lemma {:induction false} PairwiseSortedKeysUnique(ks: seq<SortKey>, ls: seq<SortKey>, desc: bool)
    requires KeysPairwiseInOrder(ks, desc) && KeysPairwiseInOrder(ls, desc)
    requires multiset(ks) == multiset(ls)
    ensures ks == ls
    decreases |ks|
  {
    assert |ls| == |multiset(ls)| == |ks|;
    if ks != [] {
      FirstKeysAgree(ks, ls, desc);
      assert ks[1..] == ls[1..] by {
        PermutationRemove(ks, ls, 0);
        assert ls[..0] + ls[1..] == ls[1..];
        PairwiseSuffix(ks, desc);
        PairwiseSuffix(ls, desc);
        PairwiseSortedKeysUnique(ks[1..], ls[1..], desc);
      }
      HeadAndTail(ks, ls);
    }
  }

  lemma HeadAndTail(ks: seq<SortKey>, ls: seq<SortKey>)
    requires ks != [] && ls != [] && ks[0] == ls[0] && ks[1..] == ls[1..]
    ensures ks == ls
  {
    assert ks == [ks[0]] + ks[1..];
    assert ls == [ls[0]] + ls[1..];
  }

  /** Two pairwise ordered arrangements of the same keys start alike. */
  lemma FirstKeysAgree(ks: seq<SortKey>, ls: seq<SortKey>, desc: bool)
    requires KeysPairwiseInOrder(ks, desc) && KeysPairwiseInOrder(ls, desc)
    requires multiset(ks) == multiset(ls)
    requires ks != []
    ensures ls != [] && ks[0] == ls[0]
  {
    assert ks[0] in multiset(ls);
    var j :| 0 <= j < |ls| && ls[j] == ks[0];
    assert ls[0] in multiset(ks);
    var m :| 0 <= m < |ks| && ks[m] == ls[0];
    StrLeReflexive(ks[0].1);
    StrLeReflexive(ls[0].1);
    assert PairInOrder(ls, 0, j, desc) && PairInOrder(ks, 0, m, desc);
    StrLeAntisymmetric(ks[0].1, ls[0].1);
  }

  lemma PairwiseSuffix(ks: seq<SortKey>, desc: bool)
    requires KeysPairwiseInOrder(ks, desc) && ks != []
    ensures KeysPairwiseInOrder(ks[1..], desc)
  {
    forall i, j ensures PairInOrder(ks[1..], i, j, desc) {
      if 0 <= i < j < |ks| - 1 {
        assert PairInOrder(ks, i + 1, j + 1, desc);
        assert ks[1..][i] == ks[i + 1] && ks[1..][j] == ks[j + 1];
      }
    }
  }

  /** The sort order is total on keys, so sorting is deterministic up to
      offers that share both price and ID: any two sorted arrangements of the
      same offers list the same keys in the same positions. */
  lemma SortedPermutationsAgree(s: seq<Offer>, t: seq<Offer>, desc: bool)
    requires Sorted(s, desc) && Sorted(t, desc)
    requires multiset(s) == multiset(t)
    ensures Keys(s) == Keys(t)
  {
    forall i, j ensures PairInOrder(Keys(s), i, j, desc) {
      if 0 <= i < j < |s| { SortedPairwise(s, desc, i, j); }
    }
    forall i, j ensures PairInOrder(Keys(t), i, j, desc) {
      if 0 <= i < j < |t| { SortedPairwise(t, desc, i, j); }
    }
    KeysOfPermutation(s, t);
    PairwiseSortedKeysUnique(Keys(s), Keys(t), desc);
  }
}
