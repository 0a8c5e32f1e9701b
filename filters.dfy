/** The filters of a search: the mandatory ones, the optional ones with the
    absent entries removed, and the filter pass over the stored offers. */
module Filters {
  import opened OfferModel

  datatype FilterKey =
    | MinNumberSeats | MinPrice | MaxPrice | CarType | OnlyVollkasko | MinFreeKilometer

  /** The values an optional filter can hold: integers, the car type string
      and the insurance flag. */
  datatype FilterValue = IntValue(i: int) | StrValue(s: string) | BoolValue(b: bool)

  datatype MandatoryFilters =
    MandatoryFilters(regionID: int, timeRangeStart: int, timeRangeEnd: int, numberDays: int)

  /** A dictionary of present optional filters: its entries in insertion
      order, as a Python dict keeps them. */
  type FilterDict = seq<(FilterKey, FilterValue)>

  /** A dictionary whose values may still be None. */
  type RawFilterDict = seq<(FilterKey, Option<FilterValue>)>

  function MandatoryFiltersOf(q: OfferQuery): MandatoryFilters
  {
    MandatoryFilters(q.regionID, q.timeRangeStart, q.timeRangeEnd, q.numberDays)
  }

  function IntArgument(x: Option<int>): Option<FilterValue>
  {
    match x
    case None => None
    case Some(v) => Some(IntValue(v))
  }

  /** The six optional filters in the order the search lists them, each
      with the caller's argument or None. */
  function RawOptionalFilters(q: OfferQuery): RawFilterDict
  {
    [ (MinNumberSeats, IntArgument(q.minNumberSeats)),
      (MinPrice, IntArgument(q.minPrice)),
      (MaxPrice, IntArgument(q.maxPrice)),
      (CarType, if q.carType.Some? then Some(StrValue(q.carType.value)) else None),
      (OnlyVollkasko, if q.onlyVollkasko.Some? then Some(BoolValue(q.onlyVollkasko.value)) else None),
      (MinFreeKilometer, IntArgument(q.minFreeKilometer)) ]
  }

  /** What the caller passed for the filter named `k`, read off the query. */
  function Argument(q: OfferQuery, k: FilterKey): Option<FilterValue>
  {
    match k
    case MinNumberSeats => if q.minNumberSeats == None then None else Some(IntValue(q.minNumberSeats.value))
    case MinPrice => if q.minPrice == None then None else Some(IntValue(q.minPrice.value))
    case MaxPrice => if q.maxPrice == None then None else Some(IntValue(q.maxPrice.value))
    case CarType => if q.carType == None then None else Some(StrValue(q.carType.value))
    case OnlyVollkasko => if q.onlyVollkasko == None then None else Some(BoolValue(q.onlyVollkasko.value))
    case MinFreeKilometer => if q.minFreeKilometer == None then None else Some(IntValue(q.minFreeKilometer.value))
  }

  ghost predicate DistinctKeys(d: RawFilterDict)
  {
    forall i, j :: 0 <= i < j < |d| ==> d[i].0 != d[j].0
  }

  ghost predicate DistinctPresentKeys(d: FilterDict)
  {
    forall i, j :: 0 <= i < j < |d| ==> d[i].0 != d[j].0
  }

  /** Looking a key up in a dictionary that may hold None values; a missing
      key reads as None too. */
  function RawGet(d: RawFilterDict, k: FilterKey): Option<FilterValue>
  {
    if d == [] then None else if d[0].0 == k then d[0].1 else RawGet(d[1..], k)
  }

  /** Looking a key up in a dictionary of present filters. */
  function Get(d: FilterDict, k: FilterKey): Option<FilterValue>
  {
    if d == [] then None else if d[0].0 == k then Some(d[0].1) else Get(d[1..], k)
  }

  /** The comprehension that keeps the entries whose value is not None, in
      their order. */
  function DropNone(d: RawFilterDict): (r: FilterDict)
    ensures |r| <= |d|
    ensures forall i :: 0 <= i < |r| ==> (r[i].0, Some(r[i].1)) in d
  {
    if d == [] then []
    else if d[0].1.Some? then [(d[0].0, d[0].1.value)] + DropNone(d[1..])
    else DropNone(d[1..])
  }

  lemma {:induction false} RawGetAbsent(d: RawFilterDict, k: FilterKey)
    requires forall i :: 0 <= i < |d| ==> d[i].0 != k
    ensures RawGet(d, k) == None
  {
    if d != [] { RawGetAbsent(d[1..], k); }
  }

  /** Removing the None entries keeps every present value under its key and
      makes every None entry read as missing. */
  lemma {:induction false} DropNoneGet(d: RawFilterDict, k: FilterKey)
    requires DistinctKeys(d)
    ensures Get(DropNone(d), k) == RawGet(d, k)
  {
    if d != [] {
      assert DistinctKeys(d[1..]) by {
        forall i, j | 0 <= i < j < |d[1..]| ensures d[1..][i].0 != d[1..][j].0 {
          assert d[1..][i] == d[i + 1] && d[1..][j] == d[j + 1];
        }
      }
      DropNoneGet(d[1..], k);
      if d[0].0 == k && d[0].1 == None {
        forall i | 0 <= i < |d[1..]| ensures d[1..][i].0 != k {
          assert d[1..][i] == d[i + 1];
        }
        RawGetAbsent(d[1..], k);
      }
    }
  }

  /** Removing the None entries keeps the keys distinct. */
  lemma {:induction false} DropNoneDistinct(d: RawFilterDict)
    requires DistinctKeys(d)
    ensures DistinctPresentKeys(DropNone(d))
  {
    if d != [] {
      assert DistinctKeys(d[1..]) by {
        forall i, j | 0 <= i < j < |d[1..]| ensures d[1..][i].0 != d[1..][j].0 {
          assert d[1..][i] == d[i + 1] && d[1..][j] == d[j + 1];
        }
      }
      DropNoneDistinct(d[1..]);
      var r := DropNone(d[1..]);
      forall i | 0 <= i < |r| ensures r[i].0 != d[0].0 {
        var m :| m in d[1..] && m == (r[i].0, Some(r[i].1));
      }
    }
  }

  /** The optional filters of a search, with every absent one removed. */
  function OptionalFilters(q: OfferQuery): FilterDict
  {
    DropNone(RawOptionalFilters(q))
  }

  /** After None-removal the dictionary holds exactly the filters the caller
      gave, each with the value given, and each key once. */
  lemma OptionalFiltersExact(q: OfferQuery, k: FilterKey)
    ensures Get(OptionalFilters(q), k) == Argument(q, k)
    ensures Get(OptionalFilters(q), k).Some? <==> Argument(q, k).Some?
    ensures DistinctPresentKeys(OptionalFilters(q))
  {
    var raw := RawOptionalFilters(q);
    assert DistinctKeys(raw);
    assert RawGet(raw, k) == Argument(q, k) by {
      var t1 := raw[1..];
      var t2 := t1[1..];
      var t3 := t2[1..];
      var t4 := t3[1..];
      var t5 := t4[1..];
      assert t5 == [raw[5]];
      if k != MinNumberSeats {
        assert RawGet(raw, k) == RawGet(t1, k);
        if k != MinPrice {
          assert RawGet(t1, k) == RawGet(t2, k);
          if k != MaxPrice {
            assert RawGet(t2, k) == RawGet(t3, k);
            if k != CarType {
              assert RawGet(t3, k) == RawGet(t4, k);
              if k != OnlyVollkasko {
                assert RawGet(t4, k) == RawGet(t5, k);
              }
            }
          }
        }
      }
    }
    DropNoneGet(raw, k);
    DropNoneDistinct(raw);
  }

  /** The filter an offer must pass. No filter is applied: every offer is
      accepted, whatever the filters say. */
  predicate MatchesFilters(o: Offer, mandatory: MandatoryFilters, optional: FilterDict)
  {
    true
  }

  /** The comprehension that keeps the offers passing the filters, in store
      order. */
  function FilterOffers(db: seq<Offer>, mandatory: MandatoryFilters, optional: FilterDict): seq<Offer>
  {
    if db == [] then []
    else
      var rest := FilterOffers(db[1..], mandatory, optional);
      if MatchesFilters(db[0], mandatory, optional) then [db[0]] + rest else rest
  }

  /** Since every offer passes, the filtered list is the store itself, in the
      store's order. */
  lemma {:induction false} FilterOffersKeepsAll(db: seq<Offer>, mandatory: MandatoryFilters, optional: FilterDict)
    ensures FilterOffers(db, mandatory, optional) == db
  {
    if db != [] {
      FilterOffersKeepsAll(db[1..], mandatory, optional);
      assert db == [db[0]] + db[1..];
    }
  }
}
