/** The offer service: the in-memory store of offers with its bulk insert
    and clear operations, and the search over it. */
module OfferService {
  import opened OfferModel
  import opened Ordering
  import opened Sorting
  import opened Filters
  import opened Pagination
  import opened Aggregations

  /** The shared list of stored offers. */
  class OfferStore {
    var offers: seq<Offer>

    constructor ()
      ensures offers == []
    {
      offers := [];
    }

    /** Appends a batch at the end, in its order; the offers stored before
        stay where they were. */
    method InsertAll(batch: seq<Offer>)
      modifies this
      ensures offers == old(offers) + batch
      ensures |offers| == |old(offers)| + |batch|
      ensures offers[..|old(offers)|] == old(offers)
      ensures offers[|old(offers)|..] == batch
    {
      offers := offers + batch;
    }

    /** Removes every stored offer. The new state does not depend on the old
        one, so clearing twice is clearing once. */
    method ClearAll()
      modifies this
      ensures offers == []
    {
      offers := [];
    }

    /** One search: the filtered offers, sorted by (price, ID), ascending
        unless `sortOrder` is "price-desc", then one page of them projected
        onto (ID, data), and the aggregations. The store is left as it is.
        `sorted` names the sorted list the page is cut from. */
    method GetOffers(q: OfferQuery) returns (resp: GetOffersResponse, ghost sorted: seq<Offer>)
      ensures multiset(sorted) == multiset(offers)
      ensures Sorted(sorted, q.sortOrder == "price-desc")
      ensures resp.offers == ToSearchResults(Page(sorted, q.page, q.pageSize))
      ensures q.page >= 1 && q.pageSize >= 1 ==> |resp.offers| <= q.pageSize
      ensures offers == [] ==> resp.offers == []
      ensures resp.priceRanges == [] && resp.seatsCount == [] && resp.freeKilometerRange == []
      ensures resp.carTypeCounts == CarTypeCount(0, 0, 0, 0)
      ensures resp.vollkaskoCount == VollkaskoCount(0, 0)
    {
      var mandatory := MandatoryFiltersOf(q);
      var optional := OptionalFilters(q);
      var filtered := FilterOffers(offers, mandatory, optional);
      FilterOffersKeepsAll(offers, mandatory, optional);

      var desc := q.sortOrder == "price-desc";
      var a := new Offer[|filtered|](i requires 0 <= i < |filtered| => filtered[i]);
      assert a[..] == filtered;
      SortOffers(a, desc);
      sorted := a[..];

      var paginated := Page(a[..], q.page, q.pageSize);
      if q.page >= 1 && q.pageSize >= 1 {
        PageWindow(a[..], q.page, q.pageSize);
      }
      if offers == [] {
        assert |a[..]| == 0;
      }
      var results := ToSearchResults(paginated);

      var aggs := ComputeAggregations(a[..], q.priceRangeWidth, q.minFreeKilometerWidth, mandatory, optional);
      resp := GetOffersResponse(
        results, aggs.priceRanges, aggs.carTypeCounts, aggs.seatsCount,
        aggs.freeKilometerRange, aggs.vollkaskoCount);
    }
  }
}
