/** The records of the offer service: the stored offer, the item of a result
    page, and the aggregation records of a search response. */
module OfferModel {

  datatype Option<T> = None | Some(value: T)

  /** One rental-car offer as it is stored. `data` is an opaque base64 payload
      that is carried along and never inspected. */
  datatype Offer = Offer(
    id: string,
    data: string,
    mostSpecificRegionID: int,
    startDate: int,
    endDate: int,
    numberSeats: int,
    price: int,
    carType: string,
    hasVollkasko: bool,
    freeKilometers: int)

  /** The part of an offer that a result page returns. */
  datatype SearchResultOffer = SearchResultOffer(id: string, data: string)

  datatype PriceRange = PriceRange(start: int, end: int, count: int)

  datatype CarTypeCount = CarTypeCount(small: int, sports: int, luxury: int, family: int)

  datatype SeatsCount = SeatsCount(numberSeats: int, count: int)

  datatype FreeKilometerRange = FreeKilometerRange(start: int, end: int, count: int)

  datatype VollkaskoCount = VollkaskoCount(trueCount: int, falseCount: int)

  /** The five aggregations of a search, in the order they are computed. */
  datatype Aggregations = Aggregations(
    priceRanges: seq<PriceRange>,
    carTypeCounts: CarTypeCount,
    seatsCount: seq<SeatsCount>,
    freeKilometerRange: seq<FreeKilometerRange>,
    vollkaskoCount: VollkaskoCount)

  datatype GetOffersResponse = GetOffersResponse(
    offers: seq<SearchResultOffer>,
    priceRanges: seq<PriceRange>,
    carTypeCounts: CarTypeCount,
    seatsCount: seq<SeatsCount>,
    freeKilometerRange: seq<FreeKilometerRange>,
    vollkaskoCount: VollkaskoCount)

  /** The query parameters of a search: the mandatory ones first, then the
      six optional filters (absent when the caller leaves them out). */
  datatype OfferQuery = OfferQuery(
    regionID: int,
    timeRangeStart: int,
    timeRangeEnd: int,
    numberDays: int,
    sortOrder: string,
    page: int,
    pageSize: int,
    priceRangeWidth: int,
    minFreeKilometerWidth: int,
    minNumberSeats: Option<int>,
    minPrice: Option<int>,
    maxPrice: Option<int>,
    carType: Option<string>,
    onlyVollkasko: Option<bool>,
    minFreeKilometer: Option<int>)

  /** Projection of one stored offer onto a result item. */
  function ToSearchResult(o: Offer): SearchResultOffer
  {
    SearchResultOffer(o.id, o.data)
  }

  /** The list comprehension that turns a page of offers into result items. */
  function ToSearchResults(page: seq<Offer>): (r: seq<SearchResultOffer>)
    ensures |r| == |page|
    ensures forall i :: 0 <= i < |page| ==> r[i].id == page[i].id && r[i].data == page[i].data
  {
    if page == [] then [] else [ToSearchResult(page[0])] + ToSearchResults(page[1..])
  }

  /** Projection distributes over concatenation, so the result items of two
      adjacent pages are the result items of their union. */
  lemma {:induction false} ToSearchResultsAppend(p: seq<Offer>, q: seq<Offer>)
    ensures ToSearchResults(p + q) == ToSearchResults(p) + ToSearchResults(q)
  {
    if p == [] {
      assert p + q == q;
    } else {
      assert (p + q)[1..] == p[1..] + q;
      ToSearchResultsAppend(p[1..], q);
    }
  }
}
