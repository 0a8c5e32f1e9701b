/** The aggregations of a search response. None is computed: every search
    reports the same empty ranges and zero counts. */
module Aggregations {
  import opened OfferModel
  import opened Filters

  /** The five aggregations over the filtered offers: no price ranges, a car
      type count of zero for each of the four types, no seat counts, no free
      kilometer ranges, and zero offers with and without vollkasko. Nothing
      of the arguments is looked at. */
  function ComputeAggregations(
    filtered: seq<Offer>, priceRangeWidth: int, minFreeKilometerWidth: int,
    mandatory: MandatoryFilters, optional: FilterDict): (r: Aggregations)
    ensures r.priceRanges == [] && r.seatsCount == [] && r.freeKilometerRange == []
    ensures r.carTypeCounts.small == 0 && r.carTypeCounts.sports == 0
    ensures r.carTypeCounts.luxury == 0 && r.carTypeCounts.family == 0
    ensures r.vollkaskoCount.trueCount == 0 && r.vollkaskoCount.falseCount == 0
  {
    Aggregations([], CarTypeCount(0, 0, 0, 0), [], [], VollkaskoCount(0, 0))
  }
}
