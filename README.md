# Rental-car offer service: store and search pipeline

This project models the logic of a small rental-car offer service, with the
HTTP layer removed. The logic has four parts.

- **Store.** A shared in-memory list of offers. A bulk insert appends a
  batch of offers to it. A delete empties it.
- **Optional filters.** A search builds a dictionary of its six optional
  filters (`minNumberSeats`, `minPrice`, `maxPrice`, `carType`,
  `onlyVollkasko`, `minFreeKilometer`). It then drops every entry whose
  value is `None`.
- **Filter, sort, paginate, project.** The offer filter is a placeholder
  that accepts every offer. So the filtered list is the whole store, in
  store order. That list is sorted in place by the key `(price, ID)`,
  reversed for `price-desc`. One page is cut out with the Python slice
  `[(page-1)*pageSize : (page-1)*pageSize + pageSize]`. Each offer on the
  page becomes the pair `(ID, data)`.
- **Aggregations.** These are also a placeholder. They always return empty
  price, seat and free-kilometre lists, zero car-type counts and zero
  vollkasko counts.

Modules, one per part of the pipeline:

- `OfferModel` (offers.dfy): the records and the projection onto result items.
- `Ordering` (ordering.dfy): Python's string and tuple order, the sort key,
  "sorted", and the proof that sorting is deterministic on keys.
- `Sorting` (sorting.dfy): the in-place sort on an `array<Offer>`.
- `Pagination` (pagination.dfy): Python's slice semantics and the page.
- `Filters` (filters.dfy): mandatory filters, optional filters without
  `None`, and the filter pass.
- `Aggregations` (aggregations.dfy): the constant aggregations.
- `OfferService` (store.dfy): the store class, with `InsertAll`, `ClearAll`
  and the search `GetOffers`.

The store is a class whose `offers: seq<Offer>` field the methods reassign.
The search copies the filtered list into an array and sorts it in place, as
`list.sort` does. The other steps are functions, each with lemmas.

**Where the code and the design description differ, the model follows the
code:**

- The design describes region, time-window, price, seat, car-type,
  insurance and free-kilometre filters. It also describes faceted
  histograms. The code implements none of them: `matches_filters` returns
  `True` and `compute_aggregations` returns constants. The model does the
  same.
- The design says a page number or page size of zero or less gives an
  empty page. The code has no such check, and Python's slice rules apply.
  With `pageSize < 0`, page 1 is the whole list minus its last `-pageSize`
  offers (`Pagination.NegativePageSize`). A negative page number with a
  positive size reads a block counted from the end of the list
  (`Pagination.NegativePage`). Page 0 and page size 0 do give an empty page
  (`Pagination.PageZero`, `Pagination.PageSizeZero`).

## Model

| member | source | states |
|---|---|---|
| `OfferService.OfferStore.constructor` | main.py:61 | the store starts empty |
| `OfferService.OfferStore.InsertAll` | main.py:80-81 | the batch is appended at the end in its order; earlier offers are unchanged and stay where they were; the length grows by exactly the batch size |
| `OfferService.OfferStore.ClearAll` | main.py:161 | the store is empty afterwards, whatever it held, so clearing twice equals clearing once |
| `OfferService.OfferStore.GetOffers` | main.py:105-156 | the returned page is the projection of the Python slice of a sorted permutation of the stored offers; sorted means ascending by (price, ID), or descending exactly when sortOrder is "price-desc"; with positive page and size the page has at most pageSize items; an empty store gives an empty page; aggregations are empty or zero; the store is not changed |
| `Filters.DropNone` | main.py:122 | every kept entry comes from an entry of the input with a present value; the result is no longer than the input |
| `Filters.DropNoneGet` | main.py:122 | for a dictionary with distinct keys, looking up a key after None-removal gives its value when the value was present, and "missing" when it was None or absent |
| `Filters.DropNoneDistinct` | main.py:122 | None-removal keeps the keys distinct |
| `Filters.OptionalFiltersExact` | main.py:112-122 | after None-removal the optional-filter dictionary holds exactly the filters whose argument was not None, each with the caller's value, each key once |
| `Filters.FilterOffersKeepsAll` | main.py:125 | since every offer passes `matches_filters`, the filtered list equals the store contents in store order |
| `Ordering.StrLeIsLexicographic` | main.py:129 | the string comparison in the sort key equals the textbook lexicographic order: a prefix comes first, otherwise the first differing code point decides |
| `Ordering.StrLeReflexive` | main.py:129 | every ID compares less-or-equal to itself |
| `Ordering.StrLeTotal` | main.py:129 | any two IDs are comparable |
| `Ordering.StrLeAntisymmetric` | main.py:129 | two IDs that are each less-or-equal to the other are equal |
| `Ordering.StrLeTransitive` | main.py:129 | the ID comparison is transitive |
| `Ordering.KeyLeTotal` | main.py:129 | any two offers are comparable by (price, ID) |
| `Ordering.KeyLeTransitive` | main.py:129 | the (price, ID) comparison is transitive |
| `Ordering.KeyLeAntisymmetric` | main.py:129 | offers that are each before the other have the same price and the same ID |
| `Ordering.InOrderTotal` | main.py:128-129 | in either sort direction, one of any two offers may precede the other |
| `Ordering.InOrderTransitive` | main.py:128-129 | in either sort direction, the order is transitive |
| `Ordering.SortedPairwise` | main.py:128-129 | a list whose adjacent pairs are in order has every earlier offer in order with every later one |
| `Ordering.SortedPermutationsAgree` | main.py:128-129 | two sorted arrangements of the same offers have the same (price, ID) key at every position, so the sort result is determined up to offers that share both price and ID |
| `Sorting.SortOffers` | main.py:128-129 | after the in-place sort every adjacent pair satisfies (a.price, a.ID) <= (b.price, b.ID), or >= for the reversed sort; the array holds the same offers as before |
| `Pagination.SliceNonNegative` | main.py:134 | a Python slice with non-negative bounds is the window between the two bounds, each clamped to the list length |
| `Pagination.PageWindow` | main.py:132-134 | for page >= 1 and pageSize >= 1 the page is the list from (page-1)*pageSize up to min(len, (page-1)*pageSize + pageSize); it has at most pageSize offers, exactly pageSize when the list reaches the page end, and is empty exactly when it starts at or past the end |
| `Pagination.PagesUpToIsPrefix` | main.py:132-134 | pages 1 to n laid end to end are exactly the first n*pageSize offers (or the whole list), so consecutive pages neither overlap nor leave gaps |
| `Pagination.ConsecutivePages` | main.py:132-134 | page p followed by page p+1 is the window of 2*pageSize offers starting where page p starts |
| `Pagination.PageLocates` | main.py:132-134 | the offer at index i is on page i / pageSize + 1, at position i % pageSize |
| `Pagination.PageZero` | main.py:132-134 | page 0 with a positive size is empty |
| `Pagination.NegativePage` | main.py:132-134 | a negative page with a positive size is the block of the list counted from its end, as Python's negative slice bounds give |
| `Pagination.PageSizeZero` | main.py:132-134 | page size 0 gives an empty page |
| `Pagination.NegativePageSize` | main.py:132-134 | a negative page size gives an empty page, except on page 1, which is the list without its last -pageSize offers |
| `OfferModel.ToSearchResults` | main.py:137-139 | the result list has one item per paginated offer, in the same order, carrying exactly that offer's ID and data |
| `OfferModel.ToSearchResultsAppend` | main.py:137-139 | projecting two adjacent pages gives the projection of their concatenation |
| `Aggregations.ComputeAggregations` | main.py:169-188 | whatever the arguments: empty price-range, seat-count and free-kilometre lists, all four car-type counts zero, both vollkasko counts zero |

## Left out

- The web framework, routes, `Query(...)` declarations and their regex checks, model validation and the HTTP 500 wrapping: transport and library plumbing. The sort direction is "descending exactly when `sortOrder` is `price-desc`", which is what the code computes. The regex that rejects other values is not modelled.
- Loading `regions.json` and the message printed when it is missing: file I/O. Nothing else reads the loaded data.
- Encoding of the response objects: they are plain records here.
- The contents of the base64 `data` payload: an opaque string that is carried and never inspected.
- The conversion of each offer to a dictionary before it is stored: the model stores the same fields as a record.
- Concurrent requests against the shared store: the model runs each operation on its own.
- Sorting.SortOffers: does not state that offers with the same price and the same ID keep their store order. Python's sort is stable, also with `reverse=True`. The model proves only sorted plus permutation. `Ordering.SortedPermutationsAgree` shows that the key at each position is fixed even so.
- Sorting.SortOffers: Python's sort algorithm (Timsort) is a library routine. The model sorts in place by insertion into an array and proves the same result property.
- OfferService.OfferStore.GetOffers: states the sorted list only up to the stability point above, through its ghost out-parameter `sorted`.
- Unicode: Python compares strings by code point. The model compares Dafny `char` values, which are Unicode scalar values, so lone surrogates in IDs are not represented.
- Integer widths: the `int64` comments on the timestamps do not limit anything in the code. Python integers are unbounded, and so are the model's.
