# airflights query core in Dafny

This project models the query logic of `airflights/data_analysis.py`. That code reads a
flight-itinerary feed and answers these queries:

- **Route extraction** (`get_route`, `get_all_flights`). Each `OnwardPricedItinerary/Flights`
  element becomes one route dictionary. Its `Flight` elements become legs under the keys
  `flight1`, `flight2`, … in document order. Each leg maps a tag to stripped text. The route
  also gets a `Price` block with TicketPrice and Currency.
- **Sorting** (`get_flights_sorted_price`, `get_flights_sorted_time`). These are stable sorts
  on the ticket price or on TotalTravelTime, with a `reverse` flag.
- **Direction filter** (`get_flights_filtered_direction`). It keeps the routes whose
  `flight1` Source and whose final Destination match.
- **Route summaries** (`get_all_routes`). Each route becomes Source / Transfer / Destination.
  The call returns either the distinct summaries or the set of airports they mention.
- **Optimal routes** (`get_optimal_route`). It filters, sorts by time and by price, weighs,
  sorts the pairs by weight and keeps the first `count`.

Files and modules:

- `wrappers.dfy` (`Wrappers`): `Option` and `Result`.
- `feed.dfy` (`Feed`): the feed as plain data (`Document`, `Itinerary`, `FlightNode`,
  `Element`, `Pricing`, `ServiceCharge`), plus Python's `str.strip`.
- `routes.dfy` (`Routes`): `Route`, `Price`, `Error`, `get_route` and `get_all_flights`.
- `sorting.dfy` (`Sorting`): Python's `sorted(…, key=…, reverse=…)` as a stable insertion sort.
  It is proved ordered, a permutation and stable. It is also proved to be the only stable
  ordering of its input.
- `queries.dfy` (`Queries`): the price and time sorts, the direction filter and `get_all_routes`.
- `ranking.dfy` (`Ranking`): `get_optimal_route`.

How the Python values are represented:

- A route dictionary is the record `Route(legs, price, totalTime)`. Key `n` of `legs` stands
  for the dictionary key `flight{n}`. The string format is injective and never yields
  `Price` or `TotalTravelTime`, so a number is enough. A `None` field is a key the
  dictionary does not have.
- An exception the code lets escape is `Failure(e)` with `e` one of `AttributeError`,
  `KeyError`, `TypeError` or `ValueError`. Each stands for the Python exception of that name
  at the spot that raises it. `.text` on a missing `find` result is an `AttributeError`.
  `attrib['currency']` and `flight['Price']` are `KeyError`s. `float(None)` is a `TypeError`
  and `float('abc')` is a `ValueError`.
- Loops that append to a list are methods with `while`/`for` loops. `GetRoute`,
  `GetAllFlights`, `GetFlightsFilteredDirection` and `GetOptimalRoute` are each proved equal
  to a function of their input (`RouteOf`, `AllFlights`, `FilteredDirection` and
  `OptimalRoute`). Those functions are built on the recursive `ExtractRoutes` and
  `KeepDirection`. The loop of `GetAllRoutes` keeps the invariant that it has built
  `SummariesOf` of the routes seen so far. Its `ensures` states the result in terms of
  `SummariesOf`. The lemmas state what these functions mean. The sorts and the
  set/generator expressions of the source are functions.

Where the code and its description differ, the model follows the code:

- An itinerary with no `Flight` element gives a route with no legs and no `Price`. Its
  pricing is never looked up, so it cannot raise. Later, the direction filter and
  `get_all_routes` raise on such a route because `flight.get('flight1')` is None.
- The filter compares the Destination of `flight2` whenever that leg is a non-empty
  dictionary. Otherwise it uses `flight1`. For a route of three or more legs that is not the
  last leg.
- The filter tests `flight2` by truthiness, but `get_all_routes` tests it with `is None`.
  A present but empty `flight2` is therefore ignored by the filter. `get_all_routes` treats
  it as a transfer leg with Destination None. `SummaryMatchesDirection` states when the two
  agree.
- TicketPrice is the charge's raw text. It is not stripped, and it is None when the element
  has no text.
- `count` is used as a Python slice bound. A negative `count` drops that many routes from the
  end (`TakePrefix`).

## Model

| member | source | states |
|---|---|---|
| `Feed.Strip` | airflights/data_analysis.py:46 | the result has no leading or trailing whitespace (Python's `str.isspace` set), is a contiguous slice of the input, and everything cut off on either side is whitespace |
| `Feed.StripIdempotent` | airflights/data_analysis.py:46 | stripping a stripped text changes nothing |
| `Routes.LegFieldsKeys` | airflights/data_analysis.py:42-46 | a tag is a key of a leg exactly when some element of that `Flight`, other than the `Flight` tag itself, carries it and has text |
| `Routes.LegFieldsLastWins` | airflights/data_analysis.py:42-46 | the value under a tag is the stripped text of the last stored element with that tag (later elements overwrite earlier ones) |
| `Routes.FirstTotalAmount` | airflights/data_analysis.py:51-53 | finds the first charge of the block, in document order, whose ChargeType is "TotalAmount" (every earlier charge has another type), and finds none only when no charge of the block has that type |
| `Routes.FindTotalAmount` | airflights/data_analysis.py:51-53 | finds the first TotalAmount charge in document order: the first such charge of the first pricing block that has one (every earlier block has none), and finds none only when no charge of any pricing block is a TotalAmount |
| `Routes.PriceOf` | airflights/data_analysis.py:50-55 | the Price block exists exactly when a TotalAmount charge exists and the first pricing block has a `currency` attribute; TicketPrice is that charge's text and Currency that attribute |
| `Routes.LegsUpTo` | airflights/data_analysis.py:38-48 | after n `Flight` elements the keys are exactly 1..n and key k holds the fields of the k-th element |
| `Routes.GetRoute` | airflights/data_analysis.py:25-57 | legs get the consecutive keys flight1..flightN in document order, each holding that element's fields; Price is present exactly when there is a leg; the call raises exactly when there is a leg and the pricing lookup fails, with that lookup's error |
| `Routes.ExtractRoutesSpec` | airflights/data_analysis.py:16-20 | extraction succeeds exactly when every itinerary's `get_route` does, and then gives one route per itinerary in document order |
| `Routes.AllFlightsSpec` | airflights/data_analysis.py:10-22 | `get_all_flights` fails exactly when some itinerary has a leg but no usable price; otherwise it returns as many routes as itineraries (the 200 the test expects for 200 itineraries), the i-th being the i-th itinerary's route with a travel time, holding `flight1` exactly when that itinerary has a `Flight` |
| `Routes.GetAllFlights` | airflights/data_analysis.py:10-22 | the append loop followed by the annotation returns exactly `AllFlights`, including its error |
| `Routes.ExtractFailurePersists` | airflights/data_analysis.py:19-20 | once one itinerary raises, the whole extraction raises that error |
| `Sorting.Sort` | airflights/data_analysis.py:72-76 | the sorted list is a permutation of the input |
| `Sorting.SortSorted` | airflights/data_analysis.py:72-76 | keys come out non-decreasing, or non-increasing with `reverse` |
| `Sorting.SortStable` | airflights/data_analysis.py:72-76 | for every key, the elements with that key come out in their input order, also with `reverse` |
| `Sorting.SortOfSorted` | airflights/data_analysis.py:72-76 | an already ordered list is returned unchanged |
| `Sorting.SortIdempotent` | airflights/data_analysis.py:72-76 | sorting a sorted result again changes nothing |
| `Sorting.StableSortUnique` | airflights/data_analysis.py:72-76 | two ordered lists with the same elements per key, in the same order, are equal |
| `Sorting.SortReverse` | airflights/data_analysis.py:72-76 | when no two elements share a key, `reverse=True` returns exactly the `reverse=False` output read from the back |
| `Sorting.SortReverseSameElements` | airflights/data_analysis.py:72-76 | whatever the keys, the `reverse=True` output and the reversed `reverse=False` output hold the same elements |
| `Sorting.SortIsTheStableSort` | airflights/data_analysis.py:72-76 | any ordered, stable rearrangement of the input equals the model's sort, so the model returns what a stable sort such as Python's `sorted` returns |
| `Queries.FirstKeyError` | airflights/data_analysis.py:72-76 | the sort raises exactly when some element's key cannot be computed |
| `Queries.SortedByKeySpec` | airflights/data_analysis.py:72-76 | a keyed sort fails exactly when some key fails; otherwise it returns a permutation, ordered by key in the requested direction, stable per key |
| `Queries.SortedByPriceSpec` | airflights/data_analysis.py:60-76 | sorting by price fails exactly when some route lacks a Price block, a price text or a numeric price; otherwise it returns a permutation with prices non-decreasing (non-increasing with `reverse`) and equal prices in input order |
| `Queries.SortedByTimeSpec` | airflights/data_analysis.py:79-95 | sorting by time fails exactly when some route lacks TotalTravelTime; otherwise it returns a permutation with times non-decreasing (non-increasing with `reverse`) and equal times in input order |
| `Queries.SortedByPriceReverse` | airflights/data_analysis.py:60-76 | when every route has a usable price and no two prices are equal, both directions succeed and the descending result is exactly the ascending one read from the back |
| `Queries.SortedByTimeReverse` | airflights/data_analysis.py:79-95 | when every route has a travel time and no two times are equal, both directions succeed and the descending result is exactly the ascending one read from the back |
| `Queries.KeepDirectionSpec` | airflights/data_analysis.py:111-123 | the filter raises exactly when some route lacks `flight1`; otherwise each route matching Source and final Destination is kept exactly as often as it occurs, every other route is dropped, and the input order is kept |
| `Queries.GetFlightsFilteredDirection` | airflights/data_analysis.py:98-123 | the method (a fresh `get_all_flights`, then the append loop) returns exactly the filter of all flights, including its errors |
| `Queries.KeepFailurePersists` | airflights/data_analysis.py:111-112 | once a route without `flight1` is reached the filter raises, whatever follows |
| `Queries.FilteredDirectionFails` | airflights/data_analysis.py:108-112 | on an extracted feed the filter raises exactly when some itinerary has no `Flight` element |
| `Queries.SummariesOfSpec` | airflights/data_analysis.py:145-159 | summarising fails exactly when some route lacks `flight1`; otherwise there is one summary per route, in order, each the route's own summary |
| `Queries.AirportsOfMembers` | airflights/data_analysis.py:161-163 | an airport is in the set exactly when it is the Source, Transfer or Destination of some summary |
| `Queries.AirportsOfSameSet` | airflights/data_analysis.py:161-166 | the airport set depends only on which summaries occur, so duplicates do not change it |
| `Queries.Distinct` | airflights/data_analysis.py:165-166 | the result has no duplicates and holds exactly the summaries that occur |
| `Queries.GetAllRoutes` | airflights/data_analysis.py:126-166 | fails exactly when extraction or summarising fails; with `return_set_airports` it returns the union of all summary values; otherwise duplicate-free summaries that are exactly those of all flights, whose occurrence counts add up to the number of flights |
| `Queries.SummariesFailurePersists` | airflights/data_analysis.py:145-146 | once a route without `flight1` is reached, summarising raises, whatever follows |
| `Queries.RouteCountsMatchFlights` | tests/unit_tests/test_functions.py:80-93 | grouping the summaries of all flights by the distinct routes and adding up the group sizes gives the number of flights `get_all_flights` returns |
| `Queries.DistinctCountsSum` | tests/unit_tests/test_functions.py:80-93 | counting each distinct summary's occurrences and adding the counts gives the number of summaries, i.e. the number of flights |
| `Queries.SummaryMatchesDirection` | airflights/data_analysis.py:145-159 | when `flight2` is absent or non-empty, a summary's Source and Destination are exactly the pair the direction filter compares |
| `Queries.SummaryDirectionFound` | tests/unit_tests/test_functions.py:106-110 | filtering the flights by a listed route's Source and Destination keeps that route |
| `Ranking.TakePrefix` | airflights/data_analysis.py:192 | `[:count]` returns a prefix of length min(count, n) for count ≥ 0 and of length max(0, n + count) for negative count |
| `Ranking.Firsts` | airflights/data_analysis.py:192-193 | the flights of the pairs, one per pair, in order |
| `Ranking.SelectPairsSpec` | airflights/data_analysis.py:192 | for any weights: min(count, n) pairs for count ≥ 0, drawn from the input and all of it when count ≥ n, weights non-decreasing, and no pair left out weighs less than a pair taken |
| `Ranking.FirstsPermutation` | airflights/data_analysis.py:192-193 | rearranging the pairs rearranges their flights |
| `Ranking.GetOptimalRoute` | airflights/data_analysis.py:169-195 | the method (two filters, two sorts, the weights, the sort by weight, the append loop) returns exactly `OptimalRoute`, including errors |
| `Ranking.AppendFlights` | airflights/data_analysis.py:191-193 | the closing loop appends exactly the flights of the selected pairs, in their order |
| `Ranking.FilteredHaveTimes` | airflights/data_analysis.py:180-183 | every direction-filtered flight has a travel time and matches the direction, so the time sort cannot fail |
| `Ranking.RankFilteredSpec` | airflights/data_analysis.py:180-195 | with one pair per flight, ranking fails only on a flight without a usable price; otherwise it returns min(count, n) of the flights, each at most as often as it occurs, and all of them when count ≥ n |
| `Ranking.OptimalRouteSpec` | airflights/data_analysis.py:169-195 | with one pair per flight: fails exactly when the filter fails or a filtered flight has no usable price; otherwise at most `count` routes, all matching the direction, each at most as often as the filter returns it, all of them when fewer than `count` match, none when none match |

## Left out

- XML loading and navigation (`get_xml_tree`, `FILE_PATH`, `root.xpath`, `iter`, `find`) are lxml calls. The model replaces them with the `Document` datatype. It holds, per itinerary, what `iter('Flight')` / `iter('*')` yield and the `Pricing` elements that `../../Pricing` reaches.
- `float(...)` is the parameter `parse: string -> Option<real>`. Prices are compared as exact reals, so double rounding and NaN are not modelled.
- `add_total_travel_time` is the parameter `travelTime: Route -> nat` (minutes). Its body is not part of this model, nor is the round trip between a stored total and the leg durations.
- Routes.Annotate: assumes that `add_total_travel_time` never raises and changes nothing but the TotalTravelTime key. Its code (in `airflights/auxiliary_func.py`) is not part of this model. `Routes.AllFlightsSpec`, `Queries.FilteredDirectionFails` and everything built on `AllFlights` rely on this assumption.
- `get_flight_weights` is the parameter `weigh`. Its body, a rank-sum weighting, is not part of this model. `formatting_time` is not modelled.
- Ranking.OptimalRouteSpec: holds under `OnePairPerRoute(weigh)`, an assumption that `get_flight_weights` (in `airflights/auxiliary_func.py`, which is not part of this model) returns one pair per flight of the time-sorted list. A rank-sum weighting, which it is meant to compute, has that shape. Its code is outside the model, so the lemma does not cover other weightings.
- Ranking.RankFilteredSpec: holds under the same `OnePairPerRoute(weigh)` assumption, for the same reason.
- Queries.Distinct: the source's order is the iteration order of a Python set, which is unspecified. The contract therefore states the result only up to the set of elements, with no duplicates.
- The median checks of the optimal-route test depend on the data file and on the unseen weighting, so they are not stated.
- Exception messages are descriptive strings, not Python's exact texts. Only the exception kind is meant to be faithful.
