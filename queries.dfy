/** The query layer: `get_flights_sorted_price`, `get_flights_sorted_time`,
    `get_flights_filtered_direction` and `get_all_routes`
    (airflights/data_analysis.py). */
module Queries {
  import opened Wrappers
  import opened Feed
  import opened Routes
  import opened Sorting

  // ---------------------------------------------------------------------------
  // Sorting by price and by travel time

  /** The first element, in list order, whose key cannot be computed: `sorted` computes
      every key before comparing, so that element's error is the one raised. */
  function FirstKeyError<T>(xs: seq<T>, keyOf: T -> Result<real, Error>): (e: Option<Error>)
    ensures e.None? <==> forall i :: 0 <= i < |xs| ==> keyOf(xs[i]).Success?
  {
    if xs == [] then None
    else if keyOf(xs[0]).Failure? then Some(keyOf(xs[0]).error)
    else FirstKeyError(xs[1..], keyOf)
  }

  /** The comparison key once every key is known to exist. */
  function KeyFn<T>(keyOf: T -> Result<real, Error>): T -> real
  {
    x => if keyOf(x).Success? then keyOf(x).value else 0.0
  }

  /** `sorted(xs, key=keyOf, reverse=reverse)`. */
  function SortedByKey<T>(xs: seq<T>, keyOf: T -> Result<real, Error>, reverse: bool): Result<seq<T>, Error>
  {
    match FirstKeyError(xs, keyOf)
    case Some(e) => Failure(e)
    case None => Success(Sort(xs, KeyFn(keyOf), reverse))
  }

  lemma SortedByKeySucceeds<T>(xs: seq<T>, keyOf: T -> Result<real, Error>, reverse: bool)
    ensures SortedByKey(xs, keyOf, reverse).Success? <==> forall i :: 0 <= i < |xs| ==> keyOf(xs[i]).Success?
  {
  }

  lemma SortedByKeyPermutes<T>(xs: seq<T>, keyOf: T -> Result<real, Error>, reverse: bool)
    requires SortedByKey(xs, keyOf, reverse).Success?
    ensures multiset(SortedByKey(xs, keyOf, reverse).value) == multiset(xs)
  {
  }

  /** The keyed sort fails exactly when some key cannot be computed; otherwise it returns
      a permutation of its input, ordered by key in the requested direction, in which
      elements with equal keys keep their input order. */
  lemma SortedByKeySpec<T>(xs: seq<T>, keyOf: T -> Result<real, Error>, reverse: bool)
    ensures var r := SortedByKey(xs, keyOf, reverse);
            && (r.Success? <==> forall i :: 0 <= i < |xs| ==> keyOf(xs[i]).Success?)
            && (r.Success? ==>
                  && multiset(r.value) == multiset(xs)
                  && (forall i :: 0 <= i < |r.value| ==> keyOf(r.value[i]).Success?)
                  && (forall i, j :: 0 <= i < j < |r.value| ==>
                        InOrder(keyOf(r.value[i]).value, keyOf(r.value[j]).value, reverse))
                  && (forall k :: KeyClass(r.value, KeyFn(keyOf), k) == KeyClass(xs, KeyFn(keyOf), k)))
  {
    var r := SortedByKey(xs, keyOf, reverse);
    if r.Success? {
      SortSorted(xs, KeyFn(keyOf), reverse);
      forall k ensures KeyClass(r.value, KeyFn(keyOf), k) == KeyClass(xs, KeyFn(keyOf), k) {
        SortStable(xs, KeyFn(keyOf), reverse, k);
      }
      forall i | 0 <= i < |r.value| ensures keyOf(r.value[i]).Success? {
        assert r.value[i] in multiset(xs);
      }
    }
  }

  /** `float(flight['Price']['TicketPrice'])`. Python's float() is the parameter `parse`;
      None means the text is not a number. */
  function PriceKey(route: Route, parse: string -> Option<real>): Result<real, Error>
  {
    match route.price
    case None => Failure(KeyError("Price"))
    case Some(p) =>
      match p.ticketPrice
      case None => Failure(TypeError("float() argument must be a string or a number"))
      case Some(text) =>
        match parse(text)
        case None => Failure(ValueError("could not convert string to float"))
        case Some(v) => Success(v)
  }

  function PriceKeyOf(parse: string -> Option<real>): Route -> Result<real, Error>
  {
    route => PriceKey(route, parse)
  }

  /** `flight['TotalTravelTime']`. */
  function TimeKey(route: Route): Result<real, Error>
  {
    match route.totalTime
    case None => Failure(KeyError("TotalTravelTime"))
    case Some(t) => Success(t as real)
  }

  /** `get_flights_sorted_price`: a stable sort on the ticket price, ascending, or
      descending when `reverse`. */
  function SortedByPrice(flights: seq<Route>, reverse: bool, parse: string -> Option<real>): Result<seq<Route>, Error>
  {
    SortedByKey(flights, PriceKeyOf(parse), reverse)
  }

  /** Sorting by price fails exactly when some flight has no Price block, no price text
      or a text that is not a number; otherwise it returns the flights rearranged, prices
      non-decreasing (non-increasing with `reverse`), equal prices in input order. */
  lemma SortedByPriceSpec(flights: seq<Route>, reverse: bool, parse: string -> Option<real>)
    ensures var r := SortedByPrice(flights, reverse, parse);
            && (r.Success? <==> forall i :: 0 <= i < |flights| ==> PriceKey(flights[i], parse).Success?)
            && (r.Success? ==>
                  && multiset(r.value) == multiset(flights)
                  && (forall i :: 0 <= i < |r.value| ==> PriceKey(r.value[i], parse).Success?)
                  && (forall i, j :: 0 <= i < j < |r.value| ==>
                        InOrder(PriceKey(r.value[i], parse).value, PriceKey(r.value[j], parse).value, reverse))
                  && (forall k :: KeyClass(r.value, KeyFn(PriceKeyOf(parse)), k)
                                  == KeyClass(flights, KeyFn(PriceKeyOf(parse)), k)))
  {
    SortedByKeySpec(flights, PriceKeyOf(parse), reverse);
  }

  /** `get_flights_sorted_time`: a stable sort on TotalTravelTime, ascending, or
      descending when `reverse`. */
  function SortedByTime(flights: seq<Route>, reverse: bool): Result<seq<Route>, Error>
  {
    SortedByKey(flights, TimeKey, reverse)
  }

  /** Sorting by time fails exactly when some flight has no TotalTravelTime; otherwise it
      returns the flights rearranged, times non-decreasing (non-increasing with
      `reverse`), equal times in input order. */
  lemma SortedByTimeSpec(flights: seq<Route>, reverse: bool)
    ensures var r := SortedByTime(flights, reverse);
            && (r.Success? <==> forall i :: 0 <= i < |flights| ==> flights[i].totalTime.Some?)
            && (r.Success? ==>
                  && multiset(r.value) == multiset(flights)
                  && (forall i :: 0 <= i < |r.value| ==> r.value[i].totalTime.Some?)
                  && (forall i, j :: 0 <= i < j < |r.value| ==>
                        InOrder(r.value[i].totalTime.value as real, r.value[j].totalTime.value as real, reverse))
                  && (forall k :: KeyClass(r.value, KeyFn(TimeKey), k) == KeyClass(flights, KeyFn(TimeKey), k)))
  {
    SortedByKeySpec(flights, TimeKey, reverse);
    var r := SortedByTime(flights, reverse);
    assert forall i :: 0 <= i < |flights| ==> (TimeKey(flights[i]).Success? <==> flights[i].totalTime.Some?);
    if r.Success? {
      TimeOrder(r.value, reverse);
    }
  }

  /** With no two flights at the same travel time, `reverse=True` returns exactly the
      ascending order read from the back. */
  lemma SortedByTimeReverse(flights: seq<Route>)
    requires forall i :: 0 <= i < |flights| ==> flights[i].totalTime.Some?
    requires forall i, j :: 0 <= i < j < |flights| ==> flights[i].totalTime != flights[j].totalTime
    ensures SortedByTime(flights, false).Success? && SortedByTime(flights, true).Success?
    ensures SortedByTime(flights, true).value == Reverse(SortedByTime(flights, false).value)
  {
    SortedByKeySucceeds(flights, TimeKey, false);
    SortedByKeySucceeds(flights, TimeKey, true);
    var key := KeyFn(TimeKey);
    forall i, j | 0 <= i < j < |flights| ensures key(flights[i]) != key(flights[j]) {
      assert key(flights[i]) == flights[i].totalTime.value as real;
      assert key(flights[j]) == flights[j].totalTime.value as real;
    }
    SortReverse(flights, key);
  }

  /** With no two flights at the same price, `reverse=True` returns exactly the
      ascending order read from the back. */
  lemma SortedByPriceReverse(flights: seq<Route>, parse: string -> Option<real>)
    requires forall i :: 0 <= i < |flights| ==> PriceKey(flights[i], parse).Success?
    requires forall i, j :: 0 <= i < j < |flights| ==>
               PriceKey(flights[i], parse).value != PriceKey(flights[j], parse).value
    ensures SortedByPrice(flights, false, parse).Success? && SortedByPrice(flights, true, parse).Success?
    ensures SortedByPrice(flights, true, parse).value == Reverse(SortedByPrice(flights, false, parse).value)
  {
    SortedByKeySucceeds(flights, PriceKeyOf(parse), false);
    SortedByKeySucceeds(flights, PriceKeyOf(parse), true);
    var key := KeyFn(PriceKeyOf(parse));
    forall i, j | 0 <= i < j < |flights| ensures key(flights[i]) != key(flights[j]) {
      assert key(flights[i]) == PriceKey(flights[i], parse).value;
      assert key(flights[j]) == PriceKey(flights[j], parse).value;
    }
    SortReverse(flights, key);
  }

  /** Ordered by the time key is ordered by travel time. */
  lemma TimeOrder(rs: seq<Route>, reverse: bool)
    requires forall i :: 0 <= i < |rs| ==> TimeKey(rs[i]).Success?
    requires forall i, j :: 0 <= i < j < |rs| ==> InOrder(TimeKey(rs[i]).value, TimeKey(rs[j]).value, reverse)
    ensures forall i :: 0 <= i < |rs| ==> rs[i].totalTime.Some?
    ensures forall i, j :: 0 <= i < j < |rs| ==> InOrder(rs[i].totalTime.value as real, rs[j].totalTime.value as real, reverse)
  {
    forall i, j | 0 <= i < j < |rs|
      ensures InOrder(rs[i].totalTime.value as real, rs[j].totalTime.value as real, reverse)
    {
      assert InOrder(TimeKey(rs[i]).value, TimeKey(rs[j]).value, reverse);
    }
  }

  // ---------------------------------------------------------------------------
  // Filtering by direction

  /** The (Source, Destination) pair `get_flights_filtered_direction` compares: Source of
      `flight1`, Destination of `flight2` when that leg is present and non-empty (a truthy
      dictionary), else of `flight1`. A route without `flight1` raises. */
  function DirectionOf(route: Route): Result<(Option<string>, Option<string>), Error>
  {
    if 1 !in route.legs then Failure(AttributeError("'NoneType' object has no attribute 'get'"))
    else
      var first := route.legs[1];
      var last := if 2 in route.legs && |route.legs[2]| > 0 then route.legs[2] else first;
      Success((Lookup(first, "Source"), Lookup(last, "Destination")))
  }

  predicate Matches(route: Route, source: string, destination: string)
  {
    DirectionOf(route) == Success((Some(source), Some(destination)))
  }

  /** The filtering loop over a list of routes, as a function of its input. */
  function KeepDirection(flights: seq<Route>, source: string, destination: string): Result<seq<Route>, Error>
  {
    if flights == [] then Success([])
    else
      match KeepDirection(flights[..|flights| - 1], source, destination)
      case Failure(e) => Failure(e)
      case Success(kept) =>
        var f := flights[|flights| - 1];
        match DirectionOf(f)
        case Failure(e) => Failure(e)
        case Success(_) => Success(if Matches(f, source, destination) then kept + [f] else kept)
  }

  /** `a` is `b` with some elements left out, the rest in their order. */
  predicate IsSubsequence<T(==)>(a: seq<T>, b: seq<T>)
    decreases |b|
  {
    if a == [] then true
    else if b == [] then false
    else (a[|a| - 1] == b[|b| - 1] && IsSubsequence(a[..|a| - 1], b[..|b| - 1]))
         || IsSubsequence(a, b[..|b| - 1])
  }

  lemma {:induction false} KeepDirectionSucceeds(flights: seq<Route>, source: string, destination: string)
    ensures KeepDirection(flights, source, destination).Success? <==>
              forall i :: 0 <= i < |flights| ==> 1 in flights[i].legs
  {
    if flights != [] {
      var init := flights[..|flights| - 1];
      KeepDirectionSucceeds(init, source, destination);
      assert forall i :: 0 <= i < |init| ==> init[i] == flights[i];
    }
  }

  lemma {:induction false} KeepDirectionCounts(flights: seq<Route>, source: string, destination: string)
    requires KeepDirection(flights, source, destination).Success?
    ensures forall x :: multiset(KeepDirection(flights, source, destination).value)[x]
                        == if Matches(x, source, destination) then multiset(flights)[x] else 0
  {
    if flights != [] {
      var init := flights[..|flights| - 1];
      var f := flights[|flights| - 1];
      KeepDirectionCounts(init, source, destination);
      assert flights == init + [f];
      assert multiset(flights) == multiset(init) + multiset{f};
    }
  }

  lemma {:induction false} KeepDirectionInOrder(flights: seq<Route>, source: string, destination: string)
    requires KeepDirection(flights, source, destination).Success?
    ensures IsSubsequence(KeepDirection(flights, source, destination).value, flights)
  {
    if flights != [] {
      var init := flights[..|flights| - 1];
      var f := flights[|flights| - 1];
      KeepDirectionInOrder(init, source, destination);
      var kept := KeepDirection(init, source, destination).value;
      var r := KeepDirection(flights, source, destination).value;
      if Matches(f, source, destination) {
        assert r == kept + [f];
        assert r[..|r| - 1] == kept;
      } else {
        assert r == kept;
        SubsequenceExtend(kept, init, f);
        assert init + [f] == flights;
      }
    }
  }

  /** The filter is sound and complete: it raises exactly when some route lacks
      `flight1`; otherwise it keeps every matching route as often as it occurs, drops
      every other one, and keeps the input order. */
  lemma KeepDirectionSpec(flights: seq<Route>, source: string, destination: string)
    ensures KeepDirection(flights, source, destination).Success? <==>
              forall i :: 0 <= i < |flights| ==> 1 in flights[i].legs
    ensures KeepDirection(flights, source, destination).Success? ==>
              var kept := KeepDirection(flights, source, destination).value;
              && (forall x :: multiset(kept)[x] == if Matches(x, source, destination) then multiset(flights)[x] else 0)
              && IsSubsequence(kept, flights)
  {
    KeepDirectionSucceeds(flights, source, destination);
    if KeepDirection(flights, source, destination).Success? {
      KeepDirectionCounts(flights, source, destination);
      KeepDirectionInOrder(flights, source, destination);
    }
  }

  lemma SubsequenceExtend<T>(a: seq<T>, b: seq<T>, x: T)
    requires IsSubsequence(a, b)
    ensures IsSubsequence(a, b + [x])
  {
    assert (b + [x])[..|b|] == b;
  }

  /** `get_flights_filtered_direction` as a function of the feed: all flights, then the
      filter. */
  function FilteredDirection(doc: Document, travelTime: Route -> nat, source: string, destination: string): Result<seq<Route>, Error>
  {
    match AllFlights(doc, travelTime)
    case Failure(e) => Failure(e)
    case Success(flights) => KeepDirection(flights, source, destination)
  }

  /** `get_flights_filtered_direction`: re-extract every flight, then keep those whose
      first Source and last Destination match, by appending in a loop. */
  method GetFlightsFilteredDirection(doc: Document, travelTime: Route -> nat, source: string, destination: string)
    returns (r: Result<seq<Route>, Error>)
    ensures r == FilteredDirection(doc, travelTime, source, destination)
  {
    var all := GetAllFlights(doc, travelTime);
    if all.Failure? {
      return Failure(all.error);
    }
    var flights := all.value;
    var filtered: seq<Route> := [];
    for i := 0 to |flights|
      invariant KeepDirection(flights[..i], source, destination) == Success(filtered)
    {
      var flight := flights[i];
      KeepStep(flights, i, source, destination);
      if 1 !in flight.legs {
        KeepFailurePersists(flights, i + 1, source, destination);
        return Failure(AttributeError("'NoneType' object has no attribute 'get'"));
      }
      var sourceInFlight := Lookup(flight.legs[1], "Source");
      var secondFlight: Leg;
      if 2 in flight.legs && |flight.legs[2]| > 0 {
        secondFlight := flight.legs[2];
      } else {
        secondFlight := flight.legs[1];
      }
      assert Matches(flight, source, destination) <==>
               sourceInFlight == Some(source) && Lookup(secondFlight, "Destination") == Some(destination);
      if sourceInFlight == Some(source) {
        if Lookup(secondFlight, "Destination") == Some(destination) {
          filtered := filtered + [flight];
        }
      }
    }
    assert flights[..|flights|] == flights;
    r := Success(filtered);
  }

  /** One more route: the filter of the longer prefix extends the filter of the shorter. */
  lemma KeepStep(flights: seq<Route>, i: nat, source: string, destination: string)
    requires i < |flights|
    ensures KeepDirection(flights[..i + 1], source, destination)
            == match KeepDirection(flights[..i], source, destination)
               case Failure(e) => Failure(e)
               case Success(kept) =>
                 if 1 !in flights[i].legs then Failure(AttributeError("'NoneType' object has no attribute 'get'"))
                 else if Matches(flights[i], source, destination) then Success(kept + [flights[i]])
                 else Success(kept)
  {
    assert flights[..i + 1][..i] == flights[..i];
    assert flights[..i + 1][i] == flights[i];
  }

  lemma {:induction false} KeepFailurePersists(flights: seq<Route>, n: nat, source: string, destination: string)
    requires n <= |flights| && KeepDirection(flights[..n], source, destination).Failure?
    ensures KeepDirection(flights, source, destination) == KeepDirection(flights[..n], source, destination)
    decreases |flights| - n
  {
    if n < |flights| {
      assert flights[..n + 1][..n] == flights[..n];
      KeepFailurePersists(flights, n + 1, source, destination);
    } else {
      assert flights[..n] == flights;
    }
  }

  /** On the flights of a feed, the filter raises exactly when some itinerary has no
      `Flight` element at all. */
  lemma FilteredDirectionFails(doc: Document, travelTime: Route -> nat, source: string, destination: string)
    requires AllFlights(doc, travelTime).Success?
    ensures FilteredDirection(doc, travelTime, source, destination).Failure? <==>
              exists i :: 0 <= i < |doc.itineraries| && doc.itineraries[i].flights == []
  {
    AllFlightsSpec(doc, travelTime);
    var flights := AllFlights(doc, travelTime).value;
    KeepDirectionSpec(flights, source, destination);
    if exists i :: 0 <= i < |doc.itineraries| && doc.itineraries[i].flights == [] {
      var i :| 0 <= i < |doc.itineraries| && doc.itineraries[i].flights == [];
      assert 1 !in flights[i].legs;
    }
  }

  // ---------------------------------------------------------------------------
  // Route summaries and airports

  /** A route summary dictionary: `{Source, Destination}` for a direct route,
      `{Source, Transfer, Destination}` for a route with a `flight2` key. Values are None
      where the leg has no such field. */
  datatype Summary =
    | Direct(source: Option<string>, destination: Option<string>)
    | OneStop(source: Option<string>, transfer: Option<string>, destination: Option<string>)

  /** What `get_all_routes` returns: the distinct summaries, or the set of airports. */
  datatype AllRoutes = Summaries(routes: seq<Summary>) | Airports(codes: set<Option<string>>)

  /** The summary of one route. Here the test is `flight.get('flight2') is None`, so a
      present but empty `flight2` still makes a transfer route. */
  function SummaryOf(route: Route): Result<Summary, Error>
  {
    if 1 !in route.legs then Failure(AttributeError("'NoneType' object has no attribute 'get'"))
    else
      var first := route.legs[1];
      if 2 !in route.legs then Success(Direct(Lookup(first, "Source"), Lookup(first, "Destination")))
      else Success(OneStop(Lookup(first, "Source"), Lookup(first, "Destination"), Lookup(route.legs[2], "Destination")))
  }

  /** The summaries loop of `get_all_routes`, as a function of its input. */
  function SummariesOf(flights: seq<Route>): Result<seq<Summary>, Error>
  {
    if flights == [] then Success([])
    else
      match SummariesOf(flights[..|flights| - 1])
      case Failure(e) => Failure(e)
      case Success(sums) =>
        match SummaryOf(flights[|flights| - 1])
        case Failure(e) => Failure(e)
        case Success(sum) => Success(sums + [sum])
  }

  /** One summary per route, in order, or failure exactly when some route lacks
      `flight1`. */
  lemma {:induction false} SummariesOfSpec(flights: seq<Route>)
    ensures SummariesOf(flights).Success? <==> forall i :: 0 <= i < |flights| ==> 1 in flights[i].legs
    ensures SummariesOf(flights).Success? ==>
              |SummariesOf(flights).value| == |flights|
              && forall i :: 0 <= i < |flights| ==> SummariesOf(flights).value[i] == SummaryOf(flights[i]).value
  {
    if flights != [] {
      var init := flights[..|flights| - 1];
      SummariesOfSpec(init);
      assert forall i :: 0 <= i < |init| ==> init[i] == flights[i];
    }
  }

  /** The values of one summary dictionary. */
  function Codes(s: Summary): set<Option<string>>
  {
    match s
    case Direct(src, dst) => {src, dst}
    case OneStop(src, tr, dst) => {src, tr, dst}
  }

  /** `set(chain(*airports))`: the union of the values of all summaries. */
  function AirportsOf(sums: seq<Summary>): set<Option<string>>
  {
    if sums == [] then {} else AirportsOf(sums[..|sums| - 1]) + Codes(sums[|sums| - 1])
  }

  /** An airport is in the set exactly when it is the Source, Transfer or Destination of
      some summary. */
  lemma {:induction false} AirportsOfMembers(sums: seq<Summary>, a: Option<string>)
    ensures a in AirportsOf(sums) <==> exists i :: 0 <= i < |sums| && a in Codes(sums[i])
  {
    if sums != [] {
      var init := sums[..|sums| - 1];
      AirportsOfMembers(init, a);
      if exists i :: 0 <= i < |init| && a in Codes(init[i]) {
        var i :| 0 <= i < |init| && a in Codes(init[i]);
        assert sums[i] == init[i];
      }
      if exists i :: 0 <= i < |sums| && a in Codes(sums[i]) {
        var i :| 0 <= i < |sums| && a in Codes(sums[i]);
        if i < |init| {
          assert init[i] == sums[i];
        }
      }
    }
  }

  /** The airport set depends only on which summaries occur, so it is the same for the
      full list and for the deduplicated one. */
  lemma AirportsOfSameSet(xs: seq<Summary>, ys: seq<Summary>)
    requires forall s :: s in xs <==> s in ys
    ensures AirportsOf(xs) == AirportsOf(ys)
  {
    forall a ensures a in AirportsOf(xs) <==> a in AirportsOf(ys) {
      AirportsOfMembers(xs, a);
      AirportsOfMembers(ys, a);
      if exists i :: 0 <= i < |xs| && a in Codes(xs[i]) {
        var i :| 0 <= i < |xs| && a in Codes(xs[i]);
        assert xs[i] in ys;
      }
      if exists i :: 0 <= i < |ys| && a in Codes(ys[i]) {
        var i :| 0 <= i < |ys| && a in Codes(ys[i]);
        assert ys[i] in xs;
      }
    }
  }

  predicate NoDuplicates<T(==)>(s: seq<T>)
  {
    forall i, j :: 0 <= i < j < |s| ==> s[i] != s[j]
  }

  /** `[dict(route) for route in set(all_routes)]`: every distinct summary once, in the
      set's iteration order, which the model leaves unspecified. */
  method Distinct(sums: seq<Summary>) returns (r: seq<Summary>)
    ensures NoDuplicates(r)
    ensures forall s :: s in r <==> s in sums
  {
    var remaining := set s | s in sums;
    r := [];
    while remaining != {}
      invariant NoDuplicates(r)
      invariant forall s :: s in r ==> s !in remaining
      invariant forall s :: s in sums <==> s in r || s in remaining
      decreases remaining
    {
      var s :| s in remaining;
      r := r + [s];
      remaining := remaining - {s};
    }
  }

  /** `get_all_routes`: summarise every flight, then return either the distinct
      summaries or the set of airports they mention. */
  method GetAllRoutes(doc: Document, travelTime: Route -> nat, returnSetAirports: bool)
    returns (r: Result<AllRoutes, Error>)
    ensures r.Failure? <==> AllFlights(doc, travelTime).Failure?
                            || SummariesOf(AllFlights(doc, travelTime).value).Failure?
    ensures r.Success? ==>
              var sums := SummariesOf(AllFlights(doc, travelTime).value).value;
              if returnSetAirports then r.value == Airports(AirportsOf(sums))
              else r.value.Summaries?
                   && NoDuplicates(r.value.routes)
                   && (forall s :: s in r.value.routes <==> s in sums)
                   && SumCounts(r.value.routes, sums) == |AllFlights(doc, travelTime).value|
  {
    var all := GetAllFlights(doc, travelTime);
    if all.Failure? {
      return Failure(all.error);
    }
    var flights := all.value;
    var allRoutes: seq<Summary> := [];
    for i := 0 to |flights|
      invariant SummariesOf(flights[..i]) == Success(allRoutes)
    {
      var flight := flights[i];
      assert flights[..i + 1][..i] == flights[..i];
      assert flights[..i + 1][i] == flight;
      if 1 !in flight.legs {
        SummariesFailurePersists(flights, i + 1);
        return Failure(AttributeError("'NoneType' object has no attribute 'get'"));
      }
      var source := Lookup(flight.legs[1], "Source");
      var destination := Lookup(flight.legs[1], "Destination");
      if 2 !in flight.legs {
        allRoutes := allRoutes + [Direct(source, destination)];
      } else {
        allRoutes := allRoutes + [OneStop(source, destination, Lookup(flight.legs[2], "Destination"))];
      }
    }
    assert flights[..|flights|] == flights;
    if returnSetAirports {
      return Success(Airports(AirportsOf(allRoutes)));
    }
    var distinct := Distinct(allRoutes);
    RouteCountsMatchFlights(doc, travelTime, distinct);
    r := Success(Summaries(distinct));
  }

  lemma {:induction false} SummariesFailurePersists(flights: seq<Route>, n: nat)
    requires n <= |flights| && SummariesOf(flights[..n]).Failure?
    ensures SummariesOf(flights) == SummariesOf(flights[..n])
    decreases |flights| - n
  {
    if n < |flights| {
      assert flights[..n + 1][..n] == flights[..n];
      SummariesFailurePersists(flights, n + 1);
    } else {
      assert flights[..n] == flights;
    }
  }

  /** How many of `xs` each of `ds` stands for, summed over `ds`. */
  function SumCounts<T(==)>(ds: seq<T>, xs: seq<T>): nat
  {
    if ds == [] then 0 else multiset(xs)[ds[0]] + SumCounts(ds[1..], xs)
  }

  lemma {:induction false} SumCountsSnoc<T>(ds: seq<T>, xs: seq<T>, x: T)
    ensures SumCounts(ds, xs + [x]) == SumCounts(ds, xs) + multiset(ds)[x]
  {
    if ds != [] {
      SumCountsSnoc(ds[1..], xs, x);
      assert ds == [ds[0]] + ds[1..];
    }
  }

  lemma {:induction false} NoDuplicatesOnce<T>(ds: seq<T>, x: T)
    requires NoDuplicates(ds) && x in ds
    ensures multiset(ds)[x] == 1
  {
    assert ds == [ds[0]] + ds[1..];
    if ds[0] == x {
      assert x !in ds[1..];
    } else {
      NoDuplicatesOnce(ds[1..], x);
    }
  }

  /** Counting how often each distinct summary occurs and adding the counts up gives
      back the number of summaries, that is the number of flights. */
  lemma {:induction false} DistinctCountsSum<T>(ds: seq<T>, xs: seq<T>)
    requires NoDuplicates(ds)
    requires forall x :: x in xs ==> x in ds
    ensures SumCounts(ds, xs) == |xs|
  {
    if xs == [] {
      ZeroCounts(ds, xs);
    } else {
      var init := xs[..|xs| - 1];
      var x := xs[|xs| - 1];
      assert xs == init + [x];
      DistinctCountsSum(ds, init);
      SumCountsSnoc(ds, init, x);
      NoDuplicatesOnce(ds, x);
    }
  }

  /** Grouping the summaries of all flights by the distinct routes and adding up the
      group sizes gives the number of flights. */
  lemma RouteCountsMatchFlights(doc: Document, travelTime: Route -> nat, routes: seq<Summary>)
    requires AllFlights(doc, travelTime).Success?
    requires SummariesOf(AllFlights(doc, travelTime).value).Success?
    requires NoDuplicates(routes)
    requires forall s :: s in routes <==> s in SummariesOf(AllFlights(doc, travelTime).value).value
    ensures SumCounts(routes, SummariesOf(AllFlights(doc, travelTime).value).value)
            == |AllFlights(doc, travelTime).value|
  {
    var flights := AllFlights(doc, travelTime).value;
    SummariesOfSpec(flights);
    DistinctCountsSum(routes, SummariesOf(flights).value);
  }

  lemma {:induction false} ZeroCounts<T>(ds: seq<T>, xs: seq<T>)
    requires xs == []
    ensures SumCounts(ds, xs) == 0
  {
    if ds != [] {
      ZeroCounts(ds[1..], xs);
    }
  }

  /** On a route whose `flight2`, if any, is non-empty, the summary's Source and
      Destination are the pair the direction filter compares. */
  lemma SummaryMatchesDirection(route: Route)
    requires 1 in route.legs && (2 in route.legs ==> |route.legs[2]| > 0)
    ensures DirectionOf(route).Success? && SummaryOf(route).Success?
    ensures DirectionOf(route).value == (SummaryOf(route).value.source, SummaryOf(route).value.destination)
  {
  }

  /** Every listed route's direction finds that route: filtering the same flights by a
      summary's Source and Destination keeps the route it came from. */
  lemma SummaryDirectionFound(flights: seq<Route>, i: nat)
    requires i < |flights| && forall j :: 0 <= j < |flights| ==> 1 in flights[j].legs
    requires 2 in flights[i].legs ==> |flights[i].legs[2]| > 0
    requires SummaryOf(flights[i]).value.source.Some? && SummaryOf(flights[i]).value.destination.Some?
    ensures var s := SummaryOf(flights[i]).value;
            var kept := KeepDirection(flights, s.source.value, s.destination.value);
            kept.Success? && flights[i] in kept.value
  {
    var s := SummaryOf(flights[i]).value;
    SummaryMatchesDirection(flights[i]);
    KeepDirectionSpec(flights, s.source.value, s.destination.value);
    var kept := KeepDirection(flights, s.source.value, s.destination.value).value;
    assert flights[i] in multiset(flights);
    assert multiset(kept)[flights[i]] > 0;
  }
}
