/** Route extraction: `get_route` and `get_all_flights` (airflights/data_analysis.py). */
module Routes {
  import opened Wrappers
  import opened Feed

  /** The exceptions the Python code lets escape, by kind. */
  datatype Error =
    | AttributeError(detail: string)  // an attribute read on None (a missing element)
    | KeyError(key: string)           // a missing dictionary key or XML attribute
    | TypeError(detail: string)       // float() of None
    | ValueError(detail: string)      // float() of text that is not a number

  /** One leg's field dictionary: tag to stripped text. */
  type Leg = map<string, string>

  /** The `Price` block of a route. TicketPrice is the charge's text as it stands
      (unstripped, None when the element has no text). */
  datatype Price = Price(ticketPrice: Option<string>, currency: string)

  /** A route dictionary. Key n of `legs` stands for the dictionary key `flight{n}`,
      `price` for the key `Price` and `totalTime` for `TotalTravelTime`; a None field
      is a key the dictionary does not have. */
  datatype Route = Route(legs: map<nat, Leg>, price: Option<Price>, totalTime: Option<nat>)

  function Lookup(m: Leg, key: string): Option<string>
  {
    if key in m then Some(m[key]) else None
  }

  /** Whether the inner loop of `get_route` stores element `e`. */
  predicate Stored(e: Element)
  {
    e.tag != FlightTag && e.text.Some?
  }

  /** The leg dictionary built from the elements of one `Flight`, in document order:
      a later element with the same tag overwrites an earlier one. */
  function LegFields(elems: seq<Element>): Leg
  {
    if elems == [] then map[]
    else
      var m := LegFields(elems[..|elems| - 1]);
      var e := elems[|elems| - 1];
      if Stored(e) then m[e.tag := Strip(e.text.value)] else m
  }

  /** A tag is a key of the leg exactly when some stored element carries it. */
  lemma {:induction false} LegFieldsKeys(elems: seq<Element>, k: string)
    ensures k in LegFields(elems) <==> exists i :: 0 <= i < |elems| && Stored(elems[i]) && elems[i].tag == k
  {
    if elems != [] {
      var init := elems[..|elems| - 1];
      LegFieldsKeys(init, k);
      if exists i :: 0 <= i < |init| && Stored(init[i]) && init[i].tag == k {
        var i :| 0 <= i < |init| && Stored(init[i]) && init[i].tag == k;
        assert elems[i] == init[i];
      }
      if exists i :: 0 <= i < |elems| && Stored(elems[i]) && elems[i].tag == k {
        var i :| 0 <= i < |elems| && Stored(elems[i]) && elems[i].tag == k;
        if i < |init| {
          assert init[i] == elems[i];
        }
      }
    }
  }

  /** The value stored under a tag is the stripped text of the last stored element with
      that tag: later elements overwrite earlier ones. */
  lemma {:induction false} LegFieldsLastWins(elems: seq<Element>, i: nat)
    requires i < |elems| && Stored(elems[i])
    requires forall j :: i < j < |elems| && Stored(elems[j]) ==> elems[j].tag != elems[i].tag
    ensures elems[i].tag in LegFields(elems)
    ensures LegFields(elems)[elems[i].tag] == Strip(elems[i].text.value)
  {
    var init := elems[..|elems| - 1];
    if i < |init| {
      assert init[i] == elems[i];
      forall j | i < j < |init| && Stored(init[j]) ensures init[j].tag != init[i].tag {
        assert init[j] == elems[j];
      }
      LegFieldsLastWins(init, i);
    }
  }

  /** The first `ServiceCharges` with ChargeType "TotalAmount" among the charges of
      one pricing block. */
  function FirstTotalAmount(charges: seq<ServiceCharge>): (c: Option<ServiceCharge>)
    ensures c.Some? ==> c.value in charges && c.value.chargeType == Some(TotalAmount)
    ensures c.None? ==> forall j :: 0 <= j < |charges| ==> charges[j].chargeType != Some(TotalAmount)
    ensures c.Some? ==> exists j :: 0 <= j < |charges| && c.value == charges[j]
                          && forall j' :: 0 <= j' < j ==> charges[j'].chargeType != Some(TotalAmount)
  {
    if charges == [] then None
    else if charges[0].chargeType == Some(TotalAmount) then Some(charges[0])
    else
      var c := FirstTotalAmount(charges[1..]);
      assert c.Some? ==> exists j :: 0 <= j < |charges| && c.value == charges[j]
                           && forall j' :: 0 <= j' < j ==> charges[j'].chargeType != Some(TotalAmount) by {
        if c.Some? {
          var j :| 0 <= j < |charges[1..]| && c.value == charges[1..][j]
                   && forall j' :: 0 <= j' < j ==> charges[1..][j'].chargeType != Some(TotalAmount);
          assert c.value == charges[j + 1];
          forall j' | 0 <= j' < j + 1 ensures charges[j'].chargeType != Some(TotalAmount) {
            if j' > 0 {
              assert charges[j'] == charges[1..][j' - 1];
            }
          }
        }
      }
      c
  }

  /** `find('../../Pricing/ServiceCharges[@ChargeType="TotalAmount"]')`: the first
      matching charge, pricing block by pricing block, in document order. */
  function FindTotalAmount(pricing: seq<Pricing>): (c: Option<ServiceCharge>)
    ensures c.Some? ==> |pricing| > 0 && c.value.chargeType == Some(TotalAmount)
    ensures c.None? ==> forall i, j :: 0 <= i < |pricing| && 0 <= j < |pricing[i].charges|
                          ==> pricing[i].charges[j].chargeType != Some(TotalAmount)
    ensures c.Some? ==> exists i :: 0 <= i < |pricing| && c == FirstTotalAmount(pricing[i].charges)
                          && forall i' :: 0 <= i' < i ==> FirstTotalAmount(pricing[i'].charges).None?
  {
    if pricing == [] then None
    else match FirstTotalAmount(pricing[0].charges)
      case Some(c) => Some(c)
      case None =>
        var c := FindTotalAmount(pricing[1..]);
        assert c.Some? ==> exists i :: 0 <= i < |pricing| && c == FirstTotalAmount(pricing[i].charges)
                             && forall i' :: 0 <= i' < i ==> FirstTotalAmount(pricing[i'].charges).None? by {
          if c.Some? {
            var i :| 0 <= i < |pricing[1..]| && c == FirstTotalAmount(pricing[1..][i].charges)
                     && forall i' :: 0 <= i' < i ==> FirstTotalAmount(pricing[1..][i'].charges).None?;
            assert pricing[i + 1] == pricing[1..][i];
            forall i' | 0 <= i' < i + 1 ensures FirstTotalAmount(pricing[i'].charges).None? {
              if i' > 0 {
                assert pricing[i'] == pricing[1..][i' - 1];
              }
            }
          }
        }
        c
  }

  /** The `Price` block: TicketPrice is the text of the TotalAmount charge, Currency the
      `currency` attribute of the first pricing block. No TotalAmount charge makes
      `.text` fail on None; a block without the attribute makes `attrib['currency']` fail. */
  function PriceOf(pricing: seq<Pricing>): (r: Result<Price, Error>)
    ensures r.Success? <==> FindTotalAmount(pricing).Some? && pricing[0].currency.Some?
    ensures r.Success? ==> r.value.ticketPrice == FindTotalAmount(pricing).value.text
                           && Some(r.value.currency) == pricing[0].currency
  {
    match FindTotalAmount(pricing)
    case None => Failure(AttributeError("'NoneType' object has no attribute 'text'"))
    case Some(c) =>
      match pricing[0].currency
      case None => Failure(KeyError("currency"))
      case Some(cur) => Success(Price(c.text, cur))
  }

  /** The legs `flight1` .. `flight{n}` of the first n `Flight` elements. */
  function LegsUpTo(flights: seq<FlightNode>, n: nat): (m: map<nat, Leg>)
    requires n <= |flights|
    ensures forall k :: k in m <==> 1 <= k <= n
    ensures forall k :: 1 <= k <= n ==> m[k] == LegFields(flights[k - 1].elems)
  {
    if n == 0 then map[] else LegsUpTo(flights, n - 1)[n := LegFields(flights[n - 1].elems)]
  }

  /** The route `get_route` builds for one itinerary: the price is attached inside the
      leg loop, so it is looked up, and can fail, only when there is a leg. */
  function RouteOf(it: Itinerary): Result<Route, Error>
  {
    if |it.flights| == 0 then Success(Route(map[], None, None))
    else
      match PriceOf(it.pricing)
      case Failure(e) => Failure(e)
      case Success(p) => Success(Route(LegsUpTo(it.flights, |it.flights|), Some(p), None))
  }

  /** `get_route`: number the `Flight` elements 1, 2, ... in document order, collect each
      one's stored fields, and attach the Price block while doing so. */
  method GetRoute(it: Itinerary) returns (r: Result<Route, Error>)
    ensures r.Failure? <==> |it.flights| > 0 && PriceOf(it.pricing).Failure?
    ensures r.Failure? ==> r.error == PriceOf(it.pricing).error
    ensures r.Success? ==>
              && (forall k :: k in r.value.legs <==> 1 <= k <= |it.flights|)
              && (forall k :: 1 <= k <= |it.flights| ==> r.value.legs[k] == LegFields(it.flights[k - 1].elems))
              && (r.value.price.Some? <==> |it.flights| > 0)
              && (r.value.price.Some? ==> r.value.price == Some(PriceOf(it.pricing).value))
              && r.value.totalTime.None?
    ensures r == RouteOf(it)
  {
    var legs: map<nat, Leg> := map[];
    var price: Option<Price> := None;
    var order := 0;
    while order < |it.flights|
      invariant 0 <= order <= |it.flights|
      invariant legs == LegsUpTo(it.flights, order)
      invariant order == 0 ==> price.None?
      invariant order > 0 ==> PriceOf(it.pricing).Success? && price == Some(PriceOf(it.pricing).value)
    {
      var flight := it.flights[order];
      var direction: Leg := map[];
      order := order + 1;
      for j := 0 to |flight.elems|
        invariant direction == LegFields(flight.elems[..j])
      {
        var elem := flight.elems[j];
        assert flight.elems[..j + 1][..j] == flight.elems[..j];
        if elem.tag == FlightTag {
          continue;
        }
        if elem.text.Some? {
          direction := direction[elem.tag := Strip(elem.text.value)];
        }
      }
      assert flight.elems[..|flight.elems|] == flight.elems;
      legs := legs[order := direction];
      var p := PriceOf(it.pricing);
      if p.Failure? {
        return Failure(p.error);
      }
      price := Some(p.value);
    }
    r := Success(Route(legs, price, None));
  }

  /** `add_total_travel_time`: the route with its TotalTravelTime key set. How the time
      is computed lies outside this model, so it is a parameter. */
  function Annotate(route: Route, travelTime: Route -> nat): Route
  {
    route.(totalTime := Some(travelTime(route)))
  }

  /** One raw route per itinerary, in document order; the first itinerary whose
      `get_route` raises makes the whole extraction raise. */
  function ExtractRoutes(its: seq<Itinerary>): Result<seq<Route>, Error>
  {
    if its == [] then Success([])
    else
      match ExtractRoutes(its[..|its| - 1])
      case Failure(e) => Failure(e)
      case Success(rs) =>
        match RouteOf(its[|its| - 1])
        case Failure(e) => Failure(e)
        case Success(route) => Success(rs + [route])
  }

  /** `get_all_flights`: extract every itinerary, then annotate every route. */
  function AllFlights(doc: Document, travelTime: Route -> nat): Result<seq<Route>, Error>
  {
    match ExtractRoutes(doc.itineraries)
    case Failure(e) => Failure(e)
    case Success(rs) => Success(seq(|rs|, i requires 0 <= i < |rs| => Annotate(rs[i], travelTime)))
  }

  /** Extraction succeeds exactly when every itinerary's route does, and then yields
      one route per itinerary, in document order. */
  lemma {:induction false} ExtractRoutesSpec(its: seq<Itinerary>)
    ensures ExtractRoutes(its).Success? <==> forall i :: 0 <= i < |its| ==> RouteOf(its[i]).Success?
    ensures ExtractRoutes(its).Success? ==>
              |ExtractRoutes(its).value| == |its|
              && forall i :: 0 <= i < |its| ==> ExtractRoutes(its).value[i] == RouteOf(its[i]).value
  {
    if its != [] {
      var init := its[..|its| - 1];
      ExtractRoutesSpec(init);
      assert forall i :: 0 <= i < |init| ==> init[i] == its[i];
    }
  }

  /** `get_all_flights` returns exactly one annotated route per itinerary, in document
      order, or fails exactly when some itinerary has legs but no usable price. */
  lemma AllFlightsSpec(doc: Document, travelTime: Route -> nat)
    ensures AllFlights(doc, travelTime).Success? <==>
              forall i :: 0 <= i < |doc.itineraries| ==>
                |doc.itineraries[i].flights| == 0 || PriceOf(doc.itineraries[i].pricing).Success?
    ensures AllFlights(doc, travelTime).Success? ==>
              var fs := AllFlights(doc, travelTime).value;
              && |fs| == |doc.itineraries|
              && forall i :: 0 <= i < |fs| ==>
                   fs[i] == Annotate(RouteOf(doc.itineraries[i]).value, travelTime)
                   && fs[i].totalTime.Some?
                   && (1 in fs[i].legs <==> |doc.itineraries[i].flights| > 0)
  {
    ExtractRoutesSpec(doc.itineraries);
  }

  /** `get_all_flights` as the loop that appends `get_route` of each itinerary, followed
      by the annotation of every route. */
  method GetAllFlights(doc: Document, travelTime: Route -> nat) returns (r: Result<seq<Route>, Error>)
    ensures r == AllFlights(doc, travelTime)
  {
    var its := doc.itineraries;
    var all: seq<Route> := [];
    for i := 0 to |its|
      invariant ExtractRoutes(its[..i]) == Success(all)
    {
      var route := GetRoute(its[i]);
      assert its[..i + 1][..i] == its[..i];
      if route.Failure? {
        assert ExtractRoutes(its[..i + 1]).Failure?;
        ExtractFailurePersists(its, i + 1);
        return Failure(route.error);
      }
      all := all + [route.value];
    }
    assert its[..|its|] == its;
    r := Success(seq(|all|, k requires 0 <= k < |all| => Annotate(all[k], travelTime)));
  }

  /** Once a prefix of the itineraries fails to extract, so does the whole feed, with
      the same error. */
  lemma {:induction false} ExtractFailurePersists(its: seq<Itinerary>, n: nat)
    requires n <= |its| && ExtractRoutes(its[..n]).Failure?
    ensures ExtractRoutes(its) == ExtractRoutes(its[..n])
    decreases |its| - n
  {
    if n < |its| {
      assert its[..n + 1][..n] == its[..n];
      ExtractFailurePersists(its, n + 1);
    } else {
      assert its[..n] == its;
    }
  }
}
