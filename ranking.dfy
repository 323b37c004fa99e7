/** The route ranker: `get_optimal_route` (airflights/data_analysis.py). */
module Ranking {
  import opened Wrappers
  import opened Feed
  import opened Routes
  import opened Sorting
  import opened Queries

  /** A `(flight, weight)` pair as `get_flight_weights` returns them. */
  type Weighted = (Route, int)

  function Min(a: int, b: int): int { if a <= b then a else b }

  function Max(a: int, b: int): int { if a >= b then a else b }

  /** Python's `s[:count]`: a negative count drops that many elements from the end. */
  function TakePrefix<T>(s: seq<T>, count: int): (r: seq<T>)
    ensures count >= 0 ==> |r| == Min(count, |s|)
    ensures count < 0 ==> |r| == Max(0, |s| + count)
    ensures r == s[..|r|]
  {
    if count >= 0 then (if count <= |s| then s[..count] else s)
    else if |s| + count > 0 then s[..|s| + count]
    else []
  }

  function WeightOf(p: Weighted): real
  {
    p.1 as real
  }

  /** `sorted(flight_weights, key=lambda pair: pair[1])[:count]`. */
  function SelectPairs(pairs: seq<Weighted>, count: int): seq<Weighted>
  {
    TakePrefix(Sort(pairs, WeightOf, false), count)
  }

  /** The flights of a list of pairs, in order. */
  function Firsts<A, B>(pairs: seq<(A, B)>): (r: seq<A>)
    ensures |r| == |pairs| && forall i :: 0 <= i < |pairs| ==> r[i] == pairs[i].0
  {
    if pairs == [] then [] else [pairs[0].0] + Firsts(pairs[1..])
  }

  lemma SelectPairsSize(pairs: seq<Weighted>, count: int)
    ensures var r := SelectPairs(pairs, count);
            && (count >= 0 ==> |r| == Min(count, |pairs|))
            && (count < 0 ==> |r| == Max(0, |pairs| + count))
            && multiset(r) <= multiset(pairs)
            && (count >= |pairs| ==> multiset(r) == multiset(pairs))
  {
    var sorted := Sort(pairs, WeightOf, false);
    var r := SelectPairs(pairs, count);
    assert sorted == r + sorted[|r|..];
    assert multiset(sorted) == multiset(r) + multiset(sorted[|r|..]);
  }

  lemma SelectPairsOrdered(pairs: seq<Weighted>, count: int)
    ensures var r := SelectPairs(pairs, count);
            forall i, j :: 0 <= i < j < |r| ==> r[i].1 <= r[j].1
  {
    var sorted := Sort(pairs, WeightOf, false);
    SortSorted(pairs, WeightOf, false);
    var r := SelectPairs(pairs, count);
    forall i, j | 0 <= i < j < |r| ensures r[i].1 <= r[j].1 {
      assert r[i] == sorted[i] && r[j] == sorted[j];
      assert InOrder(WeightOf(sorted[i]), WeightOf(sorted[j]), false);
    }
  }

  lemma SelectPairsBest(pairs: seq<Weighted>, count: int)
    ensures var r := SelectPairs(pairs, count);
            forall x, y :: x in r && y in multiset(pairs) - multiset(r) ==> x.1 <= y.1
  {
    var sorted := Sort(pairs, WeightOf, false);
    SortSorted(pairs, WeightOf, false);
    var r := SelectPairs(pairs, count);
    var rest := sorted[|r|..];
    assert sorted == r + rest;
    assert multiset(sorted) == multiset(r) + multiset(rest);
    forall x, y | x in r && y in multiset(pairs) - multiset(r) ensures x.1 <= y.1 {
      var i :| 0 <= i < |r| && r[i] == x;
      assert y in multiset(rest);
      var j :| 0 <= j < |rest| && rest[j] == y;
      assert sorted[i] == x && sorted[|r| + j] == y;
      assert InOrder(WeightOf(sorted[i]), WeightOf(sorted[|r| + j]), false);
    }
  }

  /** The selection step holds for any weights: it returns the requested number of pairs
      (all of them when fewer exist), drawn from the input without repetition beyond the
      input's own, in non-decreasing weight, and no pair left out weighs less than a pair
      taken. */
  lemma SelectPairsSpec(pairs: seq<Weighted>, count: int)
    ensures var r := SelectPairs(pairs, count);
            && (count >= 0 ==> |r| == Min(count, |pairs|))
            && (count < 0 ==> |r| == Max(0, |pairs| + count))
            && multiset(r) <= multiset(pairs)
            && (count >= |pairs| ==> multiset(r) == multiset(pairs))
            && (forall i, j :: 0 <= i < j < |r| ==> r[i].1 <= r[j].1)
            && (forall x, y :: x in r && y in multiset(pairs) - multiset(r) ==> x.1 <= y.1)
  {
    SelectPairsSize(pairs, count);
    SelectPairsOrdered(pairs, count);
    SelectPairsBest(pairs, count);
  }

  lemma {:induction false} FirstsAppend<A, B>(a: seq<(A, B)>, b: seq<(A, B)>)
    ensures Firsts(a + b) == Firsts(a) + Firsts(b)
  {
    if a == [] {
      assert a + b == b;
    } else {
      assert (a + b)[1..] == a[1..] + b;
      FirstsAppend(a[1..], b);
    }
  }

  lemma SplitAt<T>(b: seq<T>, k: nat)
    requires k < |b|
    ensures b == b[..k] + [b[k]] + b[k + 1..]
  {
  }

  lemma RemoveAt<T>(b: seq<T>, k: nat)
    requires k < |b|
    ensures multiset(b[..k] + b[k + 1..]) == multiset(b) - multiset{b[k]}
  {
    calc {
      multiset(b);
      { SplitAt(b, k); }
      multiset(b[..k] + [b[k]] + b[k + 1..]);
      multiset(b[..k]) + multiset{b[k]} + multiset(b[k + 1..]);
      multiset(b[..k] + b[k + 1..]) + multiset{b[k]};
    }
  }

  /** Taking the pair at `k` out of a list takes its flight out of the flights. */
  lemma FirstsRemove<A, B>(b: seq<(A, B)>, k: nat)
    requires k < |b|
    ensures multiset(Firsts(b)) == multiset(Firsts(b[..k] + b[k + 1..])) + multiset{b[k].0}
  {
    var front, back := b[..k], b[k + 1..];
    SplitAt(b, k);
    FirstsAppend(front + [b[k]], back);
    FirstsAppend(front, [b[k]]);
    FirstsAppend(front, back);
    assert Firsts([b[k]]) == [b[k].0];
    calc {
      multiset(Firsts(b));
      multiset(Firsts(front) + [b[k].0] + Firsts(back));
      multiset(Firsts(front)) + multiset{b[k].0} + multiset(Firsts(back));
      multiset(Firsts(front) + Firsts(back)) + multiset{b[k].0};
      multiset(Firsts(front + back)) + multiset{b[k].0};
    }
  }

  /** The flights of a prefix are among the flights of the whole list. */
  lemma FirstsPrefix<A, B>(s: seq<(A, B)>, n: nat)
    requires n <= |s|
    ensures multiset(Firsts(s[..n])) <= multiset(Firsts(s))
    ensures n == |s| ==> Firsts(s[..n]) == Firsts(s)
  {
    assert s == s[..n] + s[n..];
    FirstsAppend(s[..n], s[n..]);
    assert multiset(Firsts(s)) == multiset(Firsts(s[..n])) + multiset(Firsts(s[n..]));
  }

  /** Matching the head of `a` with a pair at `k` in `b` reduces the permutation to the
      remaining pairs. */
  lemma FirstsMatchHead<A, B>(a: seq<(A, B)>, b: seq<(A, B)>, k: nat)
    requires a != [] && k < |b| && b[k] == a[0]
    requires multiset(Firsts(a[1..])) == multiset(Firsts(b[..k] + b[k + 1..]))
    ensures multiset(Firsts(a)) == multiset(Firsts(b))
  {
    FirstsRemove(b, k);
    calc {
      multiset(Firsts(a));
      multiset([a[0].0] + Firsts(a[1..]));
      multiset{a[0].0} + multiset(Firsts(a[1..]));
      multiset{a[0].0} + multiset(Firsts(b[..k] + b[k + 1..]));
      multiset(Firsts(b));
    }
  }

  /** Rearranging the pairs rearranges their flights. */
  lemma {:induction false} FirstsPermutation<A, B>(a: seq<(A, B)>, b: seq<(A, B)>)
    requires multiset(a) == multiset(b)
    ensures multiset(Firsts(a)) == multiset(Firsts(b))
    decreases |a|
  {
    if a == [] {
      assert |b| == |multiset(b)| == |multiset(a)| == 0;
    } else {
      assert a[0] in multiset(b);
      var k :| 0 <= k < |b| && b[k] == a[0];
      RemoveAt(b, k);
      RemoveAt(a, 0);
      assert a[..0] + a[1..] == a[1..];
      FirstsPermutation(a[1..], b[..k] + b[k + 1..]);
      FirstsMatchHead(a, b, k);
    }
  }

  /** The assumed shape of `get_flight_weights`, whose code is not part of this model:
      one pair for each flight of the time-sorted list. */
  ghost predicate OnePairPerRoute(weigh: (seq<Route>, seq<Route>) -> seq<Weighted>)
  {
    forall byTime, byPrice :: multiset(Firsts(weigh(byTime, byPrice))) == multiset(byTime)
  }

  /** What `get_optimal_route` does once the flights are filtered: sort them by time and
      by price, weigh, and select. */
  function RankFiltered(filtered: seq<Route>, parse: string -> Option<real>,
                        weigh: (seq<Route>, seq<Route>) -> seq<Weighted>, count: int): Result<seq<Route>, Error>
  {
    match SortedByTime(filtered, false)
    case Failure(e) => Failure(e)
    case Success(byTime) =>
      match SortedByPrice(filtered, false, parse)
      case Failure(e) => Failure(e)
      case Success(byPrice) => Success(Firsts(SelectPairs(weigh(byTime, byPrice), count)))
  }

  /** `get_optimal_route` as a function of the feed. `weigh` stands for
      `get_flight_weights`, whose body lies outside this model. */
  function OptimalRoute(doc: Document, travelTime: Route -> nat, parse: string -> Option<real>,
                        weigh: (seq<Route>, seq<Route>) -> seq<Weighted>,
                        source: string, destination: string, count: int): Result<seq<Route>, Error>
  {
    match FilteredDirection(doc, travelTime, source, destination)
    case Failure(e) => Failure(e)
    case Success(filtered) => RankFiltered(filtered, parse, weigh, count)
  }

  /** `get_optimal_route`: filter twice, sort one copy by time and one by price, weigh,
      sort the pairs by weight, and append the flights of the first `count` pairs. */
  method GetOptimalRoute(doc: Document, travelTime: Route -> nat, parse: string -> Option<real>,
                         weigh: (seq<Route>, seq<Route>) -> seq<Weighted>,
                         source: string, destination: string, count: int)
    returns (r: Result<seq<Route>, Error>)
    ensures r == OptimalRoute(doc, travelTime, parse, weigh, source, destination, count)
  {
    var forTime := GetFlightsFilteredDirection(doc, travelTime, source, destination);
    if forTime.Failure? {
      return Failure(forTime.error);
    }
    var sortFlightTime := SortedByTime(forTime.value, false);
    if sortFlightTime.Failure? {
      return Failure(sortFlightTime.error);
    }
    var forPrice := GetFlightsFilteredDirection(doc, travelTime, source, destination);
    var sortFlightPrice := SortedByPrice(forPrice.value, false, parse);
    if sortFlightPrice.Failure? {
      return Failure(sortFlightPrice.error);
    }
    var flightWeights := weigh(sortFlightTime.value, sortFlightPrice.value);
    var selected := SelectPairs(flightWeights, count);
    assert OptimalRoute(doc, travelTime, parse, weigh, source, destination, count) == Success(Firsts(selected));
    var optimalRoute := AppendFlights(selected);
    r := Success(optimalRoute);
  }

  /** The closing loop of `get_optimal_route`: append the flight of each selected pair. */
  method AppendFlights(selected: seq<Weighted>) returns (optimalRoute: seq<Route>)
    ensures optimalRoute == Firsts(selected)
  {
    optimalRoute := [];
    for i := 0 to |selected|
      invariant |optimalRoute| == i
      invariant forall k :: 0 <= k < i ==> optimalRoute[k] == selected[k].0
    {
      optimalRoute := optimalRoute + [selected[i].0];
    }
  }

  /** Every flight of a feed carries its travel time, so sorting the filtered flights by
      time cannot fail. */
  lemma FilteredHaveTimes(doc: Document, travelTime: Route -> nat, source: string, destination: string)
    requires FilteredDirection(doc, travelTime, source, destination).Success?
    ensures forall x :: x in FilteredDirection(doc, travelTime, source, destination).value
              ==> x.totalTime.Some? && Matches(x, source, destination)
  {
    var flights := AllFlights(doc, travelTime).value;
    AllFlightsSpec(doc, travelTime);
    KeepDirectionSpec(flights, source, destination);
    var kept := FilteredDirection(doc, travelTime, source, destination).value;
    forall x | x in kept ensures x.totalTime.Some? && Matches(x, source, destination) {
      assert multiset(kept)[x] > 0;
      assert x in multiset(flights);
    }
  }

  lemma RankFilteredSucceeds(filtered: seq<Route>, parse: string -> Option<real>,
                              weigh: (seq<Route>, seq<Route>) -> seq<Weighted>, count: int)
    requires forall i :: 0 <= i < |filtered| ==> filtered[i].totalTime.Some?
    ensures RankFiltered(filtered, parse, weigh, count).Success? <==>
              forall i :: 0 <= i < |filtered| ==> PriceKey(filtered[i], parse).Success?
  {
    SortedByKeySucceeds(filtered, TimeKey, false);
    assert forall i :: 0 <= i < |filtered| ==> TimeKey(filtered[i]).Success?;
    SortedByKeySucceeds(filtered, PriceKeyOf(parse), false);
  }

  lemma RankFilteredSize(filtered: seq<Route>, parse: string -> Option<real>,
                         weigh: (seq<Route>, seq<Route>) -> seq<Weighted>, count: int)
    requires OnePairPerRoute(weigh)
    requires RankFiltered(filtered, parse, weigh, count).Success?
    ensures var o := RankFiltered(filtered, parse, weigh, count).value;
            && multiset(o) <= multiset(filtered)
            && (count >= 0 ==> |o| == Min(count, |filtered|))
            && (count >= |filtered| ==> multiset(o) == multiset(filtered))
  {
    var byTime := SortedByTime(filtered, false).value;
    var byPrice := SortedByPrice(filtered, false, parse).value;
    SortedByKeyPermutes(filtered, TimeKey, false);
    var pairs := weigh(byTime, byPrice);
    assert multiset(Firsts(pairs)) == multiset(filtered);
    assert |pairs| == |filtered| by {
      assert |Firsts(pairs)| == |multiset(Firsts(pairs))| == |multiset(filtered)|;
    }
    var sorted := Sort(pairs, WeightOf, false);
    FirstsPermutation(sorted, pairs);
    var sel := SelectPairs(pairs, count);
    SelectPairsSize(pairs, count);
    FirstsPrefix(sorted, |sel|);
  }

  /** Given one pair per flight and flights that all carry a travel time, ranking fails
      only on a flight without a usable price, and otherwise returns at most `count` of
      the flights (all of them when fewer exist, none when there are none), each at most
      as often as it occurs. */
  lemma RankFilteredSpec(filtered: seq<Route>, parse: string -> Option<real>,
                         weigh: (seq<Route>, seq<Route>) -> seq<Weighted>, count: int)
    requires OnePairPerRoute(weigh)
    requires forall i :: 0 <= i < |filtered| ==> filtered[i].totalTime.Some?
    ensures var o := RankFiltered(filtered, parse, weigh, count);
            && (o.Success? <==> forall i :: 0 <= i < |filtered| ==> PriceKey(filtered[i], parse).Success?)
            && (o.Success? ==>
                  && multiset(o.value) <= multiset(filtered)
                  && (count >= 0 ==> |o.value| == Min(count, |filtered|))
                  && (count >= |filtered| ==> multiset(o.value) == multiset(filtered)))
  {
    RankFilteredSucceeds(filtered, parse, weigh, count);
    if RankFiltered(filtered, parse, weigh, count).Success? {
      RankFilteredSize(filtered, parse, weigh, count);
    }
  }

  /** Given one pair per flight, the optimal routes are at most `count` of the
      direction-filtered flights (all of them when fewer match, none when none match),
      each of them matching the direction and each at most as often as the filter returns
      it; the call fails only where the filter fails or a filtered flight has no usable
      price. */
  lemma OptimalRouteSpec(doc: Document, travelTime: Route -> nat, parse: string -> Option<real>,
                         weigh: (seq<Route>, seq<Route>) -> seq<Weighted>,
                         source: string, destination: string, count: int)
    requires OnePairPerRoute(weigh)
    ensures var o := OptimalRoute(doc, travelTime, parse, weigh, source, destination, count);
            var f := FilteredDirection(doc, travelTime, source, destination);
            && (o.Success? <==> f.Success? && forall i :: 0 <= i < |f.value| ==> PriceKey(f.value[i], parse).Success?)
            && (o.Success? ==>
                  && multiset(o.value) <= multiset(f.value)
                  && (forall x :: x in o.value ==> Matches(x, source, destination))
                  && (count >= 0 ==> |o.value| == Min(count, |f.value|))
                  && (count >= |f.value| ==> multiset(o.value) == multiset(f.value))
                  && (f.value == [] ==> o.value == []))
  {
    var f := FilteredDirection(doc, travelTime, source, destination);
    if f.Success? {
      FilteredHaveTimes(doc, travelTime, source, destination);
      RankFilteredSpec(f.value, parse, weigh, count);
      var o := OptimalRoute(doc, travelTime, parse, weigh, source, destination, count);
      if o.Success? {
        forall x | x in o.value ensures Matches(x, source, destination) {
          assert x in multiset(f.value);
        }
        if f.value == [] {
          assert multiset(o.value) == multiset{};
        }
      }
    }
  }
}
