/**
 * `sorted(..., key=fitness_score)`: a stable sort of routes by ascending
 * fitness, written as an insertion sort.
 */
module Ranking {
  import opened Tours
  import opened Scoring

  predicate SortedByFitness(d: Distances, routes: seq<Route>)
    requires WellFormed(routes)
  {
    forall i, j :: 0 <= i < j < |routes| ==> Fitness(d, routes[i]) <= Fitness(d, routes[j])
  }

  /**
   * Puts route in front of the first element whose fitness is not below
   * its own, so that it stays ahead of the equal-fitness routes that came
   * after it in the input.
   */
  function Insert(d: Distances, route: Route, routes: seq<Route>): (r: seq<Route>)
    requires |route| == NumCities
    requires WellFormed(routes)
    ensures |r| == |routes| + 1
    ensures WellFormed(r)
    ensures multiset(r) == multiset(routes) + multiset{route}
  {
    if routes == [] then [route]
    else if Fitness(d, route) <= Fitness(d, routes[0]) then [route] + routes
    else
      assert routes == [routes[0]] + routes[1..];
      [routes[0]] + Insert(d, route, routes[1..])
  }

  /** Every element of rest is the inserted route or an element of routes. */
  lemma InsertedFrom(route: Route, routes: seq<Route>, rest: seq<Route>)
    requires multiset(rest) == multiset(routes) + multiset{route}
    ensures forall x :: x in rest ==> x == route || x in routes
  {
    forall x | x in rest
      ensures x == route || x in routes
    {
      assert x in multiset(rest);
    }
  }

  /** A route no worse than any route of a sorted list can be put in front of it. */
  lemma ConsSorted(d: Distances, route: Route, routes: seq<Route>)
    requires |route| == NumCities
    requires WellFormed(routes)
    requires SortedByFitness(d, routes)
    requires forall k :: 0 <= k < |routes| ==> Fitness(d, route) <= Fitness(d, routes[k])
    ensures WellFormed([route] + routes)
    ensures SortedByFitness(d, [route] + routes)
  {
    var r := [route] + routes;
    forall i, j | 0 <= i < j < |r|
      ensures Fitness(d, r[i]) <= Fitness(d, r[j])
    {
      assert r[j] == routes[j - 1];
      if i > 0 {
        assert r[i] == routes[i - 1];
      }
    }
  }

  /** A lower bound on the fitness of route and of every route of routes bounds the insertion. */
  lemma InsertLowerBound(d: Distances, route: Route, routes: seq<Route>, bound: real)
    requires |route| == NumCities
    requires WellFormed(routes)
    requires bound <= Fitness(d, route)
    requires forall k :: 0 <= k < |routes| ==> bound <= Fitness(d, routes[k])
    ensures forall k :: 0 <= k < |Insert(d, route, routes)| ==> bound <= Fitness(d, Insert(d, route, routes)[k])
  {
    var r := Insert(d, route, routes);
    InsertedFrom(route, routes, r);
    forall k | 0 <= k < |r|
      ensures bound <= Fitness(d, r[k])
    {
      assert r[k] in r;
      if r[k] != route {
        var j :| 0 <= j < |routes| && routes[j] == r[k];
      }
    }
  }

  /** Inserting into a sorted list keeps it sorted. */
  lemma {:induction false} InsertSorted(d: Distances, route: Route, routes: seq<Route>)
    requires |route| == NumCities
    requires WellFormed(routes)
    requires SortedByFitness(d, routes)
    ensures SortedByFitness(d, Insert(d, route, routes))
    decreases |routes|
  {
    if routes == [] {
    } else if Fitness(d, route) <= Fitness(d, routes[0]) {
      ConsSorted(d, route, routes);
    } else {
      var tail := routes[1..];
      assert forall k :: 0 <= k < |tail| ==> tail[k] == routes[k + 1];
      InsertSorted(d, route, tail);
      InsertLowerBound(d, route, tail, Fitness(d, routes[0]));
      ConsSorted(d, routes[0], Insert(d, route, tail));
    }
  }

  /** Ascending order by fitness, a permutation of the input. */
  function SortByFitness(d: Distances, routes: seq<Route>): (sorted: seq<Route>)
    requires WellFormed(routes)
    ensures |sorted| == |routes|
    ensures WellFormed(sorted)
    ensures SortedByFitness(d, sorted)
    ensures multiset(sorted) == multiset(routes)
  {
    if routes == [] then []
    else
      assert routes == [routes[0]] + routes[1..];
      var tail := SortByFitness(d, routes[1..]);
      InsertSorted(d, routes[0], tail);
      Insert(d, routes[0], tail)
  }

  /** Every route of the sorted list comes from the input. */
  lemma SortedFromInput(d: Distances, routes: seq<Route>)
    requires WellFormed(routes)
    ensures forall i :: 0 <= i < |SortByFitness(d, routes)| ==> SortByFitness(d, routes)[i] in routes
  {
    var sorted := SortByFitness(d, routes);
    forall i | 0 <= i < |sorted|
      ensures sorted[i] in routes
    {
      assert sorted[i] in multiset(sorted);
    }
  }

  /** The first route of the sorted list is no worse than any route of the input. */
  lemma SortedHeadIsBest(d: Distances, routes: seq<Route>)
    requires WellFormed(routes)
    requires |routes| > 0
    ensures forall i :: 0 <= i < |routes| ==> Fitness(d, SortByFitness(d, routes)[0]) <= Fitness(d, routes[i])
  {
    var sorted := SortByFitness(d, routes);
    forall i | 0 <= i < |routes|
      ensures Fitness(d, sorted[0]) <= Fitness(d, routes[i])
    {
      assert routes[i] in multiset(sorted);
      var k :| 0 <= k < |sorted| && sorted[k] == routes[i];
    }
  }

  /** Every route of kept is at least as good as route. */
  predicate NoWorseThan(d: Distances, kept: seq<Route>, route: Route)
    requires WellFormed(kept)
    requires |route| == NumCities
  {
    forall i :: 0 <= i < |kept| ==> Fitness(d, kept[i]) <= Fitness(d, route)
  }

  lemma SplitDifference(kept: seq<Route>, dropped: seq<Route>)
    ensures multiset(kept + dropped) - multiset(kept) == multiset(dropped)
  {
    assert multiset(kept + dropped) == multiset(kept) + multiset(dropped);
  }

  /** In a sorted list, every route after position m is no better than every route before it. */
  lemma DroppedNoBetter(d: Distances, sorted: seq<Route>, m: nat)
    requires WellFormed(sorted)
    requires SortedByFitness(d, sorted)
    requires m <= |sorted|
    ensures WellFormed(sorted[..m])
    ensures forall r :: r in multiset(sorted[m..]) ==> |r| == NumCities && NoWorseThan(d, sorted[..m], r)
  {
    var kept, dropped := sorted[..m], sorted[m..];
    forall r | r in multiset(dropped)
      ensures |r| == NumCities && NoWorseThan(d, kept, r)
    {
      var j :| 0 <= j < |dropped| && dropped[j] == r;
      assert sorted[m + j] == r;
    }
  }

  /**
   * Cutting the sorted list to its first m routes keeps routes of the input
   * only, and every input route cut away is no better than every route kept.
   */
  lemma PrefixKeepsBest(d: Distances, routes: seq<Route>, m: nat)
    requires WellFormed(routes)
    requires m <= |routes|
    ensures WellFormed(SortByFitness(d, routes)[..m])
    ensures multiset(SortByFitness(d, routes)[..m]) <= multiset(routes)
    ensures forall r :: r in multiset(routes) - multiset(SortByFitness(d, routes)[..m]) ==>
      |r| == NumCities && NoWorseThan(d, SortByFitness(d, routes)[..m], r)
  {
    var sorted := SortByFitness(d, routes);
    assert sorted == sorted[..m] + sorted[m..];
    SplitDifference(sorted[..m], sorted[m..]);
    DroppedNoBetter(d, sorted, m);
  }

  /**
   * Elitism of sort-and-truncate: the first of the sorted pool
   * front + population, cut to m > 0 routes, is no worse than any route of
   * population.
   */
  lemma TruncatedHeadIsBest(d: Distances, front: seq<Route>, population: seq<Route>, m: nat)
    requires WellFormed(front + population)
    requires WellFormed(population)
    requires 0 < m <= |front + population|
    ensures forall i :: 0 <= i < |population| ==>
      Fitness(d, SortByFitness(d, front + population)[..m][0]) <= Fitness(d, population[i])
  {
    var pool := front + population;
    SortedHeadIsBest(d, pool);
    assert SortByFitness(d, pool)[..m][0] == SortByFitness(d, pool)[0];
    assert forall i :: 0 <= i < |population| ==> pool[|front| + i] == population[i];
  }
}
