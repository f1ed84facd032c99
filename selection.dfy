/**
 * selection: each individual becomes a parent when its random draw falls
 * below 1 / fitness. The draws, one per individual in population order,
 * are a parameter.
 */
module Selection {
  import opened Wrappers
  import opened Tours
  import opened Scoring

  /** `1 / fitness`: the selection probability, unclamped, as real division. */
  function Threshold(f: real): real
    requires f != 0.0
  {
    1.0 / f
  }

  /** The test the loop applies to one individual and its draw. */
  predicate Chosen(d: Distances, route: Route, draw: real)
    requires |route| == NumCities
  {
    var f := Fitness(d, route);
    f != 0.0 && draw < Threshold(f)
  }

  /** `1 / fitness` raises for this population. */
  predicate HasZeroFitness(d: Distances, population: seq<Route>)
    requires WellFormed(population)
  {
    exists i :: 0 <= i < |population| && Fitness(d, population[i]) == 0.0
  }

  /**
   * The positions, among the first n, of the individuals that pass the test:
   * in increasing order, and a position is listed exactly when it passes.
   */
  function SelectedIndices(d: Distances, population: seq<Route>, draws: seq<real>, n: nat): (ix: seq<nat>)
    requires WellFormed(population)
    requires |draws| == |population|
    requires n <= |population|
    ensures |ix| <= n
    ensures forall k :: 0 <= k < |ix| ==> ix[k] < n
    ensures forall k, l :: 0 <= k < l < |ix| ==> ix[k] < ix[l]
    ensures forall i :: 0 <= i < n ==> (i in ix <==> Chosen(d, population[i], draws[i]))
  {
    if n == 0 then []
    else
      var before := SelectedIndices(d, population, draws, n - 1);
      if Chosen(d, population[n - 1], draws[n - 1]) then before + [n - 1] else before
  }

  /** The individuals at the given positions, in that order. */
  function Pick(population: seq<Route>, ix: seq<nat>): (r: seq<Route>)
    requires forall k :: 0 <= k < |ix| ==> ix[k] < |population|
    ensures |r| == |ix|
    ensures forall k :: 0 <= k < |ix| ==> r[k] == population[ix[k]]
  {
    seq(|ix|, k requires 0 <= k < |ix| => population[ix[k]])
  }

  lemma PickSnoc(population: seq<Route>, ix: seq<nat>, i: nat)
    requires forall k :: 0 <= k < |ix| ==> ix[k] < |population|
    requires i < |population|
    ensures Pick(population, ix + [i]) == Pick(population, ix) + [population[i]]
  {
  }

  /** The parents a successful selection returns. */
  function Selected(d: Distances, population: seq<Route>, draws: seq<real>): (parents: seq<Route>)
    requires WellFormed(population)
    requires |draws| == |population|
    ensures WellFormed(parents)
  {
    Pick(population, SelectedIndices(d, population, draws, |population|))
  }

  /**
   * selection: appends each passing individual to the parent list, and
   * raises ZeroDivisionError on the first individual of fitness 0.
   */
  method Select(d: Distances, population: seq<Route>, draws: seq<real>)
    returns (res: Result<seq<Route>, Error>)
    requires WellFormed(population)
    requires |draws| == |population|
    requires forall i :: 0 <= i < |draws| ==> 0.0 <= draws[i] < 1.0
    ensures res.Failure? <==> HasZeroFitness(d, population)
    ensures res.Failure? ==> res.error == ZeroDivisionError
    ensures res.Success? ==> res.value == Selected(d, population, draws)
  {
    var parents: seq<Route> := [];
    for i := 0 to |population|
      invariant forall k :: 0 <= k < i ==> Fitness(d, population[k]) != 0.0
      invariant parents == Pick(population, SelectedIndices(d, population, draws, i))
    {
      var ind := population[i];
      var f := FitnessScore(d, ind);
      if f == 0.0 {
        return Failure(ZeroDivisionError);
      }
      ghost var before := SelectedIndices(d, population, draws, i);
      var keep := draws[i] < Threshold(f);
      assert keep == Chosen(d, ind, draws[i]);
      if keep {
        assert SelectedIndices(d, population, draws, i + 1) == before + [i];
        PickSnoc(population, before, i);
        parents := parents + [ind];
      } else {
        assert SelectedIndices(d, population, draws, i + 1) == before;
      }
    }
    return Success(parents);
  }

  /**
   * The result is an order-preserving subsequence of the population, and
   * the individual at position i is in it exactly when Chosen holds of it.
   */
  lemma SelectedIsSubsequence(d: Distances, population: seq<Route>, draws: seq<real>)
    requires WellFormed(population)
    requires |draws| == |population|
    ensures var ix := SelectedIndices(d, population, draws, |population|);
      && Selected(d, population, draws) == Pick(population, ix)
      && (forall k, l :: 0 <= k < l < |ix| ==> ix[k] < ix[l])
      && (forall i :: 0 <= i < |population| ==> (i in ix <==> Chosen(d, population[i], draws[i])))
    ensures |Selected(d, population, draws)| <= |population|
    ensures forall r :: r in Selected(d, population, draws) ==> r in population
  {
    var ix := SelectedIndices(d, population, draws, |population|);
    forall r | r in Selected(d, population, draws)
      ensures r in population
    {
      var k :| 0 <= k < |ix| && Selected(d, population, draws)[k] == r;
      assert population[ix[k]] == r;
    }
  }

  /**
   * No clamping: a route with 0 < fitness <= 1 has 1 / fitness >= 1 and is
   * chosen whatever its draw in [0, 1).
   */
  lemma ShortRouteAlwaysChosen(d: Distances, route: Route, draw: real)
    requires |route| == NumCities
    requires 0.0 <= draw < 1.0
    requires 0.0 < Fitness(d, route) <= 1.0
    ensures Chosen(d, route, draw)
  {
    var f := Fitness(d, route);
    assert f * Threshold(f) == 1.0;
  }

  /** A route of negative fitness (possible only with negative distances) is never chosen. */
  lemma NegativeFitnessNeverChosen(d: Distances, route: Route, draw: real)
    requires |route| == NumCities
    requires 0.0 <= draw < 1.0
    requires Fitness(d, route) < 0.0
    ensures !Chosen(d, route, draw)
  {
    var f := Fitness(d, route);
    assert f * Threshold(f) == 1.0;
  }

  /**
   * On a population of tours, with distinct cities a positive distance
   * apart, the selection never raises.
   */
  lemma ToursNeverDivideByZero(d: Distances, population: seq<Route>)
    requires forall a, b :: d(a, b) >= 0.0
    requires forall a, b :: a != b ==> d(a, b) > 0.0
    requires AllTours(population)
    ensures WellFormed(population)
    ensures !HasZeroFitness(d, population)
  {
    AllToursWellFormed(population);
    forall i | 0 <= i < |population|
      ensures Fitness(d, population[i]) != 0.0
    {
      TourShape(population[i]);
      FitnessPositive(d, population[i]);
    }
  }
}
