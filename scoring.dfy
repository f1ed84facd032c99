/** The fitness of a route: the length of the closed tour it describes (lower is better). */
module Scoring {
  import opened Tours

  /** Sum of the distances between consecutive cities of the route. */
  function Path(d: Distances, route: Route): real
    decreases |route|
  {
    if |route| <= 1 then 0.0 else d(route[0], route[1]) + Path(d, route[1..])
  }

  /**
   * The closed-tour length: every consecutive leg, then the leg from the
   * last city back to the first.
   */
  function Fitness(d: Distances, route: Route): real
    requires |route| == NumCities
  {
    Path(d, route) + d(route[|route| - 1], route[0])
  }

  /** Appending a city adds exactly one leg, from the old last city to it. */
  lemma {:induction false} PathSnoc(d: Distances, s: Route, x: City)
    requires |s| >= 1
    ensures Path(d, s + [x]) == Path(d, s) + d(s[|s| - 1], x)
  {
    if |s| > 1 {
      assert (s + [x])[1..] == s[1..] + [x];
      PathSnoc(d, s[1..], x);
    }
  }

  /**
   * fitness_score: accumulates the legs in a loop over the first
   * NUM_CITIES - 1 positions, then adds the closing leg.
   */
  method FitnessScore(d: Distances, route: Route) returns (total: real)
    requires |route| == NumCities
    ensures total == Fitness(d, route)
  {
    total := 0.0;
    for i := 0 to NumCities - 1
      invariant total == Path(d, route[..i + 1])
    {
      assert route[..i + 2] == route[..i + 1] + [route[i + 1]];
      PathSnoc(d, route[..i + 1], route[i + 1]);
      total := total + d(route[i], route[i + 1]);
    }
    assert route[..NumCities] == route;
    total := total + d(route[|route| - 1], route[0]);
  }

  lemma {:induction false} PathNonNegative(d: Distances, route: Route)
    requires forall a, b :: d(a, b) >= 0.0
    ensures Path(d, route) >= 0.0
    decreases |route|
  {
    if |route| > 1 {
      PathNonNegative(d, route[1..]);
    }
  }

  /** With non-negative distances no route has negative fitness. */
  lemma FitnessNonNegative(d: Distances, route: Route)
    requires forall a, b :: d(a, b) >= 0.0
    requires |route| == NumCities
    ensures Fitness(d, route) >= 0.0
  {
    PathNonNegative(d, route);
  }

  /**
   * When distinct cities are a positive distance apart, a route without
   * repeated cities has positive fitness: its closing leg joins two
   * different cities.
   */
  lemma FitnessPositive(d: Distances, route: Route)
    requires forall a, b :: d(a, b) >= 0.0
    requires forall a, b :: a != b ==> d(a, b) > 0.0
    requires |route| == NumCities
    requires NoDuplicates(route)
    ensures Fitness(d, route) > 0.0
  {
    PathNonNegative(d, route);
    assert route[|route| - 1] != route[0];
  }

  /** Moving the first city to the end describes the same closed tour. */
  lemma RotateOnce(d: Distances, route: Route)
    requires |route| == NumCities
    ensures Fitness(d, route[1..] + [route[0]]) == Fitness(d, route)
  {
    var rest := route[1..];
    PathSnoc(d, rest, route[0]);
    assert rest[|rest| - 1] == route[|route| - 1];
  }

  /** The rotation of a route that starts at position k. */
  function Rotate(route: Route, k: nat): (r: Route)
    requires k <= |route|
    ensures |r| == |route|
  {
    route[k..] + route[..k]
  }

  /** fitness_score does not depend on which city of the closed tour is listed first. */
  lemma {:induction false} FitnessRotation(d: Distances, route: Route, k: nat)
    requires |route| == NumCities
    requires k <= |route|
    ensures Fitness(d, Rotate(route, k)) == Fitness(d, route)
  {
    if k == 0 {
      assert Rotate(route, 0) == route;
    } else {
      FitnessRotation(d, route, k - 1);
      var prev := Rotate(route, k - 1);
      RotateOnce(d, prev);
      assert prev[1..] + [prev[0]] == Rotate(route, k);
    }
  }
}
