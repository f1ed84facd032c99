/** mutate: exchange the cities at two distinct positions of a route, in place. */
module Mutation {
  import opened Tours

  /** The route with the cities at positions i and j exchanged. */
  function Swap(route: Route, i: nat, j: nat): (swapped: Route)
    requires i < |route| && j < |route|
    ensures |swapped| == |route|
    ensures multiset(swapped) == multiset(route)
  {
    route[i := route[j]][j := route[i]]
  }

  /**
   * mutate: the two positions come from random.sample(range(NUM_CITIES), 2),
   * so they are distinct and below NUM_CITIES.
   */
  method Mutate(route: array<City>, idx1: nat, idx2: nat)
    requires route.Length == NumCities
    requires idx1 < NumCities && idx2 < NumCities && idx1 != idx2
    modifies route
    ensures route[..] == Swap(old(route[..]), idx1, idx2)
  {
    route[idx1], route[idx2] := route[idx2], route[idx1];
  }

  /**
   * On a route without repeated cities a mutation changes exactly the two
   * chosen positions: they receive each other's city and every other
   * position keeps its own.
   */
  lemma SwapChangesExactlyTwo(route: Route, i: nat, j: nat)
    requires i < |route| && j < |route| && i != j
    requires NoDuplicates(route)
    ensures Swap(route, i, j)[i] == route[j] && Swap(route, i, j)[j] == route[i]
    ensures forall k :: 0 <= k < |route| ==> (Swap(route, i, j)[k] != route[k] <==> k == i || k == j)
  {
  }

  /** A mutated tour is still a tour. */
  lemma SwapKeepsTour(route: Route, i: nat, j: nat)
    requires i < |route| && j < |route|
    requires IsTour(route)
    ensures IsTour(Swap(route, i, j))
  {
  }
}
