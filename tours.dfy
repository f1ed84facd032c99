/**
 * The experiment's fixed data: the ten cities, the population size, and
 * what a route and a distance table are.
 */
module Tours {
  type City = string

  /** A route is a list of city names; a tour is a route visiting every city once. */
  type Route = seq<City>

  /**
   * The distance table, looked up as table[from][to]. It is an arbitrary
   * function of the ORDERED pair: the experiment's table is not symmetric.
   * Distances are reals: the table holds values such as 41.1 and 86.3.
   */
  type Distances = (City, City) -> real

  /** The exceptions the solver can raise. */
  datatype Error =
    | ZeroDivisionError  // `1 / fitness` in the selection, for a route whose fitness is 0
    | EmptySequence      // `min` over an empty population

  const Cities: seq<City> := ["Itaúna", "Divinópolis", "Belo Horizonte", "Montes Claros", "Viçosa",
                              "Lavras", "Ouro Preto", "Janaúba", "Monte Verde", "Governador Valadares"]
  const NumCities: nat := 10
  const PopulationSize: nat := 30

  predicate NoDuplicates(route: Route) {
    forall i, j :: 0 <= i < j < |route| ==> route[i] != route[j]
  }

  /** A permutation of the cities, the shape every route of the initial population has. */
  predicate IsTour(route: Route) {
    multiset(route) == multiset(Cities)
  }

  /** Every route of the population has one entry per city, the length every operator indexes up to. */
  predicate WellFormed(population: seq<Route>) {
    forall i :: 0 <= i < |population| ==> |population[i]| == NumCities
  }

  predicate AllTours(population: seq<Route>) {
    forall i :: 0 <= i < |population| ==> IsTour(population[i])
  }

  lemma CitiesDistinct()
    ensures |Cities| == NumCities
    ensures NoDuplicates(Cities)
  {
  }

  /** A route without duplicates holds each value at most once. */
  lemma {:induction false} AtMostOnce(s: Route, x: City)
    requires NoDuplicates(s)
    ensures multiset(s)[x] <= 1
  {
    if s != [] {
      assert s == [s[0]] + s[1..];
      AtMostOnce(s[1..], x);
      if s[0] == x {
        assert x !in s[1..];
      }
    }
  }

  /** Two equal entries make a value occur at least twice. */
  lemma TwoOccurrences(s: Route, i: nat, j: nat)
    requires i < j < |s|
    requires s[i] == s[j]
    ensures multiset(s)[s[i]] >= 2
  {
    assert s == s[..j] + s[j..];
    assert s[i] in s[..j];
    assert s[j] in s[j..];
    assert multiset(s)[s[i]] == multiset(s[..j])[s[i]] + multiset(s[j..])[s[i]];
  }

  /** Each city occurs once in the list of cities. */
  lemma CityOnce(x: City)
    ensures multiset(Cities)[x] <= 1
  {
    CitiesDistinct();
    AtMostOnce(Cities, x);
  }

  /** A tour has one entry per city and repeats none. */
  lemma TourShape(route: Route)
    requires IsTour(route)
    ensures |route| == NumCities
    ensures NoDuplicates(route)
  {
    CitiesDistinct();
    assert |multiset(route)| == |multiset(Cities)|;
    forall i, j | 0 <= i < j < |route|
      ensures route[i] != route[j]
    {
      if route[i] == route[j] {
        TwoOccurrences(route, i, j);
        CityOnce(route[i]);
      }
    }
  }

  lemma AllToursWellFormed(population: seq<Route>)
    requires AllTours(population)
    ensures WellFormed(population)
  {
    forall i | 0 <= i < |population|
      ensures |population[i]| == NumCities
    {
      TourShape(population[i]);
    }
  }

  lemma TourMember(population: seq<Route>, route: Route)
    requires AllTours(population)
    requires route in population
    ensures IsTour(route)
  {
    var i :| 0 <= i < |population| && population[i] == route;
  }

  /** Routes all drawn from a population of tours are tours. */
  lemma ToursFrom(routes: seq<Route>, population: seq<Route>)
    requires AllTours(population)
    requires forall i :: 0 <= i < |routes| ==> routes[i] in population
    ensures AllTours(routes)
  {
    forall i | 0 <= i < |routes|
      ensures IsTour(routes[i])
    {
      TourMember(population, routes[i]);
    }
  }
}
