/**
 * One generation: selection, crossover, mutation of every offspring, then
 * the offspring and the whole old population merged, sorted by fitness and
 * cut to POPULATION_SIZE. Also the best-route lookup the driver reports.
 */
module Evolution {
  import opened Wrappers
  import opened Tours
  import opened Scoring
  import opened Selection
  import opened Recombination
  import opened Mutation
  import opened Ranking

  /**
   * The positions random.sample(range(NUM_CITIES), 2) draws for the k-th
   * offspring are swapAt(k): two distinct positions below NUM_CITIES.
   */
  ghost predicate ValidSwaps(swapAt: nat -> (nat, nat)) {
    forall k :: swapAt(k).0 < NumCities && swapAt(k).1 < NumCities && swapAt(k).0 != swapAt(k).1
  }

  function Min(a: nat, b: nat): nat {
    if a <= b then a else b
  }

  /** Every offspring mutated with its own pair of positions. */
  function MutateAll(offspring: seq<Route>, swapAt: nat -> (nat, nat)): (mutated: seq<Route>)
    requires WellFormed(offspring)
    requires ValidSwaps(swapAt)
    ensures |mutated| == |offspring|
    ensures WellFormed(mutated)
  {
    seq(|offspring|, k requires 0 <= k < |offspring| => Swap(offspring[k], swapAt(k).0, swapAt(k).1))
  }

  /** The mutated offspring followed by the whole old population, before sorting. */
  function Merged(d: Distances, population: seq<Route>, draws: seq<real>, cut: nat, swapAt: nat -> (nat, nat))
    : (merged: seq<Route>)
    requires WellFormed(population)
    requires |draws| == |population|
    requires 1 <= cut < NumCities
    requires ValidSwaps(swapAt)
    ensures WellFormed(merged)
    ensures |merged| >= |population|
  {
    MutateAll(Offspring(Selected(d, population, draws), cut), swapAt) + population
  }

  /**
   * The next generation: at most POPULATION_SIZE routes of the merged pool,
   * in ascending order of fitness.
   */
  function NextGeneration(d: Distances, population: seq<Route>, draws: seq<real>, cut: nat, swapAt: nat -> (nat, nat))
    : (next: seq<Route>)
    requires WellFormed(population)
    requires |draws| == |population|
    requires 1 <= cut < NumCities
    requires ValidSwaps(swapAt)
    ensures |next| == Min(PopulationSize, |Merged(d, population, draws, cut, swapAt)|)
    ensures WellFormed(next)
    ensures SortedByFitness(d, next)
    ensures forall i :: 0 <= i < |next| ==> next[i] in Merged(d, population, draws, cut, swapAt)
    ensures multiset(next) <= multiset(Merged(d, population, draws, cut, swapAt))
  {
    var merged := Merged(d, population, draws, cut, swapAt);
    SortedFromInput(d, merged);
    PrefixKeepsBest(d, merged, Min(PopulationSize, |merged|));
    SortByFitness(d, merged)[..Min(PopulationSize, |merged|)]
  }

  /** `list(map(mutate, offsprings))`: each offspring copied into a list and mutated in place. */
  method MutateEach(offspring: seq<Route>, swapAt: nat -> (nat, nat)) returns (mutated: seq<Route>)
    requires WellFormed(offspring)
    requires ValidSwaps(swapAt)
    ensures mutated == MutateAll(offspring, swapAt)
  {
    mutated := [];
    for k := 0 to |offspring|
      invariant |mutated| == k
      invariant forall m :: 0 <= m < k ==> mutated[m] == Swap(offspring[m], swapAt(m).0, swapAt(m).1)
    {
      var child := offspring[k];
      var route := new City[|child|](i requires 0 <= i < |child| => child[i]);
      assert route[..] == child;
      Mutate(route, swapAt(k).0, swapAt(k).1);
      mutated := mutated + [route[..]];
    }
  }

  /** `new_gen = offsprings` followed by `new_gen.append(ind)` for each old route. */
  method AppendAll(offspring: seq<Route>, population: seq<Route>) returns (newGen: seq<Route>)
    ensures newGen == offspring + population
  {
    newGen := offspring;
    for i := 0 to |population|
      invariant newGen == offspring + population[..i]
    {
      newGen := newGen + [population[i]];
    }
    assert population[..|population|] == population;
  }

  /**
   * evolution: raises ZeroDivisionError exactly when the selection does,
   * and otherwise returns the next generation.
   */
  method Evolve(d: Distances, population: seq<Route>, draws: seq<real>, cut: nat, swapAt: nat -> (nat, nat))
    returns (res: Result<seq<Route>, Error>)
    requires WellFormed(population)
    requires |draws| == |population|
    requires forall i :: 0 <= i < |draws| ==> 0.0 <= draws[i] < 1.0
    requires 1 <= cut < NumCities
    requires ValidSwaps(swapAt)
    ensures res.Failure? <==> HasZeroFitness(d, population)
    ensures res.Failure? ==> res.error == ZeroDivisionError
    ensures res.Success? ==> res.value == NextGeneration(d, population, draws, cut, swapAt)
  {
    var parents := Select(d, population, draws);
    if parents.Failure? {
      return Failure(parents.error);
    }
    assert parents.value == Selected(d, population, draws);
    var offspring := Crossover(parents.value, cut);
    var mutated := MutateEach(offspring, swapAt);
    var newGen := AppendAll(mutated, population);
    assert newGen == Merged(d, population, draws, cut, swapAt);
    var sorted := SortByFitness(d, newGen);
    return Success(sorted[..Min(PopulationSize, |sorted|)]);
  }

  /** Once the merged pool holds POPULATION_SIZE routes, a generation has exactly that many. */
  lemma GenerationSize(d: Distances, population: seq<Route>, draws: seq<real>, cut: nat, swapAt: nat -> (nat, nat))
    requires WellFormed(population)
    requires |draws| == |population|
    requires 1 <= cut < NumCities
    requires ValidSwaps(swapAt)
    ensures |NextGeneration(d, population, draws, cut, swapAt)| <= PopulationSize
    ensures |population| >= PopulationSize ==> |NextGeneration(d, population, draws, cut, swapAt)| == PopulationSize
  {
  }

  /**
   * "Keep top fitness individuals": every route of the merged pool that the
   * cut leaves out is no better than every route of the next generation.
   */
  lemma TruncationKeepsBest(d: Distances, population: seq<Route>, draws: seq<real>, cut: nat, swapAt: nat -> (nat, nat))
    requires WellFormed(population)
    requires |draws| == |population|
    requires 1 <= cut < NumCities
    requires ValidSwaps(swapAt)
    ensures var next := NextGeneration(d, population, draws, cut, swapAt);
      forall r :: r in multiset(Merged(d, population, draws, cut, swapAt)) - multiset(next) ==>
        |r| == NumCities && NoWorseThan(d, next, r)
  {
    var merged := Merged(d, population, draws, cut, swapAt);
    PrefixKeepsBest(d, merged, Min(PopulationSize, |merged|));
  }

  /**
   * Elitism: the first route of the next generation is at least as good as
   * every route of the merged pool (every mutated offspring and every route
   * of the old population), and is a best route of the next generation.
   */
  lemma Elitism(d: Distances, population: seq<Route>, draws: seq<real>, cut: nat, swapAt: nat -> (nat, nat))
    requires WellFormed(population)
    requires |draws| == |population|
    requires 1 <= cut < NumCities
    requires ValidSwaps(swapAt)
    requires |population| > 0
    ensures var next := NextGeneration(d, population, draws, cut, swapAt);
      && |next| > 0
      && (forall i :: 0 <= i < |next| ==> Fitness(d, next[0]) <= Fitness(d, next[i]))
      && (forall i :: 0 <= i < |population| ==> Fitness(d, next[0]) <= Fitness(d, population[i]))
      && (var merged := Merged(d, population, draws, cut, swapAt);
          forall j :: 0 <= j < |merged| ==> Fitness(d, next[0]) <= Fitness(d, merged[j]))
  {
    var front := MutateAll(Offspring(Selected(d, population, draws), cut), swapAt);
    var merged := Merged(d, population, draws, cut, swapAt);
    assert merged == front + population;
    var m := Min(PopulationSize, |merged|);
    assert NextGeneration(d, population, draws, cut, swapAt) == SortByFitness(d, merged)[..m];
    TruncatedHeadIsBest(d, front, population, m);
    SortedHeadIsBest(d, merged);
  }

  /** The parents selected from a population of tours are tours. */
  lemma SelectedTours(d: Distances, population: seq<Route>, draws: seq<real>)
    requires AllTours(population)
    requires |draws| == |population|
    ensures WellFormed(population)
    ensures AllTours(Selected(d, population, draws))
  {
    AllToursWellFormed(population);
    var parents := Selected(d, population, draws);
    SelectedIsSubsequence(d, population, draws);
    forall i | 0 <= i < |parents|
      ensures IsTour(parents[i])
    {
      TourMember(population, parents[i]);
    }
  }

  /** Mutating tours gives tours. */
  lemma MutatedTours(offspring: seq<Route>, swapAt: nat -> (nat, nat))
    requires AllTours(offspring)
    requires ValidSwaps(swapAt)
    ensures WellFormed(offspring)
    ensures AllTours(MutateAll(offspring, swapAt))
  {
    AllToursWellFormed(offspring);
    var mutated := MutateAll(offspring, swapAt);
    forall k | 0 <= k < |mutated|
      ensures IsTour(mutated[k])
    {
      SwapKeepsTour(offspring[k], swapAt(k).0, swapAt(k).1);
    }
  }

  /** The merged pool of a population of tours holds only tours. */
  lemma MergedTours(d: Distances, population: seq<Route>, draws: seq<real>, cut: nat, swapAt: nat -> (nat, nat))
    requires AllTours(population)
    requires |draws| == |population|
    requires 1 <= cut < NumCities
    requires ValidSwaps(swapAt)
    ensures WellFormed(population)
    ensures AllTours(Merged(d, population, draws, cut, swapAt))
  {
    SelectedTours(d, population, draws);
    var parents := Selected(d, population, draws);
    ToursOffspringAreCopies(parents, cut);
    var offspring := Offspring(parents, cut);
    MutatedTours(offspring, swapAt);
    var mutated := MutateAll(offspring, swapAt);
    var merged := Merged(d, population, draws, cut, swapAt);
    assert merged == mutated + population;
    forall j | 0 <= j < |merged|
      ensures IsTour(merged[j])
    {
      if j < |mutated| {
        assert merged[j] == mutated[j];
      } else {
        assert merged[j] == population[j - |mutated|];
      }
    }
  }

  /**
   * A population of tours gives a next generation of tours: the offspring
   * of two tours is a copy of the first, and a swap keeps a tour a tour.
   * With distinct cities a positive distance apart, the next generation's
   * selection therefore never raises either.
   */
  lemma ToursStayTours(d: Distances, population: seq<Route>, draws: seq<real>, cut: nat, swapAt: nat -> (nat, nat))
    requires AllTours(population)
    requires |draws| == |population|
    requires 1 <= cut < NumCities
    requires ValidSwaps(swapAt)
    ensures WellFormed(population)
    ensures AllTours(NextGeneration(d, population, draws, cut, swapAt))
    ensures (forall a, b :: d(a, b) >= 0.0) && (forall a, b :: a != b ==> d(a, b) > 0.0) ==>
      !HasZeroFitness(d, NextGeneration(d, population, draws, cut, swapAt))
  {
    MergedTours(d, population, draws, cut, swapAt);
    var merged := Merged(d, population, draws, cut, swapAt);
    var next := NextGeneration(d, population, draws, cut, swapAt);
    ToursFrom(next, merged);
    if (forall a, b :: d(a, b) >= 0.0) && (forall a, b :: a != b ==> d(a, b) > 0.0) {
      ToursNeverDivideByZero(d, next);
    }
  }

  /** Position i holds the first route of least fitness. */
  predicate IsFirstMinimum(d: Distances, population: seq<Route>, i: nat)
    requires WellFormed(population)
  {
    && i < |population|
    && (forall k :: 0 <= k < |population| ==> Fitness(d, population[i]) <= Fitness(d, population[k]))
    && (forall k :: 0 <= k < i ==> Fitness(d, population[i]) < Fitness(d, population[k]))
  }

  /**
   * The `min(population, key=fitness_score)` of print_found_goal: the first
   * route of least fitness; `min` of an empty population raises.
   */
  method BestRoute(d: Distances, population: seq<Route>) returns (res: Result<Route, Error>)
    requires WellFormed(population)
    ensures res.Failure? <==> population == []
    ensures res.Failure? ==> res.error == EmptySequence
    ensures res.Success? ==> exists i: nat :: IsFirstMinimum(d, population, i) && population[i] == res.value
  {
    if population == [] {
      return Failure(EmptySequence);
    }
    var best := 0;
    var bestFitness := FitnessScore(d, population[0]);
    for i := 1 to |population|
      invariant best < i
      invariant bestFitness == Fitness(d, population[best])
      invariant forall k :: 0 <= k < i ==> bestFitness <= Fitness(d, population[k])
      invariant forall k :: 0 <= k < best ==> bestFitness < Fitness(d, population[k])
    {
      var f := FitnessScore(d, population[i]);
      if f < bestFitness {
        best, bestFitness := i, f;
      }
    }
    assert IsFirstMinimum(d, population, best);
    return Success(population[best]);
  }

  /** At most one position is the first minimum, so the route `min` returns is determined. */
  lemma FirstMinimumUnique(d: Distances, population: seq<Route>, i: nat, j: nat)
    requires WellFormed(population)
    requires IsFirstMinimum(d, population, i) && IsFirstMinimum(d, population, j)
    ensures i == j
  {
    assert Fitness(d, population[i]) == Fitness(d, population[j]);
    assert !(i < j) && !(j < i);
  }

  /**
   * The best route reported after a generation is at least as good as the
   * best one reported before it: the first position of the next generation
   * is its first minimum, and it is no worse than any old route.
   */
  lemma BestNeverWorsens(d: Distances, population: seq<Route>, draws: seq<real>, cut: nat, swapAt: nat -> (nat, nat), i: nat)
    requires WellFormed(population)
    requires |draws| == |population|
    requires 1 <= cut < NumCities
    requires ValidSwaps(swapAt)
    requires IsFirstMinimum(d, population, i)
    ensures var next := NextGeneration(d, population, draws, cut, swapAt);
      && IsFirstMinimum(d, next, 0)
      && Fitness(d, next[0]) <= Fitness(d, population[i])
  {
    Elitism(d, population, draws, cut, swapAt);
  }
}
