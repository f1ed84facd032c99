# A verified model of a genetic-algorithm TSP solver

The modelled program is a genetic algorithm for the Travelling Salesman Problem over ten Brazilian cities
(`caixeiro_viajante_GA.py`). A route is a list of city names. Its fitness is the length of the closed
tour, so lower is better. One generation does the following:
- **Select.** Each individual becomes a parent when a random draw falls below `1 / fitness`.
- **Cross over.** Every ordered pair of distinct parents produces one offspring: a copy of the first
  parent, whose suffix from a random cut point is replaced by the second parent's suffix when that
  suffix holds a city missing from the copy.
- **Mutate.** Every offspring has two distinct positions swapped.
- **Merge and truncate.** The mutated offspring and the whole old population are sorted by fitness
  and cut to `POPULATION_SIZE` (30).

The driver also reports the first route of least fitness.

The model is imperative where the program is:
- `FitnessScore`, `Select`, `MakeChild`, `BuildChildren` (the loop of `Crossover`), `MutateEach`, `AppendAll` and `BestRoute` are
  methods with loops.
- `Mutate` swaps two cells of an `array` in place.
- `Evolve` chains them.

Each method except `BestRoute` is proved equal to a specification function. `BestRoute` is
characterized by the predicate `IsFirstMinimum`: its result sits at the first position of least
fitness. The properties the program relies on are proved about those functions.

The random choices are parameters:
- `draws` holds one `random.random()` value in [0, 1) per individual.
- `cut` is the cut point from `random.sample(range(1, NUM_CITIES), 1)`.
- `swapAt(k)` gives the two distinct positions `random.sample(range(NUM_CITIES), 2)` draws for the
  k-th offspring.

The distance table is a parameter `d: (City, City) -> real` looked up as `d(from, to)`. Its values are
reals because the table holds non-integer distances, such as 41.1 and 86.3 (lines 18-19). It need not
be symmetric: the program's own table is not (Montes Claros→Ouro Preto is 513 at line 62, Ouro
Preto→Montes Claros is 60 at line 98). So no reversal property is claimed.

The main facts proved:
- Fitness is the sum of the legs plus the closing leg. It is unchanged by rotation. It is
  non-negative for non-negative distances, and positive on routes without repeated cities when
  distinct cities are a positive distance apart.
- Selection returns an order-preserving subsequence in which position i appears exactly when its
  draw is below `1 / fitness`. It raises `ZeroDivisionError` exactly when some route has fitness 0.
- Crossover returns one offspring per ordered pair of distinct parent positions, p·(p−1) in
  `itertools.permutations` order. With fewer than two parents it returns an empty list. Each
  offspring has the first parent's length and prefix, and the suffix of one of its parents. When
  both parents are tours, the splice condition can never hold, so every offspring is a copy of its
  first parent.
- Mutation swaps exactly the two chosen positions and keeps the multiset of cities.
- A generation is sorted by fitness and has `min(30, |offspring| + |population|)` routes. Each of
  them comes from the mutated offspring or the old population, with no route kept more often than
  it occurs there. Every route the cut leaves out is no better than every route kept. Its first
  route is no worse than any route of the merged pool, old routes included (elitism).
- A population of tours yields a population of tours. With positive distances between distinct
  cities, the selection therefore never divides by zero in any later generation.

Three behaviours of the code that are easy to get wrong, and that the model keeps:
- The distance table is not symmetric (line 62 against line 98), so no property assumes
  `d(a, b) == d(b, a)`.
- Fewer than two parents are not an error: `itertools.permutations` of them is empty, so crossover
  returns an empty list (lines 185-200).
- The splice test `city not in offspring` (line 194) runs against the whole copy of the first
  parent. When both parents are tours every city of the second parent's suffix occurs in that copy,
  so the test never fires and crossover creates no duplicate city.

## Model

| member | source | states |
|---|---|---|
| `Tours.CitiesDistinct` | caixeiro_viajante_GA.py:8-9 | the city list has NUM_CITIES = 10 entries, all different |
| `Tours.TourShape` | caixeiro_viajante_GA.py:242-249 | a route shaped like `random.sample(CITIES, NUM_CITIES)` (a permutation of the cities) has NUM_CITIES entries and no repeated city |
| `Scoring.FitnessScore` | caixeiro_viajante_GA.py:149-160 | the loop over the first NUM_CITIES − 1 positions plus the closing leg returns the sum of d(route[i], route[i+1]) for i < N−1 plus d(route[N−1], route[0]) |
| `Scoring.PathSnoc` | caixeiro_viajante_GA.py:152-155 | appending a city adds exactly one leg, from the previous last city, which is what each loop step accumulates |
| `Scoring.PathNonNegative` | caixeiro_viajante_GA.py:152-155 | with non-negative distances the summed consecutive legs are non-negative |
| `Scoring.FitnessNonNegative` | caixeiro_viajante_GA.py:149-160 | with non-negative distances every route's fitness is ≥ 0 |
| `Scoring.FitnessPositive` | caixeiro_viajante_GA.py:158 | when distinct cities are a positive distance apart, a route without repeats has positive fitness, since its closing leg joins two different cities |
| `Scoring.RotateOnce` | caixeiro_viajante_GA.py:152-158 | moving the first city to the end leaves the fitness unchanged |
| `Scoring.FitnessRotation` | caixeiro_viajante_GA.py:152-158 | the fitness of every rotation route[k..] + route[..k] equals the route's fitness (the closing leg makes the legs a cycle) |
| `Selection.SelectedIndices` | caixeiro_viajante_GA.py:168-173 | the positions kept are strictly increasing and in range, and position i is kept exactly when fitness ≠ 0 and its draw < 1 / fitness |
| `Selection.Select` | caixeiro_viajante_GA.py:165-175 | fails with ZeroDivisionError exactly when some route has fitness 0, and otherwise returns the routes at the kept positions, in population order |
| `Selection.SelectedIsSubsequence` | caixeiro_viajante_GA.py:165-175 | the parents are an order-preserving subsequence of the population, no longer than it, and position i is included exactly when its draw passes the test |
| `Selection.ShortRouteAlwaysChosen` | caixeiro_viajante_GA.py:172 | there is no clamping: a route with 0 < fitness ≤ 1 is chosen for every draw in [0, 1) |
| `Selection.NegativeFitnessNeverChosen` | caixeiro_viajante_GA.py:172 | a route of negative fitness is never chosen |
| `Selection.ToursNeverDivideByZero` | caixeiro_viajante_GA.py:172 | on a population of tours, with distinct cities a positive distance apart, no fitness is 0, so the selection does not raise |
| `Recombination.Row` | caixeiro_viajante_GA.py:185 | the pairs (a, b) with b below the bound and b ≠ a, each once, in increasing b |
| `Recombination.PairsBelow` | caixeiro_viajante_GA.py:185 | the ordered pairs of distinct positions with first position below n: n·(p−1) of them, lexicographically increasing, all present |
| `Recombination.OrderedPairs` | caixeiro_viajante_GA.py:185 | `itertools.permutations` of p parents taken 2: p·(p−1) pairs of distinct positions, strictly increasing in lexicographic order (so no pair twice), every such pair present |
| `Recombination.Child` | caixeiro_viajante_GA.py:188-196 | an offspring has the first parent's length and its prefix before the cut, and its suffix from the cut is the first or the second parent's |
| `Recombination.MakeChild` | caixeiro_viajante_GA.py:188-196 | the copy-scan-splice-break loop yields the first parent with the second's suffix spliced in exactly when that suffix holds a city absent from the first parent, and the first parent otherwise |
| `Recombination.Children` | caixeiro_viajante_GA.py:187-198 | one offspring per listed pair, each of length NUM_CITIES |
| `Recombination.Offspring` | caixeiro_viajante_GA.py:179-200 | crossover of p parents gives p·(p−1) offspring, each of length NUM_CITIES |
| `Recombination.BuildChildren` | caixeiro_viajante_GA.py:186-200 | the loop over any list of in-range parent position pairs returns, in list order, one offspring per pair, each the offspring of that pair |
| `Recombination.Crossover` | caixeiro_viajante_GA.py:179-200 | the loop over the listed permutations returns, in order, the offspring of each ordered pair of parents |
| `Recombination.OffspringPerPair` | caixeiro_viajante_GA.py:185-198 | for every ordered pair (a, b) of distinct parent positions there is an offspring position holding exactly the child of parents[a] and parents[b] |
| `Recombination.TooFewParents` | caixeiro_viajante_GA.py:185-200 | fewer than two parents give an empty offspring list, not an error |
| `Recombination.NoNewCityNoSplice` | caixeiro_viajante_GA.py:193-196 | when every city of the second parent's suffix occurs in the first parent, the offspring equals the first parent |
| `Recombination.TourChildIsFirstParent` | caixeiro_viajante_GA.py:188-196 | the offspring of two tours is a copy of the first (identical parents included) |
| `Recombination.ToursOffspringAreCopies` | caixeiro_viajante_GA.py:187-198 | on tours every offspring is a copy of its pair's first parent, hence a tour |
| `Mutation.Swap` | caixeiro_viajante_GA.py:207 | swapping keeps the length and the multiset of cities |
| `Mutation.Mutate` | caixeiro_viajante_GA.py:204-208 | the in-place exchange leaves the array equal to the old contents with the two positions swapped |
| `Mutation.SwapChangesExactlyTwo` | caixeiro_viajante_GA.py:206-207 | on a route without repeats, with distinct positions, the two positions receive each other's cities and a position changes exactly when it is one of the two |
| `Mutation.SwapKeepsTour` | caixeiro_viajante_GA.py:207 | a mutated tour is a tour |
| `Ranking.Insert` | caixeiro_viajante_GA.py:237 | inserting adds exactly the route: one more element and the multiset grows by it |
| `Ranking.InsertSorted` | caixeiro_viajante_GA.py:237 | inserting into a list sorted by fitness keeps it sorted |
| `Ranking.SortByFitness` | caixeiro_viajante_GA.py:237 | `sorted(..., key=fitness_score)` returns a permutation of its input in ascending fitness order |
| `Ranking.SortedFromInput` | caixeiro_viajante_GA.py:237 | every sorted route comes from the input |
| `Ranking.SortedHeadIsBest` | caixeiro_viajante_GA.py:237 | the first sorted route is no worse than any input route |
| `Ranking.DroppedNoBetter` | caixeiro_viajante_GA.py:237 | in a list sorted by fitness, every route after the cut position is no better than every route before it |
| `Ranking.PrefixKeepsBest` | caixeiro_viajante_GA.py:237 | `sorted(...)[:m]` keeps a sub-multiset of its input, and every input route cut away is no better than every route kept |
| `Ranking.TruncatedHeadIsBest` | caixeiro_viajante_GA.py:234-237 | after appending the population and sorting, the first of the cut list is no worse than any population route |
| `Evolution.MutateAll` | caixeiro_viajante_GA.py:229 | mutation is applied to every offspring, keeping count and lengths |
| `Evolution.MutateEach` | caixeiro_viajante_GA.py:229 | mutating each offspring in place, in order, gives each offspring swapped at its own drawn pair of positions |
| `Evolution.AppendAll` | caixeiro_viajante_GA.py:232-235 | appending every old route to the offspring list gives the offspring followed by the whole population |
| `Evolution.Merged` | caixeiro_viajante_GA.py:232-235 | the merged pool holds well-formed routes and is at least as long as the population (the previous generation is never discarded before the merge) |
| `Evolution.NextGeneration` | caixeiro_viajante_GA.py:221-239 | the next generation has min(POPULATION_SIZE, size of the merged pool) routes, is sorted by fitness, and is a sub-multiset of the merged pool (no route kept more often than it occurs there) |
| `Evolution.TruncationKeepsBest` | caixeiro_viajante_GA.py:231-237 | "keep top fitness individuals": every route of the merged pool that the cut leaves out is no better than every route of the next generation |
| `Evolution.Evolve` | caixeiro_viajante_GA.py:221-239 | one generation raises ZeroDivisionError exactly when the selection does, and otherwise returns the next generation |
| `Evolution.GenerationSize` | caixeiro_viajante_GA.py:237 | a generation never exceeds POPULATION_SIZE and has exactly that many routes once the old population had that many |
| `Evolution.Elitism` | caixeiro_viajante_GA.py:231-237 | the first route of the next generation is its best, and no worse than any route of the merged pool: every mutated offspring and every route of the old population |
| `Evolution.SelectedTours` | caixeiro_viajante_GA.py:223 | parents selected from tours are tours |
| `Evolution.MutatedTours` | caixeiro_viajante_GA.py:229 | mutated tours are tours |
| `Evolution.MergedTours` | caixeiro_viajante_GA.py:223-235 | from a population of tours the merged pool holds only tours |
| `Evolution.ToursStayTours` | caixeiro_viajante_GA.py:221-239 | a population of tours gives a next generation of tours, on which (for positive distances between distinct cities) selection cannot raise |
| `Evolution.BestRoute` | caixeiro_viajante_GA.py:211-218 | `min(population, key=fitness_score)` returns the first route of least fitness, and raises on an empty population |
| `Evolution.FirstMinimumUnique` | caixeiro_viajante_GA.py:212 | only one position is the first minimum, so the reported best route is determined |
| `Evolution.BestNeverWorsens` | caixeiro_viajante_GA.py:212 | the best route reported after a generation is the next generation's first route and is no worse than the best route reported before it |

## Left out

- The driver: the module-level loop, the generation counter, the timers and every `print` (lines 211-218 printing, 252-268). They are experiment plumbing and I/O.
- The random source. `random.random`, `random.sample` and the shuffling in `generate_population` are replaced by the parameters `draws`, `cut` and `swapAt`, each restricted to the range the source draws from. The initial population appears only as the `IsTour` shape that `TourShape` states.
- The literal `CITY_DISTANCES` table (lines 15-145). It becomes the parameter `d`. A lookup of a city missing from the table (`KeyError`) is not modelled, because every route holds only the ten cities (proved for tours by `ToursStayTours`).
- Scoring.Fitness requires a route of exactly NUM_CITIES entries. `fitness_score` indexes up to NUM_CITIES, not `len(route)`, so for other lengths it raises or ignores cities. Every route the solver builds has that length (`WellFormed` is kept by every operation).
- Floating point. Distances, path sums and fitness are exact reals, and `1 / fitness` is exact real division (`Selection.Threshold`). Python's binary floating-point rounding is not modelled, so sums that rounding makes unequal, or ties that it breaks, may order differently.
- `MIXING_NUMBER` other than 2. The model fixes the source's value: one cut point and ordered pairs of parents. The general k-tuple form is not modelled.
- `MUTATION_RATE` and the `scipy` import. Both are unused by the source. Every offspring is mutated, as at line 229.
- Ranking.SortByFitness: Python's `sorted` is stable. `Insert` places a route ahead of later routes of equal fitness, so the model sorts the same way, but stability is not stated as a lemma.
- List identity. Routes are values. The source never changes a list that is shared: crossover copies the first parent and slices the second, and mutation touches only these fresh offspring. So aliasing has nothing to lose here.
- Any convergence or solution-quality claim beyond one-step elitism.
