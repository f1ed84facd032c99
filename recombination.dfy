/**
 * crossover with MIXING_NUMBER = 2: one offspring per ordered pair of
 * distinct parent positions, each a copy of the first parent whose suffix
 * from the cut point is conditionally replaced by the second parent's.
 * The single cut point, drawn from [1, NUM_CITIES - 1], is a parameter.
 */
module Recombination {
  import opened Tours

  /** Lexicographic order on position pairs, the order itertools.permutations yields them in. */
  predicate Before(p: (nat, nat), q: (nat, nat)) {
    p.0 < q.0 || (p.0 == q.0 && p.1 < q.1)
  }

  /** The pairs (a, b) with b < m and b != a, in increasing b. */
  function Row(a: nat, m: nat): (row: seq<(nat, nat)>)
    ensures |row| == if a < m then m - 1 else m
    ensures forall k :: 0 <= k < |row| ==> row[k].0 == a && row[k].1 < m && row[k].1 != a
    ensures forall k, l :: 0 <= k < l < |row| ==> row[k].1 < row[l].1
    ensures forall b :: 0 <= b < m && b != a ==> (a, b) in row
  {
    if m == 0 then []
    else
      var before := Row(a, m - 1);
      if m - 1 != a then before + [(a, m - 1)] else before
  }

  /**
   * The ordered pairs of distinct positions below p whose first position
   * is below n, in lexicographic order.
   */
  function PairsBelow(p: nat, n: nat): (pairs: seq<(nat, nat)>)
    requires n <= p
    ensures |pairs| == n * (p - 1)
    ensures forall k :: 0 <= k < |pairs| ==> pairs[k].0 < n && pairs[k].1 < p && pairs[k].0 != pairs[k].1
    ensures forall k, l :: 0 <= k < l < |pairs| ==> Before(pairs[k], pairs[l])
    ensures forall a, b :: 0 <= a < n && 0 <= b < p && a != b ==> (a, b) in pairs
  {
    if n == 0 then []
    else
      var before := PairsBelow(p, n - 1);
      var row := Row(n - 1, p);
      assert |before + row| == (n - 1) * (p - 1) + (p - 1) == n * (p - 1);
      before + row
  }

  /**
   * itertools.permutations(range(p), 2): every ordered pair of distinct
   * positions, each once, in lexicographic order; p * (p - 1) of them.
   */
  function OrderedPairs(p: nat): (pairs: seq<(nat, nat)>)
    ensures |pairs| == p * (p - 1)
    ensures forall k :: 0 <= k < |pairs| ==> pairs[k].0 < p && pairs[k].1 < p && pairs[k].0 != pairs[k].1
    ensures forall k, l :: 0 <= k < l < |pairs| ==> Before(pairs[k], pairs[l])
    ensures forall a, b :: 0 <= a < p && 0 <= b < p && a != b ==> (a, b) in pairs
  {
    PairsBelow(p, p)
  }

  /**
   * The offspring of the ordered pair (first, second): a copy of first, whose
   * suffix from the cut point is replaced by second's suffix when that suffix
   * holds a city absent from first.
   */
  function Child(first: Route, second: Route, cut: nat): (child: Route)
    requires |first| == |second| == NumCities
    requires 1 <= cut < NumCities
    ensures |child| == |first|
    ensures child[..cut] == first[..cut]
    ensures child[cut..] == first[cut..] || child[cut..] == second[cut..]
  {
    if exists city :: city in second[cut..] && city !in first then first[..cut] + second[cut..]
    else first
  }

  /**
   * The body of the loop over permutations: copy the first parent, scan the
   * second parent's suffix, and on the first city missing from the copy
   * splice that suffix in and stop scanning.
   */
  method MakeChild(first: Route, second: Route, cut: nat) returns (offspring: Route)
    requires |first| == |second| == NumCities
    requires 1 <= cut < NumCities
    ensures offspring == Child(first, second, cut)
  {
    offspring := first;
    var parentPart := second[cut..];
    var k := 0;
    while k < |parentPart|
      invariant 0 <= k <= |parentPart|
      invariant offspring == first
      invariant forall m :: 0 <= m < k ==> parentPart[m] in first
    {
      if parentPart[k] !in offspring {
        offspring := offspring[..cut] + parentPart;
        break;
      }
      k := k + 1;
    }
  }

  /** The offspring of each listed pair of parent positions, in list order. */
  function Children(parents: seq<Route>, pairs: seq<(nat, nat)>, cut: nat): (offspring: seq<Route>)
    requires WellFormed(parents)
    requires forall k :: 0 <= k < |pairs| ==> pairs[k].0 < |parents| && pairs[k].1 < |parents|
    requires 1 <= cut < NumCities
    ensures |offspring| == |pairs|
    ensures WellFormed(offspring)
  {
    seq(|pairs|, k requires 0 <= k < |pairs| => Child(parents[pairs[k].0], parents[pairs[k].1], cut))
  }

  lemma ChildrenSnoc(parents: seq<Route>, pairs: seq<(nat, nat)>, a: nat, b: nat, cut: nat)
    requires WellFormed(parents)
    requires forall k :: 0 <= k < |pairs| ==> pairs[k].0 < |parents| && pairs[k].1 < |parents|
    requires a < |parents| && b < |parents|
    requires 1 <= cut < NumCities
    ensures Children(parents, pairs + [(a, b)], cut)
         == Children(parents, pairs, cut) + [Child(parents[a], parents[b], cut)]
  {
    var longer := Children(parents, pairs + [(a, b)], cut);
    var shorter := Children(parents, pairs, cut);
    assert forall k :: 0 <= k < |pairs| ==> longer[k] == shorter[k];
  }

  /** What crossover returns for these parents and this cut point. */
  function Offspring(parents: seq<Route>, cut: nat): (offspring: seq<Route>)
    requires WellFormed(parents)
    requires 1 <= cut < NumCities
    ensures |offspring| == |parents| * (|parents| - 1)
    ensures WellFormed(offspring)
  {
    Children(parents, OrderedPairs(|parents|), cut)
  }

  /** The loop of crossover: one offspring per listed pair of parent positions, in list order. */
  method BuildChildren(parents: seq<Route>, pairs: seq<(nat, nat)>, cut: nat) returns (offspring: seq<Route>)
    requires WellFormed(parents)
    requires forall k :: 0 <= k < |pairs| ==> pairs[k].0 < |parents| && pairs[k].1 < |parents|
    requires 1 <= cut < NumCities
    ensures offspring == Children(parents, pairs, cut)
  {
    offspring := [];
    for k := 0 to |pairs|
      invariant offspring == Children(parents, pairs[..k], cut)
    {
      var (a, b) := pairs[k];
      var child := MakeChild(parents[a], parents[b], cut);
      ChildrenSnoc(parents, pairs[..k], a, b, cut);
      assert pairs[..k] + [(a, b)] == pairs[..k + 1];
      offspring := offspring + [child];
    }
    assert pairs[..|pairs|] == pairs;
  }

  /**
   * crossover: lists the ordered pairs of parents, then builds one
   * offspring per pair, in that order.
   */
  method Crossover(parents: seq<Route>, cut: nat) returns (offspring: seq<Route>)
    requires WellFormed(parents)
    requires 1 <= cut < NumCities
    ensures offspring == Offspring(parents, cut)
  {
    var permutations := OrderedPairs(|parents|);
    offspring := BuildChildren(parents, permutations, cut);
  }

  /**
   * Each offspring has its first parent's length and prefix, and keeps
   * either its first or its second parent's suffix; and one offspring is
   * produced for every ordered pair of distinct parent positions.
   */
  lemma OffspringPerPair(parents: seq<Route>, cut: nat, a: nat, b: nat)
    requires WellFormed(parents)
    requires 1 <= cut < NumCities
    requires a < |parents| && b < |parents| && a != b
    ensures exists k :: (0 <= k < |Offspring(parents, cut)| && OrderedPairs(|parents|)[k] == (a, b)
                         && Offspring(parents, cut)[k] == Child(parents[a], parents[b], cut))
  {
    var pairs := OrderedPairs(|parents|);
    assert (a, b) in pairs;
    var k :| 0 <= k < |pairs| && pairs[k] == (a, b);
    assert Offspring(parents, cut)[k] == Child(parents[a], parents[b], cut);
  }

  /** Fewer than two parents give no offspring, not an error. */
  lemma TooFewParents(parents: seq<Route>, cut: nat)
    requires WellFormed(parents)
    requires 1 <= cut < NumCities
    requires |parents| < 2
    ensures Offspring(parents, cut) == []
  {
  }

  /**
   * When every city of the second parent's suffix already occurs in the
   * first parent, the splice never happens and the offspring is a copy of
   * the first parent.
   */
  lemma NoNewCityNoSplice(first: Route, second: Route, cut: nat)
    requires |first| == |second| == NumCities
    requires 1 <= cut < NumCities
    requires forall i :: cut <= i < |second| ==> second[i] in first
    ensures Child(first, second, cut) == first
  {
    forall city | city in second[cut..]
      ensures city in first
    {
      var m :| 0 <= m < |second[cut..]| && second[cut..][m] == city;
      assert second[cut + m] == city;
    }
  }

  /** Two tours hold the same cities, so their offspring is a copy of the first. */
  lemma TourChildIsFirstParent(first: Route, second: Route, cut: nat)
    requires IsTour(first) && IsTour(second)
    requires 1 <= cut < NumCities
    ensures |first| == |second| == NumCities
    ensures Child(first, second, cut) == first
  {
    TourShape(first);
    TourShape(second);
    forall i | cut <= i < |second|
      ensures second[i] in first
    {
      assert second[i] in multiset(second);
    }
    NoNewCityNoSplice(first, second, cut);
  }

  /**
   * On a population of tours crossover is a copying step: the offspring of
   * the pair (a, b) is parents[a], so every offspring is a tour.
   */
  lemma ToursOffspringAreCopies(parents: seq<Route>, cut: nat)
    requires AllTours(parents)
    requires 1 <= cut < NumCities
    ensures WellFormed(parents)
    ensures forall k :: 0 <= k < |Offspring(parents, cut)| ==>
      Offspring(parents, cut)[k] == parents[OrderedPairs(|parents|)[k].0]
    ensures AllTours(Offspring(parents, cut))
  {
    AllToursWellFormed(parents);
    var pairs := OrderedPairs(|parents|);
    var offspring := Offspring(parents, cut);
    assert offspring == Children(parents, pairs, cut);
    forall k | 0 <= k < |offspring|
      ensures offspring[k] == parents[pairs[k].0]
    {
      assert offspring[k] == Child(parents[pairs[k].0], parents[pairs[k].1], cut);
      TourChildIsFirstParent(parents[pairs[k].0], parents[pairs[k].1], cut);
    }
  }
}
