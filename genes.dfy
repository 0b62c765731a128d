/** Facts about a rocket's gene list: two integers per stage, the fuel-tank
    size in the even slot and the engine id in the odd slot. Fitness is the sum
    of the genes. */
module Genes {
  import opened PySeq
  import opened RocketUtils

  const StageCount := 3
  const GeneLength := 2 * StageCount

  /** The genes a Rocket gets when it is built from an empty list. */
  const DefaultGenes: seq<int> := [0, 0, 0, 0, 0, 0]

  /** A rocket built from an empty list has fitness 0. */
  lemma DefaultFitness()
    ensures Sum(DefaultGenes) == 0
  {
    SumBounds(DefaultGenes, 0, 0);
  }

  /** Smallest and largest sum of a full gene list drawn by the generators. */
  const LeastFitness := StageCount * 2
  const GreatestFitness := StageCount * (FuelDrawMax + EngineDrawMax)

  /** A value the generator belonging to slot i can produce: odd slots hold
      engine ids, even slots fuel-tank sizes. */
  predicate SlotDraw(i: int, v: int)
  {
    if i % 2 != 0 then IsEngineDraw(v) else IsFuelDraw(v)
  }

  /** Every slot holds a value its generator can produce, as in the genes of
      `create_random_rocket`. */
  predicate WellFormed(g: seq<int>)
  {
    forall i :: 0 <= i < |g| ==> SlotDraw(i, g[i])
  }

  /** `after` is what `Rocket.mutate` can make of `before`: the same length,
      one slot overwritten by its generator, every other slot kept. */
  ghost predicate IsMutation(before: seq<int>, after: seq<int>)
  {
    |after| == |before| &&
    exists i :: 0 <= i < |before| && SlotDraw(i, after[i]) && after == before[i := after[i]]
  }

  /** Single-point crossover `first[:split] + second[split:]`. */
  function Crossover(first: seq<int>, second: seq<int>, split: int): (g: seq<int>)
    ensures 0 <= split <= |first| == |second| ==>
              |g| == |first| &&
              (forall i :: 0 <= i < split ==> g[i] == first[i]) &&
              (forall i :: split <= i < |g| ==> g[i] == second[i])
  {
    SliceTo(first, split) + SliceFrom(second, split)
  }

  /** The offspring's fitness is the fitness of first's head plus that of
      second's tail. */
  lemma CrossoverSum(first: seq<int>, second: seq<int>, split: int)
    requires 0 <= split <= |first| == |second|
    ensures Sum(Crossover(first, second, split)) == Sum(first[..split]) + Sum(second[split..])
  {
    assert Crossover(first, second, split) == first[..split] + second[split..];
    SumAppend(first[..split], second[split..]);
  }

  /** Crossover keeps slot parity, so it keeps genes well formed. */
  lemma CrossoverWellFormed(first: seq<int>, second: seq<int>, split: int)
    requires 0 <= split <= |first| == |second|
    requires WellFormed(first) && WellFormed(second)
    ensures WellFormed(Crossover(first, second, split))
  {
    var g := Crossover(first, second, split);
    forall i | 0 <= i < |g| ensures SlotDraw(i, g[i]) {
      if i < split { assert g[i] == first[i]; } else { assert g[i] == second[i]; }
    }
  }

  /** Mutation keeps genes well formed. */
  lemma MutationWellFormed(before: seq<int>, after: seq<int>)
    requires WellFormed(before) && IsMutation(before, after)
    ensures WellFormed(after)
  {
    var k :| 0 <= k < |before| && SlotDraw(k, after[k]) && after == before[k := after[k]];
    forall i | 0 <= i < |after| ensures SlotDraw(i, after[i]) {
      if i != k { assert after[i] == before[i]; }
    }
  }

  /** Mutation changes the sum by exactly the difference at the one slot it
      overwrites. */
  lemma MutationSum(before: seq<int>, after: seq<int>)
    requires IsMutation(before, after)
    ensures exists i :: 0 <= i < |before| && Sum(after) == Sum(before) - before[i] + after[i]
  {
    var k :| 0 <= k < |before| && SlotDraw(k, after[k]) && after == before[k := after[k]];
    SumUpdate(before, k, after[k]);
  }

  /** A well-formed list of GeneLength genes has fitness in
      [LeastFitness, GreatestFitness]. */
  lemma FitnessRange(g: seq<int>)
    requires |g| == GeneLength && WellFormed(g)
    ensures LeastFitness <= Sum(g) <= GreatestFitness
  {
    forall i | 0 <= i < |g| ensures 1 <= g[i] <= 20 {
      assert SlotDraw(i, g[i]);
    }
    SumBounds(g, 1, 20);
  }
}
