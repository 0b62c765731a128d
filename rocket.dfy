/** `Rocket`: one individual of the genetic algorithm, with its gene list and
    its cached fitness. */
module Rockets {
  import opened PySeq
  import opened Random
  import opened RocketUtils
  import opened Genes

  class Rocket {
    var genes: seq<int>
    /** Cached; recomputed by EvaluateFitness only. */
    var fitness: int

    /** An empty gene list is replaced by six zeros; fitness is evaluated at
        once. (The source also treats None as empty.) */
    constructor (newGenes: seq<int>)
      ensures genes == (if newGenes == [] then DefaultGenes else newGenes)
      ensures genes != []
      ensures fitness == Sum(genes)
      ensures newGenes == [] ==> fitness == 0
    {
      genes := if newGenes == [] then DefaultGenes else newGenes;
      new;
      EvaluateFitness();
      DefaultFitness();
    }

    /** `evaulate_fitness` in the source. */
    method EvaluateFitness()
      modifies this`fitness
      ensures fitness == Sum(genes)
    {
      fitness := Sum(genes);
    }

    /** Overwrites one randomly chosen slot with a value from the generator
        of its parity. Fitness is NOT recomputed: it still describes the
        genes before the call. */
    method Mutate()
      requires genes != []
      modifies this`genes
      ensures IsMutation(old(genes), genes)
      ensures fitness == old(fitness)
    {
      var slot := RandInt(0, |genes| - 1);
      var value;
      if slot % 2 != 0 {
        value := RandomEngine();
      } else {
        value := RandomFuel();
      }
      ghost var before := genes;
      genes := genes[slot := value];
      assert SlotDraw(slot, genes[slot]) && genes == before[slot := genes[slot]];
    }
  }
}
