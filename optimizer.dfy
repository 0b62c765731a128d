/** The optimizer of genetic.py: the concrete methods of the base class
    GeneticOptimizer (the run loop, initialize_run, evaluate_population,
    sort_population and the fitness statistics) and the subclass
    RocketOptimizer's overrides of its empty hooks, merged into one class. */
module Optimizer {
  import opened Wrappers
  import opened PySeq
  import opened Random
  import opened Genes
  import opened Rockets
  import opened Population

  /** The five options `init_from_config` reads from its dictionary. */
  datatype Config = Config(populationSize: int, maxGenerations: int, numFittest: int,
                           mutationRatio: int, mutationThreshold: int)

  const Defaults := Config(50, 400, 50, 100, 5)

  /** One `fitness_history` entry: [average, max, min]. */
  datatype Stats = Stats(average: real, max: int, min: int)

  /** Options under which a generation cannot raise: the breeding pool is
      non-empty and no larger than the population (otherwise an index draw
      fails or falls outside the pool), and the mutation draw has a range. */
  predicate CanBreed(c: Config)
  {
    1 <= c.numFittest <= c.populationSize && 1 <= c.mutationRatio
  }

  /** The options `RocketOptimizer(config)` ends up with as the constructor is
      written: it applies the configuration and then assigns the defaults over
      it, so any configuration passed in is lost. */
  function ConstructorSettingsAsWritten(config: Option<Config>): (s: Config)
    ensures config.Some? && config.value != Defaults ==> s != config.value
  {
    Defaults
  }

  /** The options the constructor evidently means to leave: the configuration
      when one is given, the defaults otherwise. */
  function ConstructorSettings(config: Option<Config>): (s: Config)
    ensures config.Some? ==> s == config.value
    ensures config.None? ==> s == Defaults
  {
    match config
    case Some(c) => c
    case None => Defaults
  }

  /** A population of 10 asked for at construction becomes 50 as written, and
      stays 10 once the defaults come first. */
  lemma ConstructorDropsConfig()
    ensures ConstructorSettingsAsWritten(Some(Config(10, 5, 5, 100, 5))).populationSize == 50
    ensures ConstructorSettings(Some(Config(10, 5, 5, 100, 5))).populationSize == 10
  {
  }

  /** What holds of every rocket a run creates: six genes, each one a value its
      slot's generator can produce, and a fitness in the range such genes sum
      to (the fitness may be stale after mutation, but stays in range). */
  ghost predicate Healthy(r: Rocket)
    reads r
  {
    |r.genes| == GeneLength && WellFormed(r.genes) &&
    LeastFitness <= r.fitness <= GreatestFitness
  }

  /** A history entry of a population of healthy rockets sorted by fitness. */
  predicate ConsistentStats(st: Stats)
  {
    LeastFitness <= st.min && st.min as real <= st.average <= st.max as real &&
    st.max <= GreatestFitness
  }

  /** The gene lists of the rockets of pool, in order: the parents a
      generation is bred from, as they stand when it is bred. */
  function GenesOf(pool: seq<Rocket>): (g: seq<seq<int>>)
    reads pool
  {
    seq(|pool|, i reads pool requires 0 <= i < |pool| => pool[i].genes)
  }

  /** Every entry of a history is consistent. */
  predicate ConsistentHistory(h: seq<Stats>)
  {
    forall k :: 0 <= k < |h| ==> ConsistentStats(h[k])
  }

  lemma ConsistentHistoryAppend(h: seq<Stats>, st: Stats)
    requires ConsistentHistory(h) && ConsistentStats(st)
    ensures ConsistentHistory(h + [st])
  {
  }

  /** The entry `log_results` makes of a sorted population's fitnesses f:
      their mean, the last one and the first one. */
  function StatsOf(f: seq<int>): Stats
    requires f != []
  {
    Stats(Mean(f), f[|f| - 1], f[0])
  }

  /** Entry k of history h is the entry of fitness list gens[k]: the
      history is exactly one logged entry per recorded generation. */
  predicate Logged(h: seq<Stats>, gens: seq<seq<int>>)
  {
    |gens| == |h| && forall k :: 0 <= k < |gens| ==> gens[k] != [] && h[k] == StatsOf(gens[k])
  }

  lemma LoggedAppend(h: seq<Stats>, gens: seq<seq<int>>, f: seq<int>)
    requires Logged(h, gens) && f != []
    ensures Logged(h + [StatsOf(f)], gens + [f])
  {
  }

  /** gens[k] is the fitness list of population pops[k], and every one of
      those populations held between generations. */
  ghost predicate GensArePops(gens: seq<seq<int>>, pops: seq<seq<Rocket>>, size: int)
    reads set k, i | 0 <= k < |pops| && 0 <= i < |pops[k]| :: pops[k][i]
  {
    |gens| == |pops| &&
    forall k :: 0 <= k < |pops| ==> gens[k] == Fitnesses(pops[k]) && Evolving(pops[k], size)
  }

  lemma GensArePopsAppend(gens: seq<seq<int>>, pops: seq<seq<Rocket>>, size: int, pop: seq<Rocket>)
    requires GensArePops(gens, pops, size) && Evolving(pop, size)
    ensures GensArePops(gens + [Fitnesses(pop)], pops + [pop], size)
  {
    assert forall k :: 0 <= k < |pops| ==> (pops + [pop])[k] == pops[k];
  }

  /** g is what `breed_two` can make from the first n parent gene lists: the
      head of one parent followed by the tail of another (possibly the same
      one), split at a point in [1, len-1]. */
  ghost predicate IsOffspring(g: seq<int>, parents: seq<seq<int>>, n: int)
  {
    exists a, b, k :: 0 <= a < n && 0 <= b < n && a < |parents| && b < |parents| &&
      1 <= k < |parents[a]| && g == Crossover(parents[a], parents[b], k)
  }

  /** Every rocket of pop is an offspring of the parents with its fitness
      evaluated. */
  ghost predicate AllBred(pop: seq<Rocket>, parents: seq<seq<int>>, n: int)
    reads pop
  {
    forall i :: 0 <= i < |pop| ==>
      IsOffspring(pop[i].genes, parents, n) && pop[i].fitness == Sum(pop[i].genes)
  }

  lemma AllBredAppend(pop: seq<Rocket>, child: Rocket, parents: seq<seq<int>>, n: int)
    requires AllBred(pop, parents, n)
    requires IsOffspring(child.genes, parents, n) && child.fitness == Sum(child.genes)
    ensures AllBred(pop + [child], parents, n)
  {
  }

  /** The first n parents have six well-formed genes each. */
  ghost predicate HealthyParents(parents: seq<seq<int>>, n: int)
  {
    n <= |parents| &&
    forall i :: 0 <= i < n ==> |parents[i]| == GeneLength && WellFormed(parents[i])
  }

  /** Offspring of healthy parents have six well-formed genes and a fitness in
      range. */
  lemma OffspringHealthy(g: seq<int>, parents: seq<seq<int>>, n: int)
    requires HealthyParents(parents, n) && IsOffspring(g, parents, n)
    ensures |g| == GeneLength && WellFormed(g)
    ensures LeastFitness <= Sum(g) <= GreatestFitness
  {
    var a, b, k :| 0 <= a < n && 0 <= b < n && a < |parents| && b < |parents| &&
      1 <= k < |parents[a]| && g == Crossover(parents[a], parents[b], k);
    CrossoverWellFormed(parents[a], parents[b], k);
    FitnessRange(g);
  }

  /** bred is one generation before sorting: born[i] is the gene list
      bred[i] was made with, an offspring of the parents; its fitness was
      evaluated then; since then at most one mutation has changed its
      genes. */
  ghost predicate BredFrom(bred: seq<Rocket>, born: seq<seq<int>>, parents: seq<seq<int>>, n: int)
    reads bred
  {
    |bred| == |born| &&
    forall i :: 0 <= i < |bred| ==>
      IsOffspring(born[i], parents, n) && bred[i].fitness == Sum(born[i]) &&
      (bred[i].genes == born[i] || IsMutation(born[i], bred[i].genes))
  }

  /** pop is one generation made from the parents: the fitness sort of
      `bred`, bred from gene lists `born` as BredFrom says. */
  ghost predicate NextPopulation(pop: seq<Rocket>, parents: seq<seq<int>>, bred: seq<Rocket>,
                                 born: seq<seq<int>>, n: int)
    reads bred
  {
    pop == SortByFitness(bred) && BredFrom(bred, born, parents, n)
  }

  /** A generation bred from healthy parents is healthy, mutated or not: the
      genes stay well formed and the fitness evaluated at breeding is in
      range. */
  lemma BredFromHealthy(bred: seq<Rocket>, born: seq<seq<int>>, parents: seq<seq<int>>, n: int)
    requires HealthyParents(parents, n) && BredFrom(bred, born, parents, n)
    ensures forall i :: 0 <= i < |bred| ==> Healthy(bred[i])
  {
    forall i | 0 <= i < |bred| ensures Healthy(bred[i]) {
      OffspringHealthy(born[i], parents, n);
      if bred[i].genes != born[i] {
        MutationWellFormed(born[i], bred[i].genes);
      }
    }
  }

  /** What holds of the population between generations of a run with the
      given population size. */
  ghost predicate Evolving(pop: seq<Rocket>, size: int)
    reads pop
  {
    |pop| == (if size > 0 then size else 0) &&
    SortedByFitness(pop) && Distinct(pop) &&
    forall i :: 0 <= i < |pop| ==> Healthy(pop[i])
  }

  /** The entry LogResults appends for a population between generations
      is consistent: its fields are the mean, last and first fitness. */
  lemma StatsConsistent(pop: seq<Rocket>, size: int)
    requires Evolving(pop, size) && pop != []
    ensures ConsistentStats(Stats(Mean(Fitnesses(pop)), pop[|pop| - 1].fitness, pop[0].fitness))
  {
    SortedMean(pop);
    assert Healthy(pop[0]) && Healthy(pop[|pop| - 1]);
  }

  class RocketOptimizer {
    var populationSize: int
    var maxGenerations: int
    /** Size of the breeding pool. */
    var numFittest: int
    /** A rocket mutates when a draw from [0, mutationRatio) is below
        mutationThreshold. */
    var mutationRatio: int
    var mutationThreshold: int

    var population: seq<Rocket>
    var currentGeneration: int
    var fitnessHistory: seq<Stats>

    function Settings(): Config
      reads this`populationSize, this`maxGenerations, this`numFittest
      reads this`mutationRatio, this`mutationThreshold
    {
      Config(populationSize, maxGenerations, numFittest, mutationRatio, mutationThreshold)
    }

    /** None stands for the default argument `[]`. As in the source, a given
        configuration is applied first and the defaults are then assigned
        over it; ConstructorSettings states the evidently intended result. */
    constructor (config: Option<Config>)
      ensures Settings() == ConstructorSettingsAsWritten(config)
      ensures population == [] && currentGeneration == 0 && fitnessHistory == []
    {
      new;
      InitializeRun();
      if config.Some? {
        InitFromConfig(config.value);
      }
      populationSize, maxGenerations, numFittest := 50, 400, 50;
      mutationRatio, mutationThreshold := 100, 5;
    }

    /** The constructor with its evident intent: the defaults are assigned
        first and a given configuration then overrides them. */
    constructor Configured(config: Option<Config>)
      ensures Settings() == ConstructorSettings(config)
      ensures population == [] && currentGeneration == 0 && fitnessHistory == []
    {
      new;
      InitializeRun();
      populationSize, maxGenerations, numFittest := 50, 400, 50;
      mutationRatio, mutationThreshold := 100, 5;
      if config.Some? {
        InitFromConfig(config.value);
      }
    }

    method InitFromConfig(config: Config)
      modifies this
      ensures Settings() == config
      ensures population == old(population) && currentGeneration == old(currentGeneration)
      ensures fitnessHistory == old(fitnessHistory)
    {
      populationSize := config.populationSize;
      maxGenerations := config.maxGenerations;
      numFittest := config.numFittest;
      mutationRatio := config.mutationRatio;
      mutationThreshold := config.mutationThreshold;
    }

    /** Clears the run state; the options are kept. */
    method InitializeRun()
      modifies this`population, this`currentGeneration, this`fitnessHistory
      ensures population == [] && currentGeneration == 0 && fitnessHistory == []
      ensures Settings() == old(Settings())
    {
      population := [];
      currentGeneration := 0;
      fitnessHistory := [];
    }

    /** `reset` without clearing the plot. */
    method Reset()
      modifies this`population, this`currentGeneration, this`fitnessHistory
      ensures population == [] && currentGeneration == 0 && fitnessHistory == []
      ensures Settings() == old(Settings())
    {
      InitializeRun();
    }

    /** Recomputes every member's fitness from its genes. */
    method EvaluatePopulation()
      modifies population
      ensures forall i :: 0 <= i < |population| ==> population[i].fitness == Sum(population[i].genes)
      ensures forall i :: 0 <= i < |population| ==> population[i].genes == old(population[i].genes)
    {
      var i := 0;
      while i < |population|
        invariant 0 <= i <= |population|
        invariant forall j :: 0 <= j < i ==> population[j].fitness == Sum(population[j].genes)
        invariant forall j :: 0 <= j < |population| ==> population[j].genes == old(population[j].genes)
      {
        population[i].EvaluateFitness();
        i := i + 1;
      }
    }

    method SortPopulation()
      modifies this`population
      ensures population == SortByFitness(old(population))
    {
      population := SortByFitness(population);
    }

    /** The average fitness, accumulated over the population. Python raises
        ZeroDivisionError on an empty population. */
    method AverageFitness() returns (average: real)
      requires population != []
      ensures average == Mean(Fitnesses(population))
    {
      ghost var f := Fitnesses(population);
      var total := 0;
      var i := 0;
      while i < |population|
        invariant 0 <= i <= |population|
        invariant total == Sum(f[..i])
      {
        assert f[..i + 1][..i] == f[..i];
        total := total + population[i].fitness;
        i := i + 1;
      }
      assert f[..|population|] == f;
      average := (total as real) / (|population| as real);
    }

    /** The last member's fitness. */
    function MaxFitness(): int
      reads this`population, population
      requires population != []
    {
      population[|population| - 1].fitness
    }

    /** The first member's fitness. */
    function MinFitness(): int
      reads this`population, population
      requires population != []
    {
      population[0].fitness
    }

    /** MaxFitness is the fitness of a member, and the greatest one when the
        population is sorted. */
    lemma MaxFitnessIsGreatest()
      requires population != []
      ensures MaxFitness() in Fitnesses(population)
      ensures SortedByFitness(population) ==>
                forall i :: 0 <= i < |population| ==> population[i].fitness <= MaxFitness()
    {
      var f := Fitnesses(population);
      assert f[|f| - 1] in f;
    }

    /** MinFitness is the fitness of a member, and the least one when the
        population is sorted. */
    lemma MinFitnessIsLeast()
      requires population != []
      ensures MinFitness() in Fitnesses(population)
      ensures SortedByFitness(population) ==>
                forall i :: 0 <= i < |population| ==> MinFitness() <= population[i].fitness
    {
      var f := Fitnesses(population);
      assert f[0] in f;
    }

    /** Three random fuel sizes and engine ids, alternating. */
    method CreateRandomRocket() returns (r: Rocket)
      ensures fresh(r) && Healthy(r) && r.fitness == Sum(r.genes)
    {
      var f0 := RocketUtils.RandomFuel();
      var e0 := RocketUtils.RandomEngine();
      var f1 := RocketUtils.RandomFuel();
      var e1 := RocketUtils.RandomEngine();
      var f2 := RocketUtils.RandomFuel();
      var e2 := RocketUtils.RandomEngine();
      var g := [f0, e0, f1, e1, f2, e2];
      assert WellFormed(g) by {
        forall i | 0 <= i < |g| ensures SlotDraw(i, g[i]) {
          if i % 2 == 0 { assert g[i] in {f0, f1, f2}; } else { assert g[i] in {e0, e1, e2}; }
        }
      }
      r := new Rocket(g);
      FitnessRange(r.genes);
    }

    /** Appends populationSize fresh random rockets (none when it is not
        positive); `created` is the list of them. */
    method AddRandomRockets() returns (ghost created: seq<Rocket>)
      modifies this`population
      ensures |created| == (if populationSize > 0 then populationSize else 0)
      ensures Distinct(created)
      ensures fresh(Members(created))
      ensures forall i :: 0 <= i < |created| ==>
                Healthy(created[i]) && created[i].fitness == Sum(created[i].genes)
      ensures population == old(population) + created
    {
      created := [];
      var i := 0;
      while i < populationSize
        invariant 0 <= i == |created| <= (if populationSize > 0 then populationSize else 0)
        invariant population == old(population) + created
        invariant Distinct(created)
        invariant fresh(Members(created))
        invariant forall j :: 0 <= j < |created| ==>
                    Healthy(created[j]) && created[j].fitness == Sum(created[j].genes)
      {
        var r := CreateRandomRocket();
        population := population + [r];
        DistinctAppend(created, r);
        created := created + [r];
        i := i + 1;
      }
    }

    /** Appends populationSize fresh random rockets and sorts. */
    method InitializePopulation() returns (ghost created: seq<Rocket>)
      modifies this`population
      ensures |created| == (if populationSize > 0 then populationSize else 0)
      ensures Distinct(created)
      ensures fresh(Members(created))
      ensures forall i :: 0 <= i < |created| ==>
                Healthy(created[i]) && created[i].fitness == Sum(created[i].genes)
      ensures population == SortByFitness(old(population) + created)
    {
      created := AddRandomRockets();
      SortPopulation();
    }

    /** The loop stops once the generation counter exceeds maxGenerations. */
    predicate EndPointReached()
      reads this`currentGeneration, this`maxGenerations
    {
      currentGeneration > maxGenerations
    }

    /** The breeding pool `population[population_size - num_fittest:]`: a
        suffix of the population, the numFittest fittest members when the
        population is sorted and has populationSize members. */
    function GetFittest(): (pool: seq<Rocket>)
      reads this`population, this`populationSize, this`numFittest, population
      ensures |pool| <= |population| && pool == population[|population| - |pool|..]
      ensures 0 <= numFittest <= populationSize == |population| ==> |pool| == numFittest
      ensures SortedByFitness(population) ==>
                forall i, j :: 0 <= i < |population| - |pool| <= j < |population| ==>
                  population[i].fitness <= population[j].fitness
    {
      SliceFrom(population, populationSize - numFittest)
    }

    /** A new rocket from two parents drawn from the first numFittest members
        of the pool, by single-point crossover. */
    method BreedTwo(pool: seq<Rocket>) returns (child: Rocket)
      requires 1 <= numFittest <= |pool|
      requires forall i :: 0 <= i < numFittest ==> |pool[i].genes| >= 2
      ensures fresh(child)
      ensures IsOffspring(child.genes, GenesOf(pool), numFittest)
      ensures child.fitness == Sum(child.genes)
    {
      var firstIndex := RandInt(0, numFittest - 1);
      var secondIndex := RandInt(0, numFittest - 1);
      var first := pool[firstIndex].genes;
      var second := pool[secondIndex].genes;
      var split := RandInt(1, |first| - 1);
      var newGenes := Crossover(first, second, split);
      assert |SliceTo(first, split)| == split;
      assert GenesOf(pool)[firstIndex] == first && GenesOf(pool)[secondIndex] == second;
      child := new Rocket(newGenes);
    }

    /** Replaces the population by populationSize fresh offspring of the
        pool (none when populationSize is not positive). */
    method CombineFittest(pool: seq<Rocket>)
      requires populationSize > 0 ==> 1 <= numFittest <= |pool|
      requires populationSize > 0 ==> forall i :: 0 <= i < numFittest ==> |pool[i].genes| >= 2
      modifies this`population
      ensures |population| == (if populationSize > 0 then populationSize else 0)
      ensures Distinct(population)
      ensures fresh(Members(population))
      ensures AllBred(population, GenesOf(pool), numFittest)
    {
      var offspring := BreedPopulation(pool);
      population := offspring;
    }

    /** populationSize fresh offspring of the pool (none when populationSize
        is not positive); the loop of combine_fittest. */
    method BreedPopulation(pool: seq<Rocket>) returns (offspring: seq<Rocket>)
      requires populationSize > 0 ==> 1 <= numFittest <= |pool|
      requires populationSize > 0 ==> forall i :: 0 <= i < numFittest ==> |pool[i].genes| >= 2
      ensures |offspring| == (if populationSize > 0 then populationSize else 0)
      ensures Distinct(offspring)
      ensures fresh(Members(offspring))
      ensures AllBred(offspring, GenesOf(pool), numFittest)
    {
      ghost var parents := GenesOf(pool);
      offspring := [];
      var i := 0;
      while i < populationSize
        invariant 0 <= i && |offspring| == i
        invariant i <= (if populationSize > 0 then populationSize else 0)
        invariant Distinct(offspring)
        invariant fresh(Members(offspring))
        invariant AllBred(offspring, parents, numFittest)
        invariant GenesOf(pool) == parents
      {
        var child := BreedTwo(pool);
        DistinctAppend(offspring, child);
        AllBredAppend(offspring, child, parents, numFittest);
        offspring := offspring + [child];
        i := i + 1;
      }
    }

    /** Mutates each member when its draw from [0, mutationRatio) falls below
        mutationThreshold; `mutated` records which members were chosen. No
        fitness is recomputed. */
    method Mutate() returns (ghost mutated: seq<bool>)
      requires population != [] ==> 1 <= mutationRatio
      requires Distinct(population)
      requires forall i :: 0 <= i < |population| ==> population[i].genes != []
      modifies population
      ensures |mutated| == |population|
      ensures forall i :: 0 <= i < |population| ==> population[i].fitness == old(population[i].fitness)
      ensures forall i :: 0 <= i < |population| ==>
                if mutated[i] then IsMutation(old(population[i].genes), population[i].genes)
                else population[i].genes == old(population[i].genes)
      ensures mutationThreshold <= 0 ==> forall i :: 0 <= i < |mutated| ==> !mutated[i]
      ensures mutationThreshold >= mutationRatio ==> forall i :: 0 <= i < |mutated| ==> mutated[i]
    {
      mutated := [];
      var i := 0;
      while i < |population|
        invariant 0 <= i <= |population| && |mutated| == i
        invariant forall j :: 0 <= j < |population| ==> population[j].fitness == old(population[j].fitness)
        invariant forall j :: 0 <= j < i ==>
                    if mutated[j] then IsMutation(old(population[j].genes), population[j].genes)
                    else population[j].genes == old(population[j].genes)
        invariant forall j :: i <= j < |population| ==> population[j].genes == old(population[j].genes)
        invariant mutationThreshold <= 0 ==> forall j :: 0 <= j < i ==> !mutated[j]
        invariant mutationThreshold >= mutationRatio ==> forall j :: 0 <= j < i ==> mutated[j]
      {
        var draw := RandInt(0, mutationRatio - 1);
        if draw < mutationThreshold {
          population[i].Mutate();
          mutated := mutated + [true];
        } else {
          mutated := mutated + [false];
        }
        i := i + 1;
      }
    }

    /** Appends [average, max, min] of the current population to the
        history. */
    method LogResults()
      requires population != []
      modifies this`fitnessHistory
      ensures fitnessHistory ==
                old(fitnessHistory) + [Stats(Mean(Fitnesses(population)), MaxFitness(), MinFitness())]
    {
      var average := AverageFitness();
      fitnessHistory := fitnessHistory + [Stats(average, MaxFitness(), MinFitness())];
    }

    /** Sorting a population that satisfies Evolving apart from the order
        makes it satisfy Evolving, and keeps its members. */
    lemma SortKeepsEvolving(unsorted: seq<Rocket>)
      requires population == SortByFitness(unsorted)
      requires |unsorted| == (if populationSize > 0 then populationSize else 0)
      requires Distinct(unsorted) && forall i :: 0 <= i < |unsorted| ==> Healthy(unsorted[i])
      ensures Evolving(population, populationSize)
      ensures Members(population) == Members(unsorted)
    {
      SortSorted(unsorted);
      PermutationDistinct(unsorted, population);
      PermutationMembers(unsorted, population);
      forall i | 0 <= i < |population| ensures Healthy(population[i]) {
        var j :| 0 <= j < |unsorted| && unsorted[j] == population[i];
      }
    }

    /** The breeding pool of a population between generations is numFittest
        healthy rockets. */
    lemma PoolHealthy()
      requires Evolving(population, populationSize) && CanBreed(Settings())
      ensures |GetFittest()| == numFittest
      ensures forall i :: 0 <= i < numFittest ==> Healthy(GetFittest()[i])
      ensures HealthyParents(GenesOf(GetFittest()), numFittest)
    {
      var pool := GetFittest();
      forall i | 0 <= i < numFittest ensures Healthy(pool[i]) {
        assert pool[i] == population[|population| - |pool| + i];
      }
    }

    /** The breeding step of one pass of the run loop: take the pool and
        replace the population by offspring of its gene lists. */
    method BreedFromFittest() returns (ghost parents: seq<seq<int>>)
      requires Evolving(population, populationSize) && CanBreed(Settings())
      modifies this`population
      ensures Settings() == old(Settings())
      ensures parents == old(GenesOf(GetFittest())) && HealthyParents(parents, numFittest)
      ensures |population| == populationSize && Distinct(population)
      ensures fresh(Members(population))
      ensures AllBred(population, parents, numFittest)
    {
      PoolHealthy();
      var pool := GetFittest();
      parents := GenesOf(pool);
      CombineFittest(pool);
      assert Settings() == old(Settings());
    }

    /** Breeding and mutation in one pass of the run loop: the population
        becomes `bred`, whose members were made from gene lists `born`, each
        an offspring of the old pool's `parents`, and then possibly
        mutated. */
    method BreedAndMutate() returns (ghost parents: seq<seq<int>>, ghost bred: seq<Rocket>,
                                     ghost born: seq<seq<int>>)
      requires Evolving(population, populationSize) && CanBreed(Settings())
      modifies this`population
      ensures Settings() == old(Settings())
      ensures parents == old(GenesOf(GetFittest()))
      ensures population == bred && BredFrom(bred, born, parents, numFittest)
      ensures |population| == populationSize && Distinct(population)
      ensures forall i :: 0 <= i < |population| ==> Healthy(population[i])
      ensures fresh(Members(population))
    {
      parents := BreedFromFittest();
      bred := population;
      born := GenesOf(population);
      assert forall i :: 0 <= i < |population| ==> population[i] in Members(population);
      ghost var mutated := Mutate();
      assert Settings() == old(Settings());
      assert BredFrom(bred, born, parents, numFittest);
      BredFromHealthy(bred, born, parents, numFittest);
    }

    /** The population step of one pass of the run loop: take the pool, breed
        a new population from it, mutate and sort. */
    method Evolve() returns (ghost parents: seq<seq<int>>, ghost bred: seq<Rocket>,
                             ghost born: seq<seq<int>>)
      requires Evolving(population, populationSize) && CanBreed(Settings())
      modifies this`population
      ensures Settings() == old(Settings())
      ensures parents == old(GenesOf(GetFittest()))
      ensures NextPopulation(population, parents, bred, born, numFittest)
      ensures Evolving(population, populationSize)
      ensures fresh(Members(population))
    {
      parents, bred, born := BreedAndMutate();
      SortPopulation();
      assert Settings() == old(Settings());
      SortKeepsEvolving(bred);
    }

    /** The end of one pass of the run loop: count the generation and log
        it. */
    method CountAndLog()
      requires population != [] && Evolving(population, populationSize)
      modifies this`currentGeneration, this`fitnessHistory
      ensures Evolving(population, populationSize)
      ensures currentGeneration == old(currentGeneration) + 1
      ensures fitnessHistory == old(fitnessHistory) + [StatsOf(Fitnesses(population))]
      ensures ConsistentStats(fitnessHistory[|fitnessHistory| - 1])
    {
      currentGeneration := currentGeneration + 1;
      LogResults();
      StatsConsistent(population, populationSize);
    }

    /** One pass of the run loop's body: evolve the population, count the
        generation and log it. */
    method NextGeneration() returns (ghost parents: seq<seq<int>>, ghost bred: seq<Rocket>,
                                     ghost born: seq<seq<int>>)
      requires Evolving(population, populationSize) && CanBreed(Settings())
      modifies this
      ensures Settings() == old(Settings())
      ensures parents == old(GenesOf(GetFittest()))
      ensures NextPopulation(population, parents, bred, born, numFittest)
      ensures currentGeneration == old(currentGeneration) + 1
      ensures Evolving(population, populationSize)
      ensures fresh(Members(population))
      ensures fitnessHistory == old(fitnessHistory) + [StatsOf(Fitnesses(population))]
      ensures ConsistentStats(fitnessHistory[|fitnessHistory| - 1])
    {
      parents, bred, born := Evolve();
      CountAndLog();
    }

    /** One pass of the run loop, as the history sees it: the entry appended
        is the one of the new population's fitnesses, and the history stays
        consistent. */
    method LoggedGeneration(ghost gens: seq<seq<int>>) returns (ghost gens': seq<seq<int>>)
      requires Evolving(population, populationSize) && CanBreed(Settings())
      requires ConsistentHistory(fitnessHistory) && Logged(fitnessHistory, gens)
      modifies this
      ensures Settings() == old(Settings())
      ensures currentGeneration == old(currentGeneration) + 1
      ensures |fitnessHistory| == |old(fitnessHistory)| + 1
      ensures ConsistentHistory(fitnessHistory) && Logged(fitnessHistory, gens')
      ensures gens' == gens + [Fitnesses(population)]
      ensures Evolving(population, populationSize)
      ensures fresh(Members(population))
    {
      ghost var history := fitnessHistory;
      ghost var parents, bred, born := NextGeneration();
      ghost var f := Fitnesses(population);
      assert fitnessHistory == history + [StatsOf(f)];
      ConsistentHistoryAppend(history, StatsOf(f));
      LoggedAppend(history, gens, f);
      gens' := gens + [f];
    }

    /** The state of a run between generations: one consistent history
        entry per generation so far, entry k being the one of population
        pops[k], the last of which is the current population. */
    ghost predicate Traced(gens: seq<seq<int>>, pops: seq<seq<Rocket>>)
      reads this`population, this`populationSize, this`currentGeneration
      reads this`fitnessHistory, population
      reads set k, i | 0 <= k < |pops| && 0 <= i < |pops[k]| :: pops[k][i]
    {
      |fitnessHistory| == currentGeneration && ConsistentHistory(fitnessHistory) &&
      Logged(fitnessHistory, gens) && GensArePops(gens, pops, populationSize) &&
      (pops != [] ==> pops[|pops| - 1] == population) &&
      Evolving(population, populationSize)
    }

    /** LoggedGeneration, with the populations logged so far carried along:
        they keep their fitnesses, since no rocket of theirs is touched
        again, and the new population joins them. */
    method TracedGeneration(ghost gens: seq<seq<int>>, ghost pops: seq<seq<Rocket>>)
      returns (ghost gens': seq<seq<int>>, ghost pops': seq<seq<Rocket>>)
      requires CanBreed(Settings()) && Traced(gens, pops)
      modifies this
      ensures Settings() == old(Settings())
      ensures currentGeneration == old(currentGeneration) + 1
      ensures Traced(gens', pops') && pops' == pops + [population]
      ensures fresh(Members(population))
    {
      gens' := LoggedGeneration(gens);
      assert GensArePops(gens, pops, populationSize);
      GensArePopsAppend(gens, pops, populationSize, population);
      pops' := pops + [population];
    }

    /** The start of a run: clear the run state and create a random
        population of populationSize healthy rockets, sorted. */
    method StartRun()
      modifies this
      ensures Settings() == old(Settings())
      ensures currentGeneration == 0 && fitnessHistory == []
      ensures Evolving(population, populationSize)
      ensures fresh(Members(population))
    {
      InitializeRun();
      assert Settings() == old(Settings());
      ghost var created := InitializePopulation();
      assert [] + created == created;
      SortKeepsEvolving(created);
    }

    /** The run loop of run_optimizer: generations until the counter
        exceeds maxGenerations, each logging one history entry. Every rocket
        of the final population that was not in the starting one is new. */
    method RunGenerations() returns (ghost gens: seq<seq<int>>, ghost pops: seq<seq<Rocket>>)
      requires maxGenerations >= 0 ==> CanBreed(Settings())
      requires currentGeneration == 0 && fitnessHistory == []
      requires Evolving(population, populationSize)
      modifies this
      ensures Settings() == old(Settings())
      ensures currentGeneration == (if maxGenerations >= 0 then maxGenerations + 1 else 0)
      ensures Traced(gens, pops)
      ensures fresh(Members(population) - old(Members(population)))
    {
      gens, pops := [], [];
      while !EndPointReached()
        invariant Settings() == old(Settings())
        invariant 0 <= currentGeneration
        invariant maxGenerations >= 0 ==> currentGeneration <= maxGenerations + 1
        invariant maxGenerations < 0 ==> currentGeneration == 0
        invariant Traced(gens, pops)
        invariant fresh(Members(population) - old(Members(population)))
        decreases maxGenerations + 1 - currentGeneration
      {
        gens, pops := TracedGeneration(gens, pops);
      }
    }

    /** The whole run: a fresh random population, then generations until the
        counter exceeds maxGenerations, each logging one history entry. */
    method RunOptimizer() returns (ghost gens: seq<seq<int>>, ghost pops: seq<seq<Rocket>>)
      requires maxGenerations >= 0 ==> CanBreed(Settings())
      modifies this
      ensures Settings() == old(Settings())
      ensures currentGeneration == (if maxGenerations >= 0 then maxGenerations + 1 else 0)
      ensures |fitnessHistory| == currentGeneration
      ensures ConsistentHistory(fitnessHistory)
      ensures Logged(fitnessHistory, gens) && GensArePops(gens, pops, populationSize)
      ensures pops != [] ==> pops[|pops| - 1] == population
      ensures Evolving(population, populationSize)
      ensures fresh(Members(population))
    {
      StartRun();
      gens, pops := RunGenerations();
    }
  }
}
