# rocket_optimizer: the genetic-algorithm engine, modelled in Dafny

The model covers the generational genetic algorithm of `genetic.py` and the catalogue and gene generators of `rocket_utils.py`.

- **Rocket.** A rocket has a gene list: for each of three stages, a fuel-tank size in the even slot and an engine id in the odd slot. It also caches a fitness, which is the sum of the genes.
- **Optimizer state.** The optimizer holds five options (population size, number of generations, breeding-pool size, mutation ratio and mutation threshold). It also holds the run state: a population of rocket objects, a generation counter and a history of `(average, max, min)` entries.
- **Run.** A run creates a random population and sorts it. Each generation then:
  1. takes the breeding pool from the top of the population;
  2. breeds a new population by single-point crossover;
  3. mutates some members;
  4. sorts by fitness;
  5. counts the generation and logs it.

Modules, in dependency order:

- `Wrappers`: `Option`.
- `PySeq`: Python's `sum`. It also has the slices `s[start:]` and `s[:stop]`, with Python's negative and out-of-range bounds.
- `Random`: `randint(lo, hi)` as a nondeterministic choice in `[lo, hi]`.
- `RocketUtils`: the engine table, `lookup_engine`, `random_engine` and `random_fuel`.
- `Genes`: facts about gene lists:
  - every slot holds a value its generator can produce;
  - single-point crossover;
  - what one mutation may change;
  - the range of the fitness.
- `Rockets`: the `Rocket` class, whose `genes` and `fitness` fields are updated in place.
- `Population`: facts about lists of rockets:
  - the list of their fitnesses;
  - `sorted(..., key=fitness)` as a stable insertion sort;
  - the mean;
  - no repeated rocket.
- `Optimizer`:
  - the `RocketOptimizer` class, with the base class `GeneticOptimizer` merged into it;
  - the option record;
  - the invariant that holds of the population between generations.

The main invariant is `Evolving(population, populationSize)`. It holds after the start of a run and after every generation, and it says:

- the population has `populationSize` members (0 when the size is not positive);
- it is sorted by fitness;
- no rocket appears twice;
- every rocket has six well-formed genes and a fitness in `[6, 120]`.

`RunOptimizer` is proved to:

- stop after `maxGenerations + 1` generations;
- leave one history entry per generation: entry k is the (average, max, min) of the fitnesses of population k, a list of rockets recorded as the run goes, which satisfies the invariant below, keeps those fitnesses to the end, and whose last member is the final population;
- make every entry consistent: `6 <= min <= average <= max <= 120`.

## Model

| member | source | states |
|---|---|---|
| Random.RandInt | genetic.py:223-231 | `randint(lo, hi)` yields some integer in the closed range [lo, hi] |
| RocketUtils.CatalogueIds | rocket_utils.py:8-49 | the catalogue's ids are exactly 1, 2, 3, 4 and 5 |
| RocketUtils.LookupEngine | rocket_utils.py:53-54 | there is an entry exactly for ids 1 to 5, and it is the catalogue's entry unchanged; any other id is the KeyError case (None) |
| RocketUtils.RandomEngine | rocket_utils.py:57-59 | the engine id drawn lies in [1, 20] |
| RocketUtils.RandomFuel | rocket_utils.py:63-65 | the tank size drawn lies in [1, 20] |
| RocketUtils.UnlistedEngineDraws | rocket_utils.py:57-60 | every id from 6 to 20 can be drawn as an engine, yet has no catalogue entry |
| PySeq.Sum | genetic.py:48 | Python's `sum` over a gene list, accumulated from the left; its properties are SumAppend, SumUpdate and SumBounds |
| PySeq.SliceIndex | genetic.py:209 | the position a slice bound selects always lies in [0, n], whatever the bound |
| PySeq.SliceIndexFromEnd | genetic.py:209 | a negative bound -m (m <= n) selects the same position as the bound n - m, and an in-range bound is used as it is |
| PySeq.SliceFrom | genetic.py:209 | `s[start:]` is a suffix of s, of length \|s\| - start for an in-range start and -start for a negative one; empty past the end; all of s below -\|s\| |
| PySeq.SliceTo | genetic.py:232 | `s[:stop]` is a prefix of s, of length stop for an in-range stop and \|s\| + stop for a negative one; all of s past the end; empty below -\|s\| |
| PySeq.SumAppend | genetic.py:47-48 | the sum of a concatenation is the sum of the parts |
| PySeq.SumUpdate | genetic.py:47-48 | overwriting one element changes the sum by the difference between the new and old values |
| PySeq.SumBounds | genetic.py:47-48 | n values in [lo, hi] sum to a value in [n·lo, n·hi] |
| Genes.DefaultFitness | genetic.py:37-38 | the six default zero genes have fitness 0 |
| Genes.Crossover | genetic.py:231-232 | for a split between 0 and the common length, the offspring has the parents' length, takes first's genes before the split and second's from it on |
| Genes.CrossoverSum | genetic.py:231-232 | the offspring's fitness is the sum of first's head plus the sum of second's tail |
| Genes.CrossoverWellFormed | genetic.py:231-232 | crossover of well-formed parents is well formed (slot parity is kept) |
| Genes.MutationWellFormed | genetic.py:51-58 | a mutation of a well-formed gene list is well formed |
| Genes.MutationSum | genetic.py:51-58 | a mutation changes the sum of the genes by exactly the difference at the one slot it overwrites |
| Genes.FitnessRange | genetic.py:198-203 | six well-formed genes sum to a fitness in [6, 120] |
| Rockets.Rocket.constructor | genetic.py:35-44 | an empty list gives the genes [0,0,0,0,0,0] and fitness 0; any other list becomes the genes as given; the fitness is the sum of the genes |
| Rockets.Rocket.EvaluateFitness | genetic.py:47-48 | the fitness becomes the sum of the current genes, and nothing else changes |
| Rockets.Rocket.Mutate | genetic.py:51-58 | same length, exactly one slot may be overwritten with a value from its parity's generator, all others are kept; the fitness is not recomputed |
| Population.Fitnesses | genetic.py:118-119 | the list of the rockets' fitnesses, one per rocket, in order |
| Population.Insert | genetic.py:104-105 | inserting a rocket adds exactly that rocket to the multiset |
| Population.SortByFitness | genetic.py:104-105 | sorting yields a permutation (the same multiset of rockets) |
| Population.InsertSorted | genetic.py:104-105 | inserting into a sorted list keeps it sorted |
| Population.SortSorted | genetic.py:104-105 | the sorted list is non-decreasing in fitness for every pair of positions |
| Population.SortStable | genetic.py:104-105 | sorting keeps the relative order of rockets of equal fitness (Python's sort is stable) |
| Population.PermutationMembers | genetic.py:104-105 | a permutation of the population has the same length and the same member rockets |
| Population.PermutationDistinct | genetic.py:104-105 | a permutation of a list without repeats has no repeats |
| Population.Mean | genetic.py:115-120 | the sum of the fitnesses over their count, as an exact rational; its properties are MeanBetween and SortedMean |
| Population.MeanBetween | genetic.py:115-120 | the mean of values in [lo, hi] lies in [lo, hi] |
| Population.SortedMean | genetic.py:115-127 | in a sorted population, first fitness <= average fitness <= last fitness |
| Optimizer.ConstructorSettingsAsWritten | genetic.py:161-175 | as written, the options after construction differ from any non-default configuration passed in |
| Optimizer.ConstructorSettings | genetic.py:161-175 | the options the constructor evidently intends to leave: the configuration when one is given, the defaults (50, 400, 50, 100, 5) otherwise |
| Optimizer.ConstructorDropsConfig | genetic.py:164-175 | the configuration with population size 10 yields size 50 as written, and 10 once the defaults come first |
| Optimizer.LoggedAppend | genetic.py:244-249 | if every history entry is the (mean, last, first) of its generation's fitness list, appending the entry of a new non-empty fitness list keeps that so |
| Optimizer.GensArePopsAppend | genetic.py:244-249 | recording one more population that satisfies the invariant, with its fitness list, keeps every recorded fitness list that of its population |
| Optimizer.ConsistentHistoryAppend | genetic.py:244-249 | appending a consistent entry to a consistent history keeps it consistent |
| Optimizer.OffspringHealthy | genetic.py:220-234 | a crossover of two of the first n gene lists of healthy parents has six well-formed genes and a sum in [6, 120] |
| Optimizer.BredFromHealthy | genetic.py:211-241 | rockets bred from healthy parents, each keeping its offspring genes or undergoing one mutation, with fitness the offspring's sum, are healthy |
| Optimizer.StatsConsistent | genetic.py:244-249 | the entry logged for a population between generations satisfies 6 <= min <= average <= max <= 120 |
| Optimizer.RocketOptimizer.constructor | genetic.py:161-175 | as written: the options are ConstructorSettingsAsWritten(config), the defaults whatever configuration is given; the population and history are empty and the counter is 0 |
| Optimizer.RocketOptimizer.Configured | genetic.py:161-175 | the corrected construction: the options are ConstructorSettings(config), so a given configuration is kept and the defaults apply only without one; the population and history are empty and the counter is 0 |
| Optimizer.RocketOptimizer.InitFromConfig | genetic.py:177-182 | the five options become the configuration's; the run state is unchanged |
| Optimizer.RocketOptimizer.InitializeRun | genetic.py:92-97 | empty population, counter 0, empty history; the options are kept |
| Optimizer.RocketOptimizer.Reset | genetic.py:294-295 | the run state is cleared as by InitializeRun; the options are kept |
| Optimizer.RocketOptimizer.EvaluatePopulation | genetic.py:99-101 | every member's fitness becomes the sum of its genes; no genes change |
| Optimizer.RocketOptimizer.SortPopulation | genetic.py:104-105 | the population becomes the stable sort of the old one |
| Optimizer.RocketOptimizer.AverageFitness | genetic.py:115-120 | the accumulated total divided by the length equals the mean of the fitnesses |
| Optimizer.RocketOptimizer.MaxFitness | genetic.py:123-124 | the fitness of the last member (IndexError on an empty population is the requires); its meaning is MaxFitnessIsGreatest |
| Optimizer.RocketOptimizer.MinFitness | genetic.py:126-127 | the fitness of the first member (IndexError on an empty population is the requires); its meaning is MinFitnessIsLeast |
| Optimizer.RocketOptimizer.EndPointReached | genetic.py:205-206 | the counter exceeds maxGenerations; RunGenerations and RunOptimizer state the generation count it leads to |
| Optimizer.RocketOptimizer.MaxFitnessIsGreatest | genetic.py:123-124 | the last member's fitness is one of the fitnesses, and in a sorted population it is the greatest |
| Optimizer.RocketOptimizer.MinFitnessIsLeast | genetic.py:126-127 | the first member's fitness is one of the fitnesses, and in a sorted population it is the least |
| Optimizer.RocketOptimizer.CreateRandomRocket | genetic.py:198-203 | a new rocket with six well-formed genes, fitness their sum, in [6, 120] |
| Optimizer.RocketOptimizer.AddRandomRockets | genetic.py:193-194 | appends exactly populationSize (or 0 if it is not positive) new, distinct, healthy rockets after the old population |
| Optimizer.RocketOptimizer.InitializePopulation | genetic.py:190-196 | the population becomes the sorted old population plus populationSize new, distinct, healthy rockets |
| Optimizer.RocketOptimizer.GetFittest | genetic.py:208-209 | the pool is a suffix of the population; it has numFittest members when 0 <= numFittest <= populationSize = \|population\|; in a sorted population no member outside the pool is fitter than one inside |
| Optimizer.RocketOptimizer.BreedTwo | genetic.py:220-234 | a new rocket whose genes are first[:k] + second[k:] for two of the first numFittest gene lists of the pool and some k in [1, len-1]; its fitness is their sum |
| Optimizer.RocketOptimizer.BreedPopulation | genetic.py:212-215 | returns exactly populationSize (0 if it is not positive) new, distinct rockets, each an offspring of the pool's gene lists with fitness the sum of its genes |
| Optimizer.RocketOptimizer.CombineFittest | genetic.py:211-217 | the population becomes exactly populationSize new, distinct offspring of the pool's gene lists, each with fitness the sum of its genes |
| Optimizer.RocketOptimizer.Mutate | genetic.py:236-241 | each member either underwent one mutation or kept its genes; no fitness changes; no member mutates when the threshold is not positive; every member mutates when the threshold is at least the ratio |
| Optimizer.RocketOptimizer.LogResults | genetic.py:244-249 | appends (mean fitness, last fitness, first fitness) to the history, and nothing else changes |
| Optimizer.RocketOptimizer.SortKeepsEvolving | genetic.py:104-105 | sorting a population of the right size, without repeats, of healthy rockets re-establishes the invariant and keeps the members |
| Optimizer.RocketOptimizer.PoolHealthy | genetic.py:208-209 | between generations the pool has numFittest healthy members, so its gene lists are healthy parents |
| Optimizer.RocketOptimizer.BreedFromFittest | genetic.py:82-84 | the pool of a population between generations breeds exactly populationSize new, distinct rockets, each an offspring of the old pool's gene lists with its fitness evaluated; the options are kept |
| Optimizer.RocketOptimizer.BreedAndMutate | genetic.py:82-85 | the population becomes new, distinct, healthy rockets bred from the old pool's gene lists, each of which then kept its offspring genes or underwent one mutation, with fitness the offspring's sum |
| Optimizer.RocketOptimizer.Evolve | genetic.py:82-86 | the population becomes the stable sort of rockets bred from the old pool's gene lists (crossover, then at most one mutation each, fitness the offspring's sum); the invariant holds, only new rockets remain, the options are kept |
| Optimizer.RocketOptimizer.CountAndLog | genetic.py:87-89 | the counter goes up by one, and the one entry appended is (mean, last, first) of the current population's fitnesses; that entry is consistent, and the population still satisfies the invariant |
| Optimizer.RocketOptimizer.NextGeneration | genetic.py:81-89 | one generation replaces the population by the sorted offspring of the old pool's gene lists, keeps the options and the invariant, adds one to the counter and appends the (mean, last, first) entry of the new population's fitnesses, which is consistent |
| Optimizer.RocketOptimizer.LoggedGeneration | genetic.py:81-89 | one pass of the run loop: the counter goes up by one, the history grows by exactly the (mean, last, first) entry of the new population's fitnesses and stays consistent, and the invariant is kept |
| Optimizer.RocketOptimizer.TracedGeneration | genetic.py:81-89 | one pass of the run loop keeps Traced: the populations recorded before keep their fitnesses (no rocket of theirs is touched again), the new population is recorded after them, and its entry is appended; the counter goes up by one and the options are kept |
| Optimizer.RocketOptimizer.StartRun | genetic.py:77-79 | after the start of a run the counter is 0, the history empty, and the population satisfies the invariant |
| Optimizer.RocketOptimizer.RunGenerations | genetic.py:81-89 | from counter 0, an empty history and the invariant, the loop ends with the counter at maxGenerations + 1 (0 when negative) and Traced: one consistent entry per generation, entry k the (mean, last, first) of the fitnesses of recorded population k, each recorded population satisfying the invariant, the last one being the final population; every member not in the starting population is a new rocket |
| Optimizer.RocketOptimizer.RunOptimizer | genetic.py:76-89 | the loop stops once the counter exceeds maxGenerations: the counter ends at maxGenerations + 1 (0 when it is negative) and the history has that many consistent entries, entry k being the (mean, last, first) of the fitnesses of recorded population k; each recorded population satisfies the invariant and the last one is the final population |

## Left out

- Optimizer.RocketOptimizer.RunOptimizer: requires, when maxGenerations >= 0, that 1 <= numFittest <= populationSize and 1 <= mutationRatio. Under other options the source fails:
  - A randint with an empty range raises ValueError.
  - An empty population makes the average divide by zero.
  - A pool larger than the population can index past the list, depending on the draws.
  The model does not describe those runs.
- Optimizer.RocketOptimizer.RunGenerations: the recorded populations are tied to the run one step at a time (NextGeneration states how each is bred from the one before), but the loop contract does not carry that breeding link from one recorded population to the next; it states each entry's population, that population's invariant, and that the last is the final population.
- Optimizer.RocketOptimizer.RunOptimizer: the same as RunGenerations, whose history contract it passes on.
- Optimizer.RocketOptimizer.BreedTwo: requires at least two genes in each possible parent. The source raises ValueError for a shorter list.
- Optimizer.RocketOptimizer.AverageFitness, Optimizer.RocketOptimizer.MaxFitness, Optimizer.RocketOptimizer.MinFitness and Optimizer.RocketOptimizer.LogResults require a non-empty population. The source raises ZeroDivisionError or IndexError there.
- Optimizer.RocketOptimizer.Mutate: requires that no rocket appears twice in the population. With a repeat, the source could mutate the same object twice, and that case is not modelled. Every population a run builds has no repeats, which is proved.
- Randomness: every `randint` is a nondeterministic choice within its range. Probabilities are not modelled. In particular, the chance threshold/ratio of a mutation is not modelled; only the "never" and "always" cases are stated.
- Floating point:
  - The average is an exact rational, not a float.
  - The engine table's numbers are exact reals. Nothing computes with them.
  - `asp_vac` of the first engine is the integer 370 in the source.
- The configuration is a complete record. A dictionary with missing keys (a KeyError in the source) is not modelled.
- `None` as the constructor argument, which the source treats like an empty list, is not modelled. The model takes a gene sequence.
- Gene lists are values held in the `genes` field. Aliasing of a Python list shared by two rockets is not modelled. The source never shares one.
- The base class `GeneticOptimizer` and its subclass are merged into one class, `RocketOptimizer`. It holds the base class's concrete methods (`run_optimizer`, `initialize_run`, `evaluate_population`, `sort_population`, `average_fitness`, `max_fitness`, `min_fitness`) and the subclass's overrides of the base class's empty hooks.
- Evolve, BreedFromFittest, BreedAndMutate, CountAndLog, NextGeneration, LoggedGeneration, TracedGeneration, StartRun, RunGenerations, AddRandomRockets and BreedPopulation are not source methods. Each groups consecutive statements of `run_optimizer`, `initialize_population` or `combine_fittest`, in the source's order.
- Optimizer.RocketOptimizer.Configured is not a source method. It is the corrected constructor of the Findings row, and implements ConstructorSettings.
- `end_point_reached` is the predicate EndPointReached. Its meaning is stated through RunOptimizer's postcondition.
- Left out entirely:
  - console output (`display`, `display_population`, `display_starting_summary`);
  - `display_progress`, and the call to it at the end of `log_results`;
  - `start_time` and `current_time` (wall-clock time);
  - plotting and file export (`plot`, `save_graph`, `save_log`, `save_csv`, the plot clearing in `reset`);
  - `create_log_name`;
  - the parameter sweep under `__main__`;
  - the empty `rocket_height` stub.
  None of them affects the algorithm's state. No delta-v fitness exists in the code.

## Findings

| source | as written | input that shows it | evidently intended | confidence | as-written member | corrected member |
|---|---|---|---|---|---|---|
| genetic.py:161-175 | `__init__` applies the configuration and then assigns the five defaults, overwriting it | `RocketOptimizer(config)` with population_size 10 ends with population_size 50 | the defaults are set first and a given configuration overrides them | medium; not executed | Optimizer.ConstructorSettingsAsWritten | Optimizer.ConstructorSettings |
