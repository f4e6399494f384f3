# Genetic linkage optimizer, in Dafny

This project models the core of a small genetic-algorithm optimizer for planar
four-bar linkages.

- **The engine** (`genetic.py`, class `GeneticAlgo`) works on a population of gene
  vectors. Each generation it scores every individual with a simulation function
  (lower is better) and stably sorts the scores. It keeps the two best as parents and
  refills the population with `pop_size - 2` children. Each child is a uniform crossover
  of the two parents, then mutated against a freshly generated individual.
- **The linkage scorer** (`linkage.py`) takes four lengths `(a, h, b, g)`: input
  crank, output crank, coupler and ground link. It finds the admissible crank-angle
  range (`get_minmax`) and samples the crank angle on a grid of step 1/100. At each
  sample it solves the loop-closure equation (`calc_constants`) and traces the
  coupler point (`sim_linkage`). The path is scored against the flat target
  `y = 0.7` on `x` in [-1, 1] (`target`, `simulate`). `LinkAlgo.gen_individual`
  draws four genes from `random.random()`.

Modules:

- `Ranking` (`ranking.dfy`): `list.sort(key=itemgetter(0))` as a stable insertion
  sort on `(score, individual)` records. Its meaning is proved: the result is sorted,
  it is a permutation of the input, and equal scores keep their input order. The
  lemmas read off what the engine uses from the head of the ranking.
- `Genetic` (`genetic.dfy`): the class `GeneticAlgo`, with the fields `pop` and
  `fitness` that its methods update. Each method is proved against a specification
  function: `Crossed`, `Mutated`, `Ranked`, `NextGeneration` and `Evolve`. Lemmas
  about those functions state elitism, that ties go to the earliest individual, and
  that the best score never rises.
- `Linkage` (`linkage.dfy`): the simulator and the scorer. `sim_linkage` is
  the method `SimLinkage`, and its loop is the method `SampleLoop`, which `SimLinkage`
  calls. Their specification functions are `CouplerPath` and `TraceFrom`, and the
  lemmas about them state when the loop stops and the shape of the path it returns.
- `LinkAlgo` (`link_algo.dfy`): `gen_individual`. It also proves that every
  individual the engine breeds from four-gene individuals in [0, 1) is again one.

Randomness is a parameter: a stream of draws.

- `random.choice` on a pair of genes is a coin stream. `true` picks the second parent.
- `random.random()` is a stream of reals.
- `gen_individual()` is a stream of individuals.

The math functions `cos`, `sin`, `acos`, `atan2` and the square root are the fields
of a `Trig` value. The predicate `Lawful` states the range facts that the lemmas rely
on. A Python `ZeroDivisionError` is the `ZeroDivisionError` case of `Result`.

Three behaviours of the code are worth stating plainly:

- `sim_linkage` raises `ZeroDivisionError` when its loop reaches an angle with
  `A = B = 0` before any sample with no real psi: `calc_constants` divides by
  `sqrt(A^2 + B^2) = 0` there. An earlier sample whose `check` lies outside [-1, 1]
  returns the failure sentinel first, and the angle is never reached. `get_minmax`
  raises `ZeroDivisionError` whenever `a * g == 0`, before any sample. See
  `Linkage.CouplerPath`, `Linkage.DegenerateConstants` and `Linkage.GetMinMax`.
- For the linkage `a = h = b = g = 1` both bound checks are exactly -1 and 1, so both
  limits exist and the range is `(pi, 0)`. No sample is taken and the score is
  `1e100`. See `Linkage.UnitLinkage`.
- A path scores `1e100` unless it has more than 100 points (`len(diffs) > 100`).
  See `Linkage.Score`.

## Model

| member | source | states |
|---|---|---|
| Ranking.RankByScore | genetic.py:78 | the sorted fitness list has the input's length, is a permutation of the input (same multiset) and is ascending by score |
| Ranking.RankIsStable | genetic.py:78 | the sort is stable: for every score, the records with that score appear in the same order as in the input |
| Ranking.RankHead | genetic.py:78-80 | the first record scores no more than the second and than every input record; only the first record can score below the second; every input record left once the first two are taken out (as a multiset) scores at least as much as the second |
| Ranking.RankHeadPair | genetic.py:79-80 | the first two records of the ranking are two distinct occurrences from the input |
| Ranking.RankHeadIsLowest | genetic.py:78-79 | the first record of a non-empty ranking scores no more than any input record |
| Ranking.RankHeadIsEarliestBest | genetic.py:78-79 | the first record is one of the input's records, and every input record before it scores strictly more (ties go to the earliest) |
| Genetic.Crossed | genetic.py:31-37 | the child is as long as the shorter parent (`zip`), and each gene is the same-position gene of one of the parents |
| Genetic.Mutated | genetic.py:39-48 | the result is as long as the shorter of chromosome and fresh individual, and each gene comes from one of the two |
| Genetic.NeverMutated | genetic.py:43-47 | with chance at most 0 and draws in [0, 1), mutation returns the chromosome (cut to the fresh individual's length) |
| Genetic.AlwaysMutated | genetic.py:43-47 | with chance at least 1 and draws below 1, mutation returns the fresh individual (cut to the chromosome's length) |
| Genetic.SelfCrossover | genetic.py:31-37 | crossing an individual with itself returns it, whatever the coins |
| Genetic.Offspring | genetic.py:84 | a child is as long as the shortest of parents and fresh individual, and each gene comes from parent 1, parent 2 or the fresh individual |
| Genetic.Scored | genetic.py:75-76 | `zip(pool.map(sim_fun, pop), pop)`: one record per position, pairing individual `i` with its simulated score |
| Genetic.Ranked | genetic.py:75-78 | the fitness list is a permutation of the scored population (one record per individual), sorted ascending by score; each record's score is the simulation of its individual |
| Genetic.NextGeneration | genetic.py:79-86 | the new population has 2 + max(pop_size - 2, 0) members; the first two come from the old population; every child is gene-wise drawn from the two parents and its fresh individual |
| Genetic.Elitism | genetic.py:78-82 | the two parents kept sit at two different positions i and j of the old population, and the individual at every other position scores at least as much as the second: they are the two lowest-scoring, duplicates counted; the first scores lowest of all |
| Genetic.RankedHead | genetic.py:78-80 | the same facts, read on the ranked fitness list |
| Genetic.EliteIsEarliestBest | genetic.py:78-79 | the first parent is the earliest individual of the old population with the lowest score |
| Genetic.BestNeverRises | genetic.py:69-70 | keeping both parents means the best score of the new population is at most that of the old one |
| Genetic.Evolve | genetic.py:60-61 | after 0 generations the population is unchanged; after any other number it has 2 + max(pop_size - 2, 0) members |
| Genetic.EvolveBestNeverRises | genetic.py:56-61 | over any number of generations, the best score never rises |
| Genetic.UnmutatedChildren | genetic.py:83-85 | with mutation rate at most 0 and fresh individuals long enough, every child is a plain crossover of the two parents |
| Genetic.GeneticAlgo.constructor | genetic.py:6-21 | stores the generation count, population size, mutation rate and simulation function; population and fitness start empty |
| Genetic.GeneticAlgo.Crossover | genetic.py:31-37 | the loop builds exactly `Crossed` of the parents and coins |
| Genetic.GeneticAlgo.Mutate | genetic.py:39-48 | the loop builds exactly `Mutated` of the chromosome, chance, fresh individual and draws |
| Genetic.GeneticAlgo.InitPop | genetic.py:51-54 | appends `pop_size` fresh individuals, in draw order, to the population |
| Genetic.GeneticAlgo.Breed | genetic.py:82-86 | the refill loop returns exactly `n` children, child `c` being `Offspring` of the two parents with the draws `draws(c)`; it changes no state |
| Genetic.GeneticAlgo.RunSingleGen | genetic.py:63-87 | `fitness` becomes the ranked old population; `pop` becomes `NextGeneration` of it; the best score does not rise |
| Genetic.GeneticAlgo.Run | genetic.py:56-61 | the population becomes `Evolve` of the seeded population over `generations` generations; it then has 2 + max(pop_size - 2, 0) members, and its best score is no higher than the seeded one; `fitness` is unchanged when no generation runs, and otherwise is the ranking of the population before the last generation |
| Linkage.ValidRange | linkage.py:10-13 | true exactly when x is in [-1, 1] |
| Linkage.Target | linkage.py:97-100 | 0.7 on [-1, 1] and 1e99 outside |
| Linkage.CalcConstants | linkage.py:15-21 | `calc_constants` raises exactly when sqrt(A^2 + B^2) is 0; otherwise A, B and C are the loop-closure coefficients (`LoopA`, `LoopB`, `LoopC`) and check * sqrt(A^2 + B^2) = -C |
| Linkage.DegenerateConstants | linkage.py:15-21 | with a lawful square root, `calc_constants` raises exactly when A and B are both 0 |
| Linkage.DivisorVanishes | linkage.py:19 | with a lawful square root, sqrt(A^2 + B^2) is 0 exactly when A = B = 0 |
| Linkage.GetMinMax | linkage.py:23-56 | `get_minmax` raises exactly when a * g = 0 |
| Linkage.MinMaxCases | linkage.py:30-54 | the four cases: no limit gives (0, 2 pi); only max gives (-acos max, acos max); only min gives (-acos min, pi); both give (acos min, acos max) |
| Linkage.MinMaxBounds | linkage.py:33-54 | the range's start lies in [-pi, pi] and its end in [0, 2 pi] |
| Linkage.UnitLinkage | linkage.py:23-56 | for a = h = b = g = 1 the checks are -1 and 1, the range is (pi, 0), the path is empty and the fitness is 1e100 |
| Linkage.FullRotationGrid | linkage.py:52-54 | with no limit the range is (0, 2 pi), sampled at grid indices 0 to 627 |
| Linkage.PreferNonNegative | linkage.py:76-78 | the first candidate unless it is negative, and then the second, even when that is negative too; the chosen angle is non-negative exactly when one of the candidates is |
| Linkage.CouplerAngle | linkage.py:72-90 | no contract of its own: psi and then phi are each chosen by `PreferNonNegative` (so each is its first candidate unless that is negative); phi2 always uses psi2, as the code does |
| Linkage.CouplerPoint | linkage.py:92-93 | no contract of its own; `CouplerPointReach` bounds it |
| Linkage.CouplerPointReach | linkage.py:92-93 | with lawful sine and cosine, neither coordinate of the coupler point exceeds abs(a) + abs(h) in size |
| Linkage.SampleAt | linkage.py:66-94 | one loop iteration raises exactly when `calc_constants` does, stops with no real psi exactly when `check` is outside [-1, 1], and traces a point otherwise |
| Linkage.TraceFrom | linkage.py:65-95 | no contract of its own; `TraceShape` characterises it |
| Linkage.TraceShape | linkage.py:65-95 | the loop completes exactly when every sample has a point, and then gives one point per grid index in order; it returns the sentinel, or raises, exactly when the first sample without a point has no real psi, or raises |
| Linkage.TraceCompletes | linkage.py:65-95 | the completing half of `TraceShape` |
| Linkage.TraceStops | linkage.py:68-70 | the stopping half of `TraceShape` |
| Linkage.PathShape | linkage.py:64-95 | a returned path is either the sentinel, after a sample with no real psi, or one point per grid index of the range (none when the range is empty) |
| Linkage.SampleLoop | linkage.py:64-95 | the imperative loop returns exactly the trace of the samples over the grid |
| Linkage.CouplerPath | linkage.py:59-95 | raises exactly when `get_minmax` raises or some sample raises with only traced samples before it; a returned path is either the sentinel, after a sample with no real psi that only traced samples precede, or one traced point per grid index of the crank-angle range, in order |
| Linkage.SimLinkage | linkage.py:59-95 | `sim_linkage` returns or raises exactly as `CouplerPath` |
| Linkage.MaxOf | linkage.py:109 | `max` is an element of the list and at least every element |
| Linkage.MinOf | linkage.py:109 | `min` is an element of the list and at most every element |
| Linkage.Deviation | linkage.py:107 | a point's deviation is non-negative, and zero exactly when the point is on the target |
| Linkage.Diffs | linkage.py:107 | the `diffs` list has one entry per point, each non-negative and 0 exactly when the point is on the target |
| Linkage.Sum | linkage.py:113 | `fsum` of non-negative terms is non-negative, and 0 exactly when every term is |
| Linkage.Score | linkage.py:102-115 | 1e100 for at most 100 points or an x-span below 0.5; otherwise `fsum` of the `diffs` list |
| Linkage.ScoreRange | linkage.py:102-115 | a score is never negative, and 0 exactly for more than 100 points, x-span at least 0.5, all on the target |
| Linkage.Simulate | linkage.py:102-115 | `simulate` raises exactly when `sim_linkage` does; otherwise its fitness is the score of the path, never negative, and 1e100 for the failure sentinel |
| Linkage.SentinelScoresWorst | linkage.py:102-115 | the failure sentinel `[(0, 1e100)]` scores 1e100 |
| LinkAlgo.GenIndividual | linkage.py:117-122 | the individual is the first four draws, in order; when the draws lie in [0, 1), so do its genes |
| LinkAlgo.OffspringIsGenome | genetic.py:84 | a child of two four-gene individuals in [0, 1), with such a fresh individual, is again one |
| LinkAlgo.NextGenerationIsGenomes | genetic.py:79-86 | every member of a generation bred from such individuals is one, so each unpacks into the four arguments of `sim_linkage` |
| LinkAlgo.EvolveIsGenomes | genetic.py:56-61 | the same holds after any number of generations |

## Left out

- The worker pool (`multiprocessing.Pool`) is not modelled: `pool.map` is a sequential map. Its creation, reuse and release, and parallel evaluation, are left out.
- Randomness is a parameter. Each call gets its own stream of draws, where Python shares one generator, and the streams' distribution is not modelled.
- Floating point is not modelled. Lengths, angles and scores are exact reals, `fsum` is an exact sum, and `theta / 100.0` is exact.
- `cos`, `sin`, `acos`, `atan2` and the square root are supplied as the fields of `Trig`. Only the range facts in `Lawful` are assumed of them, and only by the lemmas that say so.
- Linkage.Simulate: requires four genes. Python raises `TypeError` when `sim_linkage(*child)` gets any other count.
- The engine's simulation function is total. A `ZeroDivisionError` raised by `simulate` is modelled in `Linkage`, but it is not propagated through `run_single_gen`, where in Python it aborts the generation.
- Genetic.GeneticAlgo.RunSingleGen: requires at least two individuals. Python raises `IndexError` at `self.fitness[1]` otherwise.
- Genetic.GeneticAlgo.Run: requires at least two individuals after `init_pop` when some generation runs, for the same reason.
- `GeneticAlgo.gen_individual` in the base class only raises `NotImplementedError`. The engine takes the fresh individuals as a stream instead.
- `np_linkage.py`, the `__main__` block, profiling and printing are not part of this model.
