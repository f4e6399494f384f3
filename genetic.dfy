/** The generic genetic-algorithm engine: a population of gene vectors, ranked by a
    fitness function (lower is better), with two elites kept per generation and the
    rest refilled by uniform crossover of the elites followed by mutation.

    Randomness is supplied by the caller as streams of draws:
    - `random.choice(pool)` on a pair of genes is a stream of coins (`true` picks the
      gene of the second parent);
    - `random.random()` is a stream of reals, meant to lie in [0, 1);
    - `gen_individual()` is a stream of fresh gene vectors.
    The worker pool's `map` is a sequential map of the fitness function. */
module Genetic {
  import opened Ranking

  type Individual = seq<real>

  /** The random draws used to make one child in `run_single_gen`. */
  datatype ChildDraws = ChildDraws(
    pickSecond: nat -> bool,  // the coins of `crossover`
    source: Individual,       // the fresh individual drawn by `mutate`
    rolls: nat -> real)       // the `random.random()` draws of `mutate`

  function Min(x: int, y: int): int
  {
    if x <= y then x else y
  }

  /** Number of iterations of `range(n)`. */
  function RangeLen(n: int): nat
  {
    if n < 0 then 0 else n
  }

  /** Uniform crossover: gene `i` comes from `parent2` when coin `i` says so, else
      from `parent1`; `zip` stops at the shorter parent. */
  function Crossed(parent1: Individual, parent2: Individual, pickSecond: nat -> bool): (child: Individual)
    ensures |child| == Min(|parent1|, |parent2|)
    ensures forall i :: 0 <= i < |child| ==> child[i] == parent1[i] || child[i] == parent2[i]
  {
    seq(Min(|parent1|, |parent2|), i requires 0 <= i < Min(|parent1|, |parent2|) =>
      if pickSecond(i) then parent2[i] else parent1[i])
  }

  /** Mutation: gene `i` is replaced by the fresh individual's gene when draw `i` is
      below `chance`; `zip` stops at the shorter of the two. */
  function Mutated(chromosome: Individual, chance: real, source: Individual, rolls: nat -> real): (mutated: Individual)
    ensures |mutated| == Min(|chromosome|, |source|)
    ensures forall i :: 0 <= i < |mutated| ==> mutated[i] == chromosome[i] || mutated[i] == source[i]
  {
    seq(Min(|chromosome|, |source|), i requires 0 <= i < Min(|chromosome|, |source|) =>
      if rolls(i) < chance then source[i] else chromosome[i])
  }

  /** One child of `run_single_gen`: `mutate(crossover(parent1, parent2), rate)`. */
  function Offspring(parent1: Individual, parent2: Individual, rate: real, d: ChildDraws): (child: Individual)
    ensures |child| == Min(Min(|parent1|, |parent2|), |d.source|)
    ensures forall i :: 0 <= i < |child| ==>
      child[i] == parent1[i] || child[i] == parent2[i] || child[i] == d.source[i]
  {
    Mutated(Crossed(parent1, parent2, d.pickSecond), rate, d.source, d.rolls)
  }

  /** `zip(pool.map(sim_fun, pop), pop)`: record `i` pairs individual `i` with its
      score. */
  function Scored(f: Individual -> real, pop: seq<Individual>): (s: seq<(real, Individual)>)
    ensures |s| == |pop|
    ensures forall i :: 0 <= i < |s| ==> s[i].1 == pop[i] && s[i].0 == f(s[i].1)
  {
    seq(|pop|, i requires 0 <= i < |pop| => (f(pop[i]), pop[i]))
  }

  /** The `fitness` list of a generation: the scored population, stably sorted. */
  function Ranked(f: Individual -> real, pop: seq<Individual>): (r: seq<(real, Individual)>)
    ensures |r| == |pop|
    ensures multiset(r) == multiset(Scored(f, pop))
    ensures SortedByScore(r)
    ensures forall i :: 0 <= i < |r| ==> r[i].0 == f(r[i].1) && r[i].1 in pop
  {
    var s := Scored(f, pop);
    var r := RankByScore(s);
    assert forall i :: 0 <= i < |r| ==> r[i] in multiset(s);
    r
  }

  /** The population that `run_single_gen` builds from `pop`: the two best, then
      `pop_size - 2` children of those two. */
  function NextGeneration(f: Individual -> real, pop: seq<Individual>, popSize: int, rate: real,
                          draws: nat -> ChildDraws): (next: seq<Individual>)
    requires |pop| >= 2
    ensures |next| == 2 + RangeLen(popSize - 2)
    ensures next[0] in pop && next[1] in pop
    ensures forall c :: 2 <= c < |next| ==>
      |next[c]| == Min(Min(|next[0]|, |next[1]|), |draws(c - 2).source|) &&
      forall i :: 0 <= i < |next[c]| ==>
        next[c][i] == next[0][i] || next[c][i] == next[1][i] || next[c][i] == draws(c - 2).source[i]
  {
    var ranked := Ranked(f, pop);
    var parent1, parent2 := ranked[0].1, ranked[1].1;
    [parent1, parent2] + seq(RangeLen(popSize - 2), c requires 0 <= c => Offspring(parent1, parent2, rate, draws(c)))
  }

  /** The lowest score of a non-empty population. */
  function BestScore(f: Individual -> real, pop: seq<Individual>): (best: real)
    requires pop != []
    ensures forall i :: 0 <= i < |pop| ==> best <= f(pop[i])
    ensures exists i :: 0 <= i < |pop| && best == f(pop[i])
  {
    if |pop| == 1 then f(pop[0])
    else
      var rest := BestScore(f, pop[1..]);
      assert forall i :: 1 <= i < |pop| ==> pop[i] == pop[1..][i - 1];
      if f(pop[0]) <= rest then f(pop[0]) else rest
  }

  /** `n` generations of `run`, generation `g` using the draws `draws(g)`. */
  function Evolve(f: Individual -> real, pop: seq<Individual>, popSize: int, rate: real,
                  draws: nat -> nat -> ChildDraws, n: nat): (last: seq<Individual>)
    requires n == 0 || |pop| >= 2
    ensures n == 0 ==> last == pop
    ensures n > 0 ==> |last| == 2 + RangeLen(popSize - 2)
  {
    if n == 0 then pop
    else if n == 1 then NextGeneration(f, pop, popSize, rate, draws(0))
    else NextGeneration(f, Evolve(f, pop, popSize, rate, draws, n - 1), popSize, rate, draws(n - 1))
  }

  /** Elitism: the first two of the next population sit at two different positions
      of the old population, and every individual at any other position scores at
      least as much as the second; the first scores lowest of all, and nothing but
      it scores below the second. */
  lemma Elitism(f: Individual -> real, pop: seq<Individual>, popSize: int, rate: real, draws: nat -> ChildDraws)
    requires |pop| >= 2
    ensures var next := NextGeneration(f, pop, popSize, rate, draws);
      && (exists i, j :: 0 <= i < |pop| && 0 <= j < |pop| && i != j && pop[i] == next[0] && pop[j] == next[1] &&
                         forall k :: 0 <= k < |pop| && k != i && k != j ==> f(next[1]) <= f(pop[k]))
      && f(next[0]) <= f(next[1])
      && (forall i :: 0 <= i < |pop| ==> f(next[0]) <= f(pop[i]))
      && (forall i :: 0 <= i < |pop| && f(pop[i]) < f(next[1]) ==> pop[i] == next[0])
  {
    var r := Ranked(f, pop);
    var next := NextGeneration(f, pop, popSize, rate, draws);
    assert next[0] == r[0].1 && next[1] == r[1].1;
    RankedHead(f, pop);
  }

  /** The ranking's first two records, read back on the population. */
  lemma RankedHead(f: Individual -> real, pop: seq<Individual>)
    requires |pop| >= 2
    ensures var r := Ranked(f, pop);
      && (exists i, j :: 0 <= i < |pop| && 0 <= j < |pop| && i != j && pop[i] == r[0].1 && pop[j] == r[1].1 &&
                         forall k :: 0 <= k < |pop| && k != i && k != j ==> f(r[1].1) <= f(pop[k]))
      && f(r[0].1) <= f(r[1].1)
      && (forall i :: 0 <= i < |pop| ==> f(r[0].1) <= f(pop[i]))
      && (forall i :: 0 <= i < |pop| && f(pop[i]) < f(r[1].1) ==> pop[i] == r[0].1)
  {
    RankedHeadPositions(f, pop);
    RankedHeadOrder(f, pop);
  }

  lemma RankedHeadPositions(f: Individual -> real, pop: seq<Individual>)
    requires |pop| >= 2
    ensures var r := Ranked(f, pop);
      exists i, j :: 0 <= i < |pop| && 0 <= j < |pop| && i != j && pop[i] == r[0].1 && pop[j] == r[1].1 &&
                     forall k :: 0 <= k < |pop| && k != i && k != j ==> f(r[1].1) <= f(pop[k])
  {
    var s := Scored(f, pop);
    var r := RankByScore(s);
    assert r == Ranked(f, pop);
    RankHeadPair(s);
    TwoPositions(s, r[0], r[1]);
    var i, j :| 0 <= i < |s| && 0 <= j < |s| && i != j && s[i] == r[0] && s[j] == r[1];
    assert pop[i] == r[0].1 && pop[j] == r[1].1;
    RankTail(s);
    forall k | 0 <= k < |pop| && k != i && k != j
      ensures f(r[1].1) <= f(pop[k])
    {
      OutsidePair(s, i, j, k);
    }
  }

  lemma RankedHeadOrder(f: Individual -> real, pop: seq<Individual>)
    requires |pop| >= 2
    ensures var r := Ranked(f, pop);
      && f(r[0].1) <= f(r[1].1)
      && (forall i :: 0 <= i < |pop| ==> f(r[0].1) <= f(pop[i]))
      && (forall i :: 0 <= i < |pop| && f(pop[i]) < f(r[1].1) ==> pop[i] == r[0].1)
  {
    var s := Scored(f, pop);
    var r := RankByScore(s);
    assert r == Ranked(f, pop);
    assert r[0].0 == f(r[0].1) && r[1].0 == f(r[1].1);
    RankHead(s);
    forall k | 0 <= k < |pop|
      ensures f(r[0].1) <= f(pop[k])
      ensures f(pop[k]) < f(r[1].1) ==> pop[k] == r[0].1
    {
      assert s[k] == (f(pop[k]), pop[k]);
    }
  }

  /** Two elements of a sub-multiset of `s` occupy two different positions of `s`. */
  lemma TwoPositions<T>(s: seq<T>, x: T, y: T)
    requires multiset{x, y} <= multiset(s)
    ensures exists i, j :: 0 <= i < |s| && 0 <= j < |s| && i != j && s[i] == x && s[j] == y
  {
    assert x in multiset(s);
    var i :| 0 <= i < |s| && s[i] == x;
    assert s == s[..i] + [x] + s[i + 1..];
    assert multiset(s) == multiset(s[..i]) + multiset{x} + multiset(s[i + 1..]);
    assert y in multiset(s[..i]) + multiset(s[i + 1..]);
    if y in s[..i] {
      var j :| 0 <= j < i && s[..i][j] == y;
      assert s[j] == y;
    } else {
      assert y in s[i + 1..];
      var j :| 0 <= j < |s| - i - 1 && s[i + 1..][j] == y;
      assert s[i + 1 + j] == y;
    }
  }

  /** With ties, the first elite is the earliest member of the old population that
      has the lowest score. */
  lemma EliteIsEarliestBest(f: Individual -> real, pop: seq<Individual>, popSize: int, rate: real,
                            draws: nat -> ChildDraws)
    requires |pop| >= 2
    ensures var next := NextGeneration(f, pop, popSize, rate, draws);
      exists i :: 0 <= i < |pop| && pop[i] == next[0] &&
                  (forall j :: 0 <= j < i ==> f(next[0]) < f(pop[j]))
  {
    var next := NextGeneration(f, pop, popSize, rate, draws);
    assert next[0] == Ranked(f, pop)[0].1;
    RankedHeadIsEarliest(f, pop);
  }

  lemma RankedHeadIsEarliest(f: Individual -> real, pop: seq<Individual>)
    requires |pop| >= 2
    ensures var r := Ranked(f, pop);
      exists i :: 0 <= i < |pop| && pop[i] == r[0].1 &&
                  (forall j :: 0 <= j < i ==> f(r[0].1) < f(pop[j]))
  {
    var s := Scored(f, pop);
    var r := RankByScore(s);
    RankHeadIsEarliestBest(s);
    var i :| 0 <= i < |s| && s[i] == r[0] && forall j :: 0 <= j < i ==> r[0].0 < s[j].0;
    assert pop[i] == r[0].1;
    forall j | 0 <= j < i
      ensures f(r[0].1) < f(pop[j])
    {
      assert s[j] == (f(pop[j]), pop[j]);
    }
  }

  /** The best score never rises from one generation to the next. */
  lemma {:induction false} BestNeverRises(f: Individual -> real, pop: seq<Individual>, popSize: int, rate: real,
                                          draws: nat -> ChildDraws)
    requires |pop| >= 2
    ensures BestScore(f, NextGeneration(f, pop, popSize, rate, draws)) <= BestScore(f, pop)
  {
    var next := NextGeneration(f, pop, popSize, rate, draws);
    Elitism(f, pop, popSize, rate, draws);
    var k :| 0 <= k < |pop| && BestScore(f, pop) == f(pop[k]);
    assert BestScore(f, next) <= f(next[0]);
  }

  /** Over any number of generations the best score never rises. */
  lemma {:induction false} EvolveBestNeverRises(f: Individual -> real, pop: seq<Individual>, popSize: int, rate: real,
                                                draws: nat -> nat -> ChildDraws, n: nat)
    requires |pop| >= 2
    ensures BestScore(f, Evolve(f, pop, popSize, rate, draws, n)) <= BestScore(f, pop)
  {
    if n == 1 {
      BestNeverRises(f, pop, popSize, rate, draws(0));
    } else if n > 1 {
      EvolveBestNeverRises(f, pop, popSize, rate, draws, n - 1);
      BestNeverRises(f, Evolve(f, pop, popSize, rate, draws, n - 1), popSize, rate, draws(n - 1));
    }
  }

  /** A mutation chance of at most 0 keeps the chromosome (up to the length of the
      fresh individual). */
  lemma NeverMutated(chromosome: Individual, chance: real, source: Individual, rolls: nat -> real)
    requires chance <= 0.0
    requires forall i :: 0.0 <= rolls(i)
    ensures Mutated(chromosome, chance, source, rolls) == chromosome[..Min(|chromosome|, |source|)]
  {
  }

  /** A mutation chance of at least 1 yields the fresh individual (up to the length
      of the chromosome). */
  lemma AlwaysMutated(chromosome: Individual, chance: real, source: Individual, rolls: nat -> real)
    requires chance >= 1.0
    requires forall i :: rolls(i) < 1.0
    ensures Mutated(chromosome, chance, source, rolls) == source[..Min(|chromosome|, |source|)]
  {
  }

  /** Crossing an individual with itself gives it back. */
  lemma SelfCrossover(parent: Individual, pickSecond: nat -> bool)
    ensures Crossed(parent, parent, pickSecond) == parent
  {
  }

  /** With no mutation and fresh individuals at least as long as the elites, every
      child of a generation is a plain crossover of the two elites. */
  lemma {:induction false} UnmutatedChildren(f: Individual -> real, pop: seq<Individual>, popSize: int, rate: real,
                                             draws: nat -> ChildDraws)
    requires |pop| >= 2
    requires rate <= 0.0
    requires forall c :: |draws(c).source| >= Min(|Ranked(f, pop)[0].1|, |Ranked(f, pop)[1].1|)
    requires forall c, i :: 0.0 <= draws(c).rolls(i)
    ensures var next := NextGeneration(f, pop, popSize, rate, draws);
      forall c :: 2 <= c < |next| ==> next[c] == Crossed(next[0], next[1], draws(c - 2).pickSecond)
  {
    var next := NextGeneration(f, pop, popSize, rate, draws);
    forall c | 2 <= c < |next|
      ensures next[c] == Crossed(next[0], next[1], draws(c - 2).pickSecond)
    {
      var d := draws(c - 2);
      var child := Crossed(next[0], next[1], d.pickSecond);
      NeverMutated(child, rate, d.source, d.rolls);
    }
  }

  class GeneticAlgo {
    const generations: int
    const popSize: int
    const mutationRate: real
    const simFun: Individual -> real
    var pop: seq<Individual>
    var fitness: seq<(real, Individual)>

    constructor (gens: int, popSize: int, mutationRate: real, simFun: Individual -> real)
      ensures generations == gens && this.popSize == popSize
      ensures this.mutationRate == mutationRate && this.simFun == simFun
      ensures pop == [] && fitness == []
    {
      generations := gens;
      this.popSize := popSize;
      this.mutationRate := mutationRate;
      this.simFun := simFun;
      pop := [];
      fitness := [];
    }

    /** `crossover(parent1, parent2)`, the coins given by `pickSecond`. */
    method Crossover(parent1: Individual, parent2: Individual, pickSecond: nat -> bool) returns (child: Individual)
      ensures child == Crossed(parent1, parent2, pickSecond)
    {
      child := [];
      var n := Min(|parent1|, |parent2|);
      for i := 0 to n
        invariant |child| == i
        invariant forall j :: 0 <= j < i ==> child[j] == if pickSecond(j) then parent2[j] else parent1[j]
      {
        var gene := if pickSecond(i) then parent2[i] else parent1[i];
        child := child + [gene];
      }
    }

    /** `mutate(chromosome, chance)`, with `source` the individual it draws from
        `gen_individual()` and `rolls` its `random.random()` draws. */
    method Mutate(chromosome: Individual, chance: real, source: Individual, rolls: nat -> real)
      returns (mutated: Individual)
      ensures mutated == Mutated(chromosome, chance, source, rolls)
    {
      mutated := [];
      var n := Min(|chromosome|, |source|);
      for i := 0 to n
        invariant |mutated| == i
        invariant forall j :: 0 <= j < i ==> mutated[j] == if rolls(j) < chance then source[j] else chromosome[j]
      {
        if rolls(i) < chance {
          mutated := mutated + [source[i]];
        } else {
          mutated := mutated + [chromosome[i]];
        }
      }
    }

    /** `init_pop()`: appends `pop_size` fresh individuals, `seeds(0)`, `seeds(1)`, ... */
    method InitPop(seeds: nat -> Individual)
      modifies this`pop
      ensures pop == old(pop) + seq(RangeLen(popSize), i requires 0 <= i => seeds(i))
    {
      var n := RangeLen(popSize);
      for i := 0 to n
        invariant pop == old(pop) + seq(i, j requires 0 <= j => seeds(j))
      {
        pop := pop + [seeds(i)];
      }
    }

    /** The loop of `run_single_gen()`: `n` mutated crossovers of the two parents,
        child `c` made with the draws `draws(c)`. */
    method Breed(parent1: Individual, parent2: Individual, n: nat, draws: nat -> ChildDraws)
      returns (children: seq<Individual>)
      ensures children == seq(n, c requires 0 <= c => Offspring(parent1, parent2, mutationRate, draws(c)))
    {
      children := [];
      for i := 0 to n
        invariant children == seq(i, c requires 0 <= c => Offspring(parent1, parent2, mutationRate, draws(c)))
      {
        var child := Crossover(parent1, parent2, draws(i).pickSecond);
        child := Mutate(child, mutationRate, draws(i).source, draws(i).rolls);
        children := children + [child];
      }
    }

    /** `run_single_gen()`: ranks the population, keeps the two best and refills it
        with their mutated crossovers. */
    method RunSingleGen(draws: nat -> ChildDraws)
      requires |pop| >= 2
      modifies this`pop, this`fitness
      ensures fitness == Ranked(simFun, old(pop))
      ensures pop == NextGeneration(simFun, old(pop), popSize, mutationRate, draws)
      ensures BestScore(simFun, pop) <= BestScore(simFun, old(pop))
    {
      var current := pop;
      var res := seq(|current|, i requires 0 <= i < |current| => simFun(current[i]));
      var scored := seq(|current|, i requires 0 <= i < |current| => (res[i], current[i]));
      assert scored == Scored(simFun, current);
      var ranked := RankByScore(scored);
      var parent1 := ranked[0].1;
      var parent2 := ranked[1].1;
      var children := Breed(parent1, parent2, RangeLen(popSize - 2), draws);
      BestNeverRises(simFun, current, popSize, mutationRate, draws);
      fitness := ranked;
      pop := [parent1, parent2] + children;
    }

    /** `run()`: `init_pop()`, then `generations` calls of `run_single_gen()`,
        generation `g` using the draws `draws(g)`; `fitness` is left as the ranking
        of the population before the last generation. */
    method Run(seeds: nat -> Individual, draws: nat -> nat -> ChildDraws)
      requires generations <= 0 || |pop| + RangeLen(popSize) >= 2
      modifies this`pop, this`fitness
      ensures var seeded := old(pop) + seq(RangeLen(popSize), i requires 0 <= i => seeds(i));
        && pop == Evolve(simFun, seeded, popSize, mutationRate, draws, RangeLen(generations))
        && (generations > 0 ==> |pop| == 2 + RangeLen(popSize - 2))
        && (generations > 0 ==> BestScore(simFun, pop) <= BestScore(simFun, seeded))
      ensures generations <= 0 ==> fitness == old(fitness)
      ensures var seeded := old(pop) + seq(RangeLen(popSize), i requires 0 <= i => seeds(i));
        generations > 0 ==>
          fitness == Ranked(simFun, Evolve(simFun, seeded, popSize, mutationRate, draws, RangeLen(generations) - 1))
    {
      InitPop(seeds);
      ghost var seeded := pop;
      var n := RangeLen(generations);
      for g := 0 to n
        invariant pop == Evolve(simFun, seeded, popSize, mutationRate, draws, g)
        invariant g > 0 ==> |pop| >= 2
        invariant g == 0 ==> fitness == old(fitness)
        invariant g > 0 ==> fitness == Ranked(simFun, Evolve(simFun, seeded, popSize, mutationRate, draws, g - 1))
      {
        RunSingleGen(draws(g));
      }
      if n > 0 {
        EvolveBestNeverRises(simFun, seeded, popSize, mutationRate, draws, n);
      }
    }
  }
}
