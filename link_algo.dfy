/** `LinkAlgo`, the genetic algorithm specialised to four-bar linkages: an individual
    is the four lengths `(a, h, b, g)` that `simulate` takes, each drawn with
    `random.random()`. */
module LinkAlgo {
  import opened Genetic

  /** A linkage genome: four genes, each in [0, 1) as `random.random()` returns. */
  ghost predicate Genome(x: Individual)
  {
    |x| == 4 && forall i :: 0 <= i < 4 ==> 0.0 <= x[i] < 1.0
  }

  /** Every draw lies in [0, 1), as `random.random()` promises. */
  ghost predicate UnitDraws(draws: nat -> real)
  {
    forall i: nat :: 0.0 <= draws(i) < 1.0
  }

  /** Every fresh individual that `mutate` draws is a genome. */
  ghost predicate GenomeSources(draws: nat -> ChildDraws)
  {
    forall c: nat :: Genome(draws(c).source)
  }

  /** `gen_individual`: appends four draws to an empty list. */
  method GenIndividual(draws: nat -> real) returns (child: Individual)
    ensures |child| == 4
    ensures forall i :: 0 <= i < 4 ==> child[i] == draws(i)
    ensures UnitDraws(draws) ==> Genome(child)
  {
    child := [];
    for i := 0 to 4
      invariant |child| == i
      invariant forall j :: 0 <= j < i ==> child[j] == draws(j)
    {
      child := child + [draws(i)];
    }
  }

  /** A child of two genomes, mutated from a genome, is a genome. */
  lemma OffspringIsGenome(parent1: Individual, parent2: Individual, rate: real, d: ChildDraws)
    requires Genome(parent1) && Genome(parent2) && Genome(d.source)
    ensures Genome(Offspring(parent1, parent2, rate, d))
  {
    var child := Offspring(parent1, parent2, rate, d);
    forall i | 0 <= i < 4
      ensures 0.0 <= child[i] < 1.0
    {
      assert child[i] == parent1[i] || child[i] == parent2[i] || child[i] == d.source[i];
    }
  }

  /** Every member of a generation bred from genomes, with genome sources for its
      mutations, is a genome: each individual the engine hands to `simulate` has
      the four arguments it unpacks. */
  lemma NextGenerationIsGenomes(f: Individual -> real, pop: seq<Individual>, popSize: int, rate: real,
                                draws: nat -> ChildDraws)
    requires |pop| >= 2
    requires forall x :: x in pop ==> Genome(x)
    requires GenomeSources(draws)
    ensures forall x :: x in NextGeneration(f, pop, popSize, rate, draws) ==> Genome(x)
  {
    var next := NextGeneration(f, pop, popSize, rate, draws);
    forall c | 2 <= c < |next|
      ensures Genome(next[c])
    {
      var source := draws(c - 2).source;
      assert Genome(source);
      forall i | 0 <= i < 4
        ensures 0.0 <= next[c][i] < 1.0
      {
        assert next[c][i] == next[0][i] || next[c][i] == next[1][i] || next[c][i] == source[i];
      }
    }
  }

  /** Over any number of generations, the population stays made of genomes. */
  lemma {:induction false} EvolveIsGenomes(f: Individual -> real, pop: seq<Individual>, popSize: int, rate: real,
                                           draws: nat -> nat -> ChildDraws, n: nat)
    requires |pop| >= 2
    requires forall x :: x in pop ==> Genome(x)
    requires forall g: nat :: GenomeSources(draws(g))
    ensures forall x :: x in Evolve(f, pop, popSize, rate, draws, n) ==> Genome(x)
  {
    if n > 0 {
      EvolveIsGenomes(f, pop, popSize, rate, draws, n - 1);
      NextGenerationIsGenomes(f, Evolve(f, pop, popSize, rate, draws, n - 1), popSize, rate, draws(n - 1));
    }
  }
}
