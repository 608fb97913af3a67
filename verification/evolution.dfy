/** The generational loop of the genetic algorithm: sorting by fitness, breeding a
    generation from random parents, and keeping the best individual seen. */
module Evolution {
  import opened TimetableData
  import opened Genes
  import opened Score
  import opened Operators

  /** The arguments the application passes to `runGA`. */
  const POP_SIZE: nat := 30
  const GENERATIONS: nat := 100
  const MUTATION_RATE: real := 0.15

  // ---------------------------------------------------------------- sorting

  predicate SortedByFitness(pop: seq<Individual>) {
    forall i, j :: 0 <= i < j < |pop| ==> pop[i].fitness <= pop[j].fitness
  }

  /** Places `x` after every member whose fitness is at most its own. */
  function Insert(sorted: seq<Individual>, x: Individual): (r: seq<Individual>)
    ensures |r| == |sorted| + 1
  {
    if |sorted| == 0 || sorted[|sorted| - 1].fitness <= x.fitness then sorted + [x]
    else Insert(sorted[..|sorted| - 1], x) + [sorted[|sorted| - 1]]
  }

  /** `population.sort((a, b) => a.fitness - b.fitness)`: a stable insertion sort. */
  function SortByFitness(pop: seq<Individual>): (r: seq<Individual>)
    ensures |r| == |pop|
  {
    if |pop| == 0 then [] else Insert(SortByFitness(pop[..|pop| - 1]), pop[|pop| - 1])
  }

  /** The members with fitness `f`, in order. */
  function WithFitness(pop: seq<Individual>, f: int): seq<Individual> {
    if |pop| == 0 then []
    else WithFitness(pop[..|pop| - 1], f) + (if pop[|pop| - 1].fitness == f then [pop[|pop| - 1]] else [])
  }

  lemma WithFitnessSnoc(pop: seq<Individual>, x: Individual, f: int)
    ensures WithFitness(pop + [x], f) == WithFitness(pop, f) + (if x.fitness == f then [x] else [])
  {
    assert (pop + [x])[..|pop|] == pop;
  }

  lemma {:induction false} InsertPermutes(sorted: seq<Individual>, x: Individual)
    ensures multiset(Insert(sorted, x)) == multiset(sorted) + multiset{x}
  {
    if !(|sorted| == 0 || sorted[|sorted| - 1].fitness <= x.fitness) {
      var init, last := sorted[..|sorted| - 1], sorted[|sorted| - 1];
      assert sorted == init + [last];
      InsertPermutes(init, x);
    }
  }

  lemma {:induction false} InsertSorted(sorted: seq<Individual>, x: Individual)
    requires SortedByFitness(sorted)
    ensures SortedByFitness(Insert(sorted, x))
  {
    var r := Insert(sorted, x);
    if !(|sorted| == 0 || sorted[|sorted| - 1].fitness <= x.fitness) {
      var init, last := sorted[..|sorted| - 1], sorted[|sorted| - 1];
      var t := Insert(init, x);
      InsertSorted(init, x);
      InsertPermutes(init, x);
      assert r == t + [last];
      forall i, j | 0 <= i < j < |r|
        ensures r[i].fitness <= r[j].fitness
      {
        if j == |t| {
          assert r[i] == t[i] && t[i] in multiset(t);
          if t[i] != x {
            assert t[i] in init;
            var k :| 0 <= k < |init| && init[k] == t[i];
            assert sorted[k] == init[k];
          }
        } else {
          assert r[i] == t[i] && r[j] == t[j];
        }
      }
    }
  }

  /** Inserting keeps the relative order of each fitness, with `x` last among its own. */
  lemma {:induction false} InsertStable(sorted: seq<Individual>, x: Individual, f: int)
    ensures WithFitness(Insert(sorted, x), f) == WithFitness(sorted, f) + (if x.fitness == f then [x] else [])
  {
    if |sorted| == 0 || sorted[|sorted| - 1].fitness <= x.fitness {
      WithFitnessSnoc(sorted, x, f);
    } else {
      var init, last := sorted[..|sorted| - 1], sorted[|sorted| - 1];
      assert sorted == init + [last];
      var t := Insert(init, x);
      InsertStable(init, x, f);
      WithFitnessSnoc(t, last, f);
      WithFitnessSnoc(init, last, f);
    }
  }

  /** The sort orders by fitness, is a permutation, and is stable: the members of each
      fitness keep their relative order. */
  lemma {:induction false} SortFacts(pop: seq<Individual>)
    ensures SortedByFitness(SortByFitness(pop))
    ensures multiset(SortByFitness(pop)) == multiset(pop)
    ensures forall f :: WithFitness(SortByFitness(pop), f) == WithFitness(pop, f)
  {
    if |pop| > 0 {
      var init, last := pop[..|pop| - 1], pop[|pop| - 1];
      assert pop == init + [last];
      SortFacts(init);
      InsertSorted(SortByFitness(init), last);
      InsertPermutes(SortByFitness(init), last);
      forall f
        ensures WithFitness(SortByFitness(pop), f) == WithFitness(pop, f)
      {
        InsertStable(SortByFitness(init), last, f);
        WithFitnessSnoc(init, last, f);
      }
    }
  }

  /** The first member of a sorted, non-empty population has the least fitness. */
  lemma SortedHeadIsMinimum(pop: seq<Individual>)
    requires SortedByFitness(pop) && |pop| > 0
    ensures forall i :: 0 <= i < |pop| ==> pop[0].fitness <= pop[i].fitness
  {
    forall i | 0 < i < |pop|
      ensures pop[0].fitness <= pop[i].fitness
    {
    }
  }

  /** Reordering a population keeps every member's properties. */
  lemma PermutationKeeps(a: seq<Individual>, b: seq<Individual>)
    requires multiset(a) == multiset(b)
    ensures Scored(a) ==> Scored(b)
    ensures AllWellShaped(a) ==> AllWellShaped(b)
  {
    forall k | 0 <= k < |b|
      ensures b[k] in a
    {
      assert b[k] in multiset(a);
    }
  }

  // ---------------------------------------------------------------- breeding

  /** The draws for one child: two parent indices, the crossover coins and the mutation draws. */
  datatype ChildDraw = ChildDraw(parent1: Unit, parent2: Unit, cross: seq<Unit>, mutation: seq<MutationDraw>)

  /** The draws fit individuals of `GENE_COUNT` genes. */
  predicate DrawFits(d: ChildDraw) {
    |d.cross| == GENE_COUNT && |d.mutation| == GENE_COUNT
  }

  /** The individual has the full number of genes and carries the score of its genes. */
  predicate Evaluated(ind: Individual) {
    |ind.genes| == GENE_COUNT && ind.fitness == Fitness(ind.genes)
  }

  /** A scored, well-shaped individual has a non-negative fitness. */
  lemma WellShapedScoreNonNegative(ind: Individual)
    requires Evaluated(ind) && WellShaped(ind.genes)
    ensures ind.fitness >= 0
  {
    WellShapedKnown(ind.genes);
    FitnessNonNegative(ind.genes);
  }

  predicate Scored(pop: seq<Individual>) {
    forall k {:trigger Evaluated(pop[k])} :: 0 <= k < |pop| ==> Evaluated(pop[k])
  }

  predicate AllWellShaped(pop: seq<Individual>) {
    forall k :: 0 <= k < |pop| ==> WellShaped(pop[k].genes)
  }

  /** `child` has the genes one pass of the breeding loop produces from `pop` under draw
      `d`: the crossover of the two drawn parents, then mutated with `rate`. */
  predicate BredFrom(child: Individual, pop: seq<Individual>, rate: real, d: ChildDraw)
    requires |pop| >= 1
  {
    var p1 := pop[Pick(|pop|, d.parent1)];
    var p2 := pop[Pick(|pop|, d.parent2)];
    && |p2.genes| >= |p1.genes| == |d.cross| == |d.mutation|
    && child.genes == MutateGenes(CrossGenes(p1.genes, p2.genes, d.cross), rate, d.mutation)
  }

  /** Child `c` of `bred` was bred from `pop` under the `c`-th draw. */
  predicate GenerationBred(bred: seq<Individual>, pop: seq<Individual>, rate: real, draws: seq<ChildDraw>)
    requires |pop| >= 1
  {
    |bred| == |draws| && PrefixBred(bred, pop, rate, draws)
  }

  /** The children bred so far, each under its own draw. */
  predicate PrefixBred(bred: seq<Individual>, pop: seq<Individual>, rate: real, draws: seq<ChildDraw>)
    requires |pop| >= 1
  {
    |bred| <= |draws| && forall c :: 0 <= c < |bred| ==> BredFrom(bred[c], pop, rate, draws[c])
  }

  lemma PrefixBredSnoc(bred: seq<Individual>, child: Individual, pop: seq<Individual>, rate: real, draws: seq<ChildDraw>)
    requires |pop| >= 1
    requires PrefixBred(bred, pop, rate, draws) && |bred| < |draws|
    requires BredFrom(child, pop, rate, draws[|bred|])
    ensures PrefixBred(bred + [child], pop, rate, draws)
  {
    var next := bred + [child];
    forall c | 0 <= c < |next|
      ensures BredFrom(next[c], pop, rate, draws[c])
    {
      if c < |bred| {
        assert next[c] == bred[c];
      }
    }
  }

  /** One pass of the `while (nextGen.length < popSize)` body: two parents drawn by index,
      crossed, and the child mutated. */
  method Breed(pop: seq<Individual>, rate: real, d: ChildDraw) returns (child: Individual)
    requires |pop| >= 1 && Scored(pop) && DrawFits(d)
    ensures BredFrom(child, pop, rate, d) && Evaluated(child)
    ensures AllWellShaped(pop) ==> WellShaped(child.genes)
  {
    var parent1 := pop[Pick(|pop|, d.parent1)];
    var parent2 := pop[Pick(|pop|, d.parent2)];
    assert Evaluated(parent1) && Evaluated(parent2);
    var crossed := Crossover(parent1, parent2, d.cross);
    child := Mutate(crossed, rate, d.mutation);
  }

  /** One generation: `popSize` children bred from `pop`, then sorted. */
  method NextGeneration(pop: seq<Individual>, rate: real, draws: seq<ChildDraw>)
    returns (next: seq<Individual>, ghost bred: seq<Individual>)
    requires |pop| >= 1 && Scored(pop)
    requires |draws| == |pop| && forall c :: 0 <= c < |draws| ==> DrawFits(draws[c])
    ensures GenerationBred(bred, pop, rate, draws) && Scored(bred)
    ensures next == SortByFitness(bred)
    ensures |next| == |pop| && SortedByFitness(next) && Scored(next)
    ensures AllWellShaped(pop) ==> AllWellShaped(next)
  {
    var nextGen: seq<Individual> := [];
    while |nextGen| < |pop|
      invariant |nextGen| <= |pop|
      invariant PrefixBred(nextGen, pop, rate, draws)
      invariant Scored(nextGen)
      invariant AllWellShaped(pop) ==> AllWellShaped(nextGen)
      decreases |pop| - |nextGen|
    {
      var child := Breed(pop, rate, draws[|nextGen|]);
      PrefixBredSnoc(nextGen, child, pop, rate, draws);
      nextGen := nextGen + [child];
    }
    bred := nextGen;
    next := SortByFitness(nextGen);
    SortFacts(nextGen);
    PermutationKeeps(nextGen, next);
  }

  // ---------------------------------------------------------------- the loop

  /** The best individual after the first `n` populations of `history`: the head of the
      first population whose head beats every earlier head. */
  function RunningBest(history: seq<seq<Individual>>, n: nat): (best: Individual)
    requires 1 <= n <= |history| && forall g :: 0 <= g < |history| ==> |history[g]| >= 1
  {
    if n == 1 then history[0][0]
    else
      var prev := RunningBest(history, n - 1);
      if history[n - 1][0].fitness < prev.fitness then history[n - 1][0] else prev
  }

  /** Adding a later population does not change the running best of the earlier ones. */
  lemma {:induction false} RunningBestPrefix(history: seq<seq<Individual>>, pop: seq<Individual>, n: nat)
    requires 1 <= n <= |history| && |pop| >= 1 && forall g :: 0 <= g < |history| ==> |history[g]| >= 1
    ensures RunningBest(history + [pop], n) == RunningBest(history, n)
  {
    assert (history + [pop])[n - 1] == history[n - 1];
    if n > 1 {
      RunningBestPrefix(history, pop, n - 1);
    }
  }

  /** The running best never gets worse from one generation to the next. */
  lemma {:induction false} RunningBestNonIncreasing(history: seq<seq<Individual>>, m: nat, n: nat)
    requires 1 <= m <= n <= |history| && forall g :: 0 <= g < |history| ==> |history[g]| >= 1
    ensures RunningBest(history, n).fitness <= RunningBest(history, m).fitness
    decreases n
  {
    if m < n {
      RunningBestNonIncreasing(history, m, n - 1);
    }
  }

  /** The running best is the head of one of the first `n` populations, the earliest head
      reaching the least fitness among them. */
  lemma {:induction false} RunningBestIsFirstMinimum(history: seq<seq<Individual>>, n: nat)
    requires 1 <= n <= |history| && forall g :: 0 <= g < |history| ==> |history[g]| >= 1
    ensures forall g :: 0 <= g < n ==> RunningBest(history, n).fitness <= history[g][0].fitness
    ensures exists g :: 0 <= g < n && RunningBest(history, n) == history[g][0]
                     && forall h :: 0 <= h < g ==> history[h][0].fitness > history[g][0].fitness
  {
    if n == 1 {
      assert RunningBest(history, 1) == history[0][0];
    } else {
      RunningBestIsFirstMinimum(history, n - 1);
      var prev := RunningBest(history, n - 1);
      var g :| 0 <= g < n - 1 && prev == history[g][0]
               && forall h :: 0 <= h < g ==> history[h][0].fitness > history[g][0].fitness;
      if history[n - 1][0].fitness < prev.fitness {
        assert RunningBest(history, n) == history[n - 1][0];
        forall h | 0 <= h < n - 1
          ensures history[h][0].fitness > history[n - 1][0].fitness
        {
        }
      } else {
        assert RunningBest(history, n) == history[g][0];
      }
    }
  }

  /** The draws the generations consume: one per child of every generation. */
  predicate BreedDrawsFit(popSize: nat, generations: nat, children: seq<seq<ChildDraw>>) {
    && |children| == generations
    && forall g :: 0 <= g < generations ==>
         |children[g]| == popSize && forall c :: 0 <= c < popSize ==> DrawFits(children[g][c])
  }

  /** The draws `runGA` consumes: one set per initial individual, and one per child of
      every generation. */
  predicate RunDrawsFit(popSize: nat, generations: nat, initial: seq<seq<GeneDraw>>, children: seq<seq<ChildDraw>>) {
    && |initial| == popSize && (forall k :: 0 <= k < popSize ==> |initial[k]| == GENE_COUNT)
    && BreedDrawsFit(popSize, generations, children)
  }

  /** The individuals `createRandomIndividual` makes from the draw sets, one per set, in order. */
  function Founders(initial: seq<seq<GeneDraw>>): (founders: seq<Individual>)
    requires forall k :: 0 <= k < |initial| ==> |initial[k]| == GENE_COUNT
    ensures |founders| == |initial|
  {
    if |initial| == 0 then []
    else Founders(initial[..|initial| - 1]) + [Created(initial[|initial| - 1])]
  }

  /** One more draw set adds its created individual at the end. */
  lemma FoundersSnoc(initial: seq<seq<GeneDraw>>, k: nat)
    requires forall k :: 0 <= k < |initial| ==> |initial[k]| == GENE_COUNT
    requires k < |initial|
    ensures Founders(initial[..k + 1]) == Founders(initial[..k]) + [Created(initial[k])]
  {
    var prefix := initial[..k + 1];
    assert prefix[..k] == initial[..k] && prefix[k] == initial[k];
  }

  /** Appending a scored, well-shaped individual keeps a population scored and well-shaped. */
  lemma ScoredSnoc(pop: seq<Individual>, ind: Individual)
    requires Scored(pop) && AllWellShaped(pop) && Evaluated(ind) && WellShaped(ind.genes)
    ensures Scored(pop + [ind]) && AllWellShaped(pop + [ind])
  {
    var longer := pop + [ind];
    forall i | 0 <= i < |longer|
      ensures Evaluated(longer[i]) && WellShaped(longer[i].genes)
    {
      if i < |pop| {
        assert longer[i] == pop[i];
        assert Evaluated(pop[i]) && WellShaped(pop[i].genes);
      } else {
        assert longer[i] == ind;
      }
    }
  }

  /** The loop of `runGA` that fills the first population: one random individual per draw set. */
  method CreateFounders(initial: seq<seq<GeneDraw>>) returns (founders: seq<Individual>)
    requires forall k :: 0 <= k < |initial| ==> |initial[k]| == GENE_COUNT
    ensures founders == Founders(initial)
    ensures Scored(founders) && AllWellShaped(founders)
  {
    founders := [];
    for k := 0 to |initial|
      invariant |founders| == k && founders == Founders(initial[..k])
      invariant Scored(founders) && AllWellShaped(founders)
    {
      var ind := CreateRandomIndividual(initial[k]);
      FoundersSnoc(initial, k);
      ScoredSnoc(founders, ind);
      founders := founders + [ind];
    }
    assert initial[..|initial|] == initial;
  }

  /** The first population of `runGA`: one random individual per draw set, sorted by fitness. */
  method InitialPopulation(initial: seq<seq<GeneDraw>>) returns (population: seq<Individual>)
    requires forall k :: 0 <= k < |initial| ==> |initial[k]| == GENE_COUNT
    ensures population == SortByFitness(Founders(initial))
    ensures |population| == |initial|
    ensures SortedByFitness(population) && Scored(population) && AllWellShaped(population)
  {
    var founders := CreateFounders(initial);
    SortFacts(founders);
    population := SortByFitness(founders);
    PermutationKeeps(founders, population);
  }

  /** A population as `runGA` keeps it: `popSize` scored, well-shaped members in fitness order. */
  predicate Generation(pop: seq<Individual>, popSize: nat) {
    |pop| == popSize && SortedByFitness(pop) && Scored(pop) && AllWellShaped(pop)
  }

  predicate AllGenerations(history: seq<seq<Individual>>, popSize: nat) {
    forall h :: 0 <= h < |history| ==> Generation(history[h], popSize)
  }

  /** Each population after the first is the sorted brood of the one before, under that round's draws. */
  predicate Lineage(history: seq<seq<Individual>>, offspring: seq<seq<Individual>>, rate: real, children: seq<seq<ChildDraw>>)
    requires forall h :: 0 <= h < |history| ==> |history[h]| >= 1
  {
    && |history| == |offspring| + 1 && |offspring| <= |children|
    && forall h :: 0 <= h < |offspring| ==>
         history[h + 1] == SortByFitness(offspring[h]) && GenerationBred(offspring[h], history[h], rate, children[h])
  }

  lemma AllGenerationsSnoc(history: seq<seq<Individual>>, pop: seq<Individual>, popSize: nat)
    requires AllGenerations(history, popSize) && Generation(pop, popSize)
    ensures AllGenerations(history + [pop], popSize)
  {
    var longer := history + [pop];
    forall h | 0 <= h < |longer|
      ensures Generation(longer[h], popSize)
    {
      if h < |history| {
        assert longer[h] == history[h];
      }
    }
  }

  lemma LineageSnoc(history: seq<seq<Individual>>, offspring: seq<seq<Individual>>, rate: real, children: seq<seq<ChildDraw>>,
                    bred: seq<Individual>, next: seq<Individual>)
    requires forall h :: 0 <= h < |history| ==> |history[h]| >= 1
    requires Lineage(history, offspring, rate, children) && |offspring| < |children| && |next| >= 1
    requires next == SortByFitness(bred) && GenerationBred(bred, history[|offspring|], rate, children[|offspring|])
    ensures forall h :: 0 <= h < |history + [next]| ==> |(history + [next])[h]| >= 1
    ensures Lineage(history + [next], offspring + [bred], rate, children)
  {
    var g := |offspring|;
    var longer, more := history + [next], offspring + [bred];
    assert forall h :: 0 <= h < |longer| ==> |longer[h]| >= 1 by {
      forall h | 0 <= h < |longer| ensures |longer[h]| >= 1 {
        if h < |history| {
          assert longer[h] == history[h];
        }
      }
    }
    forall h | 0 <= h < |more|
      ensures longer[h + 1] == SortByFitness(more[h]) && GenerationBred(more[h], longer[h], rate, children[h])
    {
      if h < g {
        assert longer[h] == history[h] && longer[h + 1] == history[h + 1] && more[h] == offspring[h];
      } else {
        assert longer[h] == history[g] && longer[h + 1] == next && more[h] == bred;
      }
    }
  }

  /** The generation loop of `runGA` from the population `first`: `generations` rounds of
      breeding, each population sorted by fitness; returns the first population head that
      reached the least fitness. `history` holds every population. */
  method Evolve(first: seq<Individual>, popSize: nat, generations: nat, rate: real, children: seq<seq<ChildDraw>>)
    returns (best: Individual, ghost history: seq<seq<Individual>>, ghost offspring: seq<seq<Individual>>)
    requires popSize >= 1 && Generation(first, popSize)
    requires BreedDrawsFit(popSize, generations, children)
    ensures |history| == generations + 1 && history[0] == first
    ensures forall g :: 0 <= g < |history| ==>
      |history[g]| == popSize && SortedByFitness(history[g]) && Scored(history[g]) && AllWellShaped(history[g])
    ensures |offspring| == generations
    ensures forall g :: 0 <= g < generations ==>
      history[g + 1] == SortByFitness(offspring[g]) && GenerationBred(offspring[g], history[g], rate, children[g])
    ensures best == RunningBest(history, |history|)
    ensures forall g :: 0 <= g < |history| ==> best.fitness <= history[g][0].fitness
    ensures generations == 0 ==> best == first[0]
    ensures WellShaped(best.genes) && Evaluated(best) && best.fitness >= 0
  {
    var population := first;
    best := population[0];
    history := [population];
    offspring := [];
    for g := 0 to generations
      invariant |history| == g + 1 && history[g] == population && history[0] == first
      invariant AllGenerations(history, popSize)
      invariant |offspring| == g
      invariant Lineage(history, offspring, rate, children)
      invariant best == RunningBest(history, |history|)
    {
      var next, bred := NextGeneration(population, rate, children[g]);
      population := next;
      if population[0].fitness < best.fitness {
        best := population[0];
      }
      RunningBestPrefix(history, population, |history|);
      AllGenerationsSnoc(history, population, popSize);
      LineageSnoc(history, offspring, rate, children, bred, population);
      history := history + [population];
      offspring := offspring + [bred];
    }
    RunningBestIsFirstMinimum(history, |history|);
    WellShapedScoreNonNegative(best);
  }

  /** `runGA`: a random initial population of one created individual per draw set, sorted
      by fitness, then the generation loop. */
  method RunGA(popSize: nat, generations: nat, rate: real, initial: seq<seq<GeneDraw>>, children: seq<seq<ChildDraw>>)
    returns (best: Individual, ghost history: seq<seq<Individual>>, ghost offspring: seq<seq<Individual>>)
    requires popSize >= 1
    requires RunDrawsFit(popSize, generations, initial, children)
    ensures |history| == generations + 1
    ensures history[0] == SortByFitness(Founders(initial))
    ensures forall g :: 0 <= g < |history| ==>
      |history[g]| == popSize && SortedByFitness(history[g]) && Scored(history[g]) && AllWellShaped(history[g])
    ensures |offspring| == generations
    ensures forall g :: 0 <= g < generations ==>
      history[g + 1] == SortByFitness(offspring[g]) && GenerationBred(offspring[g], history[g], rate, children[g])
    ensures best == RunningBest(history, |history|)
    ensures forall g :: 0 <= g < |history| ==> best.fitness <= history[g][0].fitness
    ensures generations == 0 ==> best == history[0][0]
    ensures WellShaped(best.genes) && Evaluated(best) && best.fitness >= 0
  {
    var population := InitialPopulation(initial);
    best, history, offspring := Evolve(population, popSize, generations, rate, children);
  }
}
