/**
 * spacesettlers.bost7517.AtkiGAPopulation: a fixed-size population of
 * chromosomes with one fitness score each, a cursor over the current member,
 * in-place swaps and a Fisher-Yates shuffle, pairwise tournament selection
 * and the next generation by crossover and mutation. The draws of the shared
 * Random object are inputs; doCrossover and mutate belong to the chromosome
 * class and are parameters.
 */
module GAPopulation {
  import opened Wrappers

  /** An AtkiGAChromosome, by identity; its contents are not modelled. */
  datatype Chromosome = Chromosome(id: int)

  /** A population slot: a chromosome, or null once selection dropped it. */
  type Member = Option<Chromosome>

  /** The chance of mutation, pMutation. */
  const MUTATION_CHANCE: real := 0.10

  /** selection discards a pair whose both fitnesses are below this start value of bestFitness. */
  const FITNESS_FLOOR: real := -1.0

  /** A chromosome paired with its fitness score, as the two arrays hold them side by side. */
  type Scored = (Member, real)

  function Zip(pop: seq<Member>, fit: seq<real>): (s: seq<Scored>)
    requires |pop| == |fit|
    ensures |s| == |pop|
  {
    seq(|pop|, k requires 0 <= k < |pop| => (pop[k], fit[k]))
  }

  function Swap<T>(s: seq<T>, i: int, j: int): (r: seq<T>)
    requires 0 <= i < |s| && 0 <= j < |s|
  {
    s[i := s[j]][j := s[i]]
  }

  /** A swap keeps the elements and only exchanges the two positions; swapping a position with itself changes nothing. */
  lemma SwapFacts<T>(s: seq<T>, i: int, j: int)
    requires 0 <= i < |s| && 0 <= j < |s|
    ensures |Swap(s, i, j)| == |s| && multiset(Swap(s, i, j)) == multiset(s)
    ensures Swap(s, i, j)[i] == s[j] && Swap(s, i, j)[j] == s[i]
    ensures forall k :: 0 <= k < |s| && k != i && k != j ==> Swap(s, i, j)[k] == s[k]
    ensures i == j ==> Swap(s, i, j) == s
  {
    if i != j {
      var t := s[i := s[j]];
      assert multiset(t) == multiset(s) - multiset{s[i]} + multiset{s[j]};
      assert multiset(t[j := s[i]]) == multiset(t) - multiset{s[j]} + multiset{s[i]};
    }
  }

  /** The draws of shufflePopulation from position i down: the k-th lies in [0, i - k]. */
  predicate ShuffleDraws(draws: seq<int>, i: int)
  {
    |draws| >= i && forall k :: 0 <= k < i ==> 0 <= draws[k] <= i - k
  }

  /** The Fisher-Yates passes from position i down to 1: swap i with the next draw. */
  function ShuffleFrom<T>(s: seq<T>, draws: seq<int>, i: int): (r: seq<T>)
    requires i < |s| && ShuffleDraws(draws, i)
    ensures |r| == |s|
    decreases i
  {
    if i < 1 then s
    else ShuffleFrom(Swap(s, i, draws[0]), draws[1..], i - 1)
  }

  /** The shuffle is a permutation. */
  lemma {:induction false} ShufflePermutes<T>(s: seq<T>, draws: seq<int>, i: int)
    requires i < |s| && ShuffleDraws(draws, i)
    ensures multiset(ShuffleFrom(s, draws, i)) == multiset(s)
    decreases i
  {
    if i >= 1 {
      SwapFacts(s, i, draws[0]);
      ShufflePermutes(Swap(s, i, draws[0]), draws[1..], i - 1);
    }
  }

  /**
   * The tournament of positions i - 1 (first) and i (second): the second
   * wins if it is at least the floor and strictly fitter, the first wins if
   * it is at least the floor and not less fit, otherwise the slot is null.
   */
  function Winner(first: Scored, second: Scored): Member
  {
    if second.1 >= FITNESS_FLOOR then
      if first.1 >= second.1 then first.0 else second.0
    else if first.1 >= FITNESS_FLOOR then first.0 else None
  }

  /** The winner is the fitter of the pair, ties go to the first, and both below -1 gives null. */
  lemma WinnerRule(first: Scored, second: Scored)
    ensures first.1 < FITNESS_FLOOR && second.1 < FITNESS_FLOOR ==> Winner(first, second) == None
    ensures first.1 >= FITNESS_FLOOR && first.1 >= second.1 ==> Winner(first, second) == first.0
    ensures second.1 >= FITNESS_FLOOR && second.1 > first.1 ==> Winner(first, second) == second.0
  {
  }

  /** The selection of doSelection over shuffled pairs: the winner of every pair (2k, 2k + 1). */
  function Selection(pairs: seq<Scored>): (w: seq<Member>)
    ensures |w| == |pairs| / 2
  {
    seq(|pairs| / 2, k requires 0 <= k < |pairs| / 2 => Winner(pairs[2 * k], pairs[2 * k + 1]))
  }

  /** The child in slot k of the next generation: the crossover of its two drawn parents, mutated when its draw is at most pMutation. */
  function Offspring(selected: seq<Member>, parents: seq<(int, int)>, mutationDraws: seq<real>,
                     crossover: (Member, Member, int) -> Chromosome, mutate: (Chromosome, int) -> Chromosome, k: int): Chromosome
    requires 0 <= k < |parents| && k < |mutationDraws|
    requires 0 <= parents[k].0 < |selected| && 0 <= parents[k].1 < |selected|
  {
    var child := crossover(selected[parents[k].0], selected[parents[k].1], k);
    if mutationDraws[k] <= MUTATION_CHANCE then mutate(child, k) else child
  }

  /** The largest fitness, or -1 when every score is below it (the export value of makeNextGeneration). */
  method BestFitness(fit: seq<real>) returns (maxFit: real)
    ensures maxFit >= FITNESS_FLOOR && forall k :: 0 <= k < |fit| ==> fit[k] <= maxFit
    ensures maxFit == FITNESS_FLOOR || exists k :: 0 <= k < |fit| && fit[k] == maxFit
  {
    maxFit := FITNESS_FLOOR;
    var k := 0;
    while k < |fit|
      invariant 0 <= k <= |fit|
      invariant maxFit >= FITNESS_FLOOR && forall j :: 0 <= j < k ==> fit[j] <= maxFit
      invariant maxFit == FITNESS_FLOOR || exists j :: 0 <= j < k && fit[j] == maxFit
    {
      if fit[k] > maxFit {
        maxFit := fit[k];
      }
      k := k + 1;
    }
  }

  /** The tournament loop of doSelection over the already shuffled pairs: one winner per pair (2k, 2k + 1). */
  method Tournament(pairs: seq<Scored>) returns (winners: seq<Member>)
    ensures |winners| == |pairs| / 2
    ensures forall k :: 0 <= k < |winners| ==> winners[k] == Winner(pairs[2 * k], pairs[2 * k + 1])
  {
    winners := [];
    var i := 1;
    while i < |pairs|
      invariant 1 <= i && i % 2 == 1 && i <= |pairs| + 1
      invariant |winners| == (i - 1) / 2
      invariant forall k :: 0 <= k < |winners| ==> winners[k] == Winner(pairs[2 * k], pairs[2 * k + 1])
    {
      var bestOne: Member := None;
      var bestFitness := FITNESS_FLOOR;
      var j := i;
      while j >= i - 1
        invariant i - 2 <= j <= i
        invariant j == i ==> bestOne == None && bestFitness == FITNESS_FLOOR
        invariant j == i - 1 ==>
          if pairs[i].1 >= FITNESS_FLOOR then bestOne == pairs[i].0 && bestFitness == pairs[i].1
          else bestOne == None && bestFitness == FITNESS_FLOOR
        invariant j == i - 2 ==> bestOne == Winner(pairs[i - 1], pairs[i])
      {
        if pairs[j].1 >= bestFitness {
          bestFitness := pairs[j].1;
          bestOne := pairs[j].0;
        }
        j := j - 1;
      }
      winners := winners + [bestOne];
      i := i + 2;
    }
  }

  /**
   * The two loops of makeNextGeneration after the selection: fill a new
   * array with the crossovers of the drawn parents, then mutate in place the
   * children whose draw is at most pMutation.
   */
  method Breed(selected: array<Member>, size: int, parents: seq<(int, int)>, mutationDraws: seq<real>,
               crossover: (Member, Member, int) -> Chromosome, mutate: (Chromosome, int) -> Chromosome)
    returns (newPopulation: array<Member>)
    requires size >= 0 && |parents| == size && |mutationDraws| == size
    requires forall k :: 0 <= k < size ==> 0 <= parents[k].0 < selected.Length && 0 <= parents[k].1 < selected.Length
    ensures fresh(newPopulation) && newPopulation.Length == size
    ensures forall k :: 0 <= k < size ==>
      newPopulation[k] == Some(Offspring(selected[..], parents, mutationDraws, crossover, mutate, k))
  {
    newPopulation := new Member[size];
    var idx := 0;
    while idx < size
      modifies newPopulation
      invariant 0 <= idx <= size
      invariant forall k :: 0 <= k < idx ==>
        newPopulation[k] == Some(crossover(selected[parents[k].0], selected[parents[k].1], k))
    {
      newPopulation[idx] := Some(crossover(selected[parents[idx].0], selected[parents[idx].1], idx));
      idx := idx + 1;
    }
    idx := 0;
    while idx < size
      modifies newPopulation
      invariant 0 <= idx <= size
      invariant forall k :: 0 <= k < idx ==>
        newPopulation[k] == Some(Offspring(selected[..], parents, mutationDraws, crossover, mutate, k))
      invariant forall k :: idx <= k < size ==>
        newPopulation[k] == Some(crossover(selected[parents[k].0], selected[parents[k].1], k))
    {
      if mutationDraws[idx] <= MUTATION_CHANCE {
        newPopulation[idx] := Some(mutate(newPopulation[idx].value, idx));
      }
      idx := idx + 1;
    }
  }

  class AtkiGAPopulation {
    const populationSize: int
    var population: array<Member>
    var fitnessScores: array<real>
    var currentPopulationIndex: int
    var currentScore: real

    ghost predicate Valid()
      reads this
    {
      population.Length == populationSize && fitnessScores.Length == populationSize && currentPopulationIndex >= 0
    }

    /** The population and its scores, slot by slot. */
    ghost function Pairs(): seq<Scored>
      reads this, population, fitnessScores
      requires Valid()
    {
      Zip(population[..], fitnessScores[..])
    }

    /**
     * A new population of populationSize fresh chromosomes (given in the
     * order they are created), zero fitness scores and the cursor at 0.
     */
    constructor (size: nat, members: seq<Chromosome>)
      requires |members| == size
      ensures Valid() && populationSize == size && fresh(population) && fresh(fitnessScores)
      ensures forall k :: 0 <= k < size ==> population[k] == Some(members[k]) && fitnessScores[k] == 0.0
      ensures currentPopulationIndex == 0
    {
      populationSize := size;
      currentPopulationIndex := 0;
      population := new Member[size](k requires 0 <= k < size => Some(members[k]));
      fitnessScores := new real[size];
      new;
      var k := 0;
      while k < size
        modifies fitnessScores
        invariant 0 <= k <= size
        invariant forall j :: 0 <= j < k ==> fitnessScores[j] == 0.0
      {
        fitnessScores[k] := 0.0;
        k := k + 1;
      }
    }

    /** updateScore: the score the next evaluation records. */
    method UpdateScore(d: real)
      modifies this`currentScore
      ensures currentScore == d
    {
      currentScore := d;
    }

    /**
     * evaluateFitnessForCurrentMember: the last score goes to the cursor's
     * slot and nowhere else; a cursor at the end is out of bounds.
     */
    method EvaluateFitnessForCurrentMember() returns (ok: bool)
      requires Valid()
      modifies fitnessScores
      ensures ok <==> currentPopulationIndex < populationSize
      ensures ok ==> fitnessScores[..] == old(fitnessScores[..])[currentPopulationIndex := currentScore]
      ensures !ok ==> fitnessScores[..] == old(fitnessScores[..])
    {
      ok := currentPopulationIndex < fitnessScores.Length;
      if ok {
        fitnessScores[currentPopulationIndex] := currentScore;
      }
    }

    /** isGenerationFinished. */
    predicate IsGenerationFinished()
      reads this
    {
      currentPopulationIndex == populationSize
    }

    /**
     * getNextMember: advance the cursor, then take the member at the cursor
     * modulo the size (an empty population divides by zero, after the advance).
     */
    method GetNextMember() returns (r: Access<Member>)
      requires Valid()
      modifies this`currentPopulationIndex
      ensures Valid() && currentPopulationIndex == old(currentPopulationIndex) + 1
      ensures r.Thrown? <==> populationSize == 0
      ensures r.Value? ==> r.value == population[currentPopulationIndex % populationSize]
    {
      currentPopulationIndex := currentPopulationIndex + 1;
      if populationSize == 0 {
        return Thrown;
      }
      r := Value(population[currentPopulationIndex % populationSize]);
    }

    /** getCurrentMember: reduce the cursor modulo the size, then take that member. */
    method GetCurrentMember() returns (r: Access<Member>)
      requires Valid()
      modifies this`currentPopulationIndex
      ensures Valid()
      ensures r.Thrown? <==> populationSize == 0
      ensures r.Thrown? ==> currentPopulationIndex == old(currentPopulationIndex)
      ensures r.Value? ==>
        currentPopulationIndex == old(currentPopulationIndex) % populationSize
        && r.value == population[currentPopulationIndex]
    {
      if populationSize == 0 {
        return Thrown;
      }
      currentPopulationIndex := currentPopulationIndex % populationSize;
      r := Value(population[currentPopulationIndex]);
    }

    /** swapChromosomes: both arrays swap the two slots, so every chromosome keeps its score. */
    method SwapChromosomes(idxA: int, idxB: int)
      requires Valid() && 0 <= idxA < populationSize && 0 <= idxB < populationSize
      modifies population, fitnessScores
      ensures Valid() && Pairs() == Swap(old(Pairs()), idxA, idxB)
    {
      var t := population[idxA];
      var dt := fitnessScores[idxA];
      population[idxA] := population[idxB];
      fitnessScores[idxA] := fitnessScores[idxB];
      population[idxB] := t;
      fitnessScores[idxB] := dt;
      assert Pairs() == Swap(old(Pairs()), idxA, idxB);
    }

    /** shufflePopulation: Fisher-Yates from the last slot down, the draw for slot i in [0, i]. */
    method ShufflePopulation(draws: seq<int>)
      requires Valid() && ShuffleDraws(draws, populationSize - 1)
      modifies population, fitnessScores
      ensures Valid() && Pairs() == ShuffleFrom(old(Pairs()), draws, populationSize - 1)
    {
      ghost var target := ShuffleFrom(Pairs(), draws, populationSize - 1);
      var i := populationSize - 1;
      while i >= 1
        invariant Valid() && 0 <= populationSize - 1 - i <= |draws|
        invariant ShuffleDraws(draws[populationSize - 1 - i..], i)
        invariant target == ShuffleFrom(Pairs(), draws[populationSize - 1 - i..], i)
      {
        var rest := draws[populationSize - 1 - i..];
        assert rest[1..] == draws[populationSize - 1 - (i - 1)..];
        SwapChromosomes(i, rest[0]);
        i := i - 1;
      }
    }

    /**
     * doSelection: shuffle, then keep the tournament winner of every pair of
     * neighbouring slots. The scores stay shuffled with their chromosomes.
     */
    method DoSelection(draws: seq<int>) returns (winners: array<Member>)
      requires Valid() && ShuffleDraws(draws, populationSize - 1)
      modifies population, fitnessScores
      ensures Valid() && Pairs() == ShuffleFrom(old(Pairs()), draws, populationSize - 1)
      ensures fresh(winners) && winners.Length == populationSize / 2
      ensures forall k :: 0 <= k < winners.Length ==> winners[k] == Winner(Pairs()[2 * k], Pairs()[2 * k + 1])
    {
      ShufflePopulation(draws);
      var ret := Tournament(Zip(population[..], fitnessScores[..]));
      winners := new Member[|ret|](k requires 0 <= k < |ret| => ret[k]);
    }

    /**
     * makeNextGeneration without the export: select, then fill a new array of
     * populationSize children of two drawn parents each, then mutate the
     * children whose draw is at most pMutation; the cursor goes back to 0. With
     * one member the selection is empty and drawing a parent throws.
     */
    method MakeNextGeneration(shuffleDraws: seq<int>, parents: seq<(int, int)>, mutationDraws: seq<real>,
                              crossover: (Member, Member, int) -> Chromosome, mutate: (Chromosome, int) -> Chromosome)
      returns (r: Access<()>)
      requires Valid() && ShuffleDraws(shuffleDraws, populationSize - 1)
      requires |parents| == populationSize && |mutationDraws| == populationSize
      requires populationSize != 1 ==> forall k :: 0 <= k < populationSize ==>
        0 <= parents[k].0 < populationSize / 2 && 0 <= parents[k].1 < populationSize / 2
      modifies this, population, fitnessScores
      ensures r.Thrown? <==> populationSize == 1
      ensures fitnessScores == old(fitnessScores) && forall k :: 0 <= k < populationSize ==>
        fitnessScores[k] == ShuffleFrom(old(Zip(population[..], fitnessScores[..])), shuffleDraws, populationSize - 1)[k].1
      ensures r.Thrown? ==> population.Length == 0 && currentPopulationIndex == old(currentPopulationIndex)
      ensures r.Value? ==> Valid() && fresh(population) && currentPopulationIndex == 0
      ensures r.Value? ==> forall k :: 0 <= k < populationSize ==>
        population[k] == Some(Offspring(Selection(ShuffleFrom(old(Zip(population[..], fitnessScores[..])), shuffleDraws, populationSize - 1)),
                                        parents, mutationDraws, crossover, mutate, k))
    {
      ghost var shuffled := ShuffleFrom(Pairs(), shuffleDraws, populationSize - 1);
      var selected := DoSelection(shuffleDraws);
      assert selected[..] == Selection(shuffled);
      population := selected;
      if populationSize == 1 {
        return Thrown;
      }
      var newPopulation := Breed(selected, populationSize, parents, mutationDraws, crossover, mutate);
      population := newPopulation;
      currentPopulationIndex := 0;
      r := Value(());
    }
  }
}
