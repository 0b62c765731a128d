/** The population operations of the base optimizer class that only read:
    the list of fitnesses, `sorted(population, key=fitness)`, the average and
    its relation to the first and last members. */
module Population {
  import opened PySeq
  import opened Rockets

  /** The fitness of each member, in population order. */
  function Fitnesses(pop: seq<Rocket>): (f: seq<int>)
    reads pop
    ensures |f| == |pop|
    ensures forall i :: 0 <= i < |pop| ==> f[i] == pop[i].fitness
  {
    if pop == [] then [] else Fitnesses(pop[..|pop| - 1]) + [pop[|pop| - 1].fitness]
  }

  /** Ascending by fitness: lower index, lower fitness. */
  predicate SortedByFitness(pop: seq<Rocket>)
    reads pop
  {
    forall i, j :: 0 <= i < j < |pop| ==> pop[i].fitness <= pop[j].fitness
  }

  /** The set of rockets in pop. */
  function Members(pop: seq<Rocket>): set<Rocket>
  {
    set r | r in pop
  }

  /** No rocket occurs twice. */
  predicate Distinct(pop: seq<Rocket>)
  {
    forall i, j :: 0 <= i < j < |pop| ==> pop[i] != pop[j]
  }

  /** Inserts r behind every element of t, scanning from the back, until one
      with fitness at most r's is found; equal fitnesses keep their order. */
  function Insert(t: seq<Rocket>, r: Rocket): (u: seq<Rocket>)
    reads t, r
    ensures multiset(u) == multiset(t) + multiset{r}
  {
    if t == [] || t[|t| - 1].fitness <= r.fitness then t + [r]
    else
      assert t == t[..|t| - 1] + [t[|t| - 1]];
      var u' := Insert(t[..|t| - 1], r);
      assert forall i :: 0 <= i < |u'| ==> u'[i] in t[..|t| - 1] || u'[i] == r by {
        forall i | 0 <= i < |u'| ensures u'[i] in t[..|t| - 1] || u'[i] == r {
          assert u'[i] in multiset(u');
        }
      }
      u' + [t[|t| - 1]]
  }

  /** `sorted(pop, key=fitness)`: a stable insertion sort. */
  function SortByFitness(pop: seq<Rocket>): (s: seq<Rocket>)
    reads pop
    ensures multiset(s) == multiset(pop)
  {
    if pop == [] then []
    else
      var s' := SortByFitness(pop[..|pop| - 1]);
      assert forall i :: 0 <= i < |s'| ==> s'[i] in pop by {
        forall i | 0 <= i < |s'| ensures s'[i] in pop {
          assert s'[i] in multiset(s');
          assert s'[i] in pop[..|pop| - 1];
        }
      }
      assert pop[|pop| - 1] in pop;
      assert pop == pop[..|pop| - 1] + [pop[|pop| - 1]];
      Insert(s', pop[|pop| - 1])
  }

  /** Every member of Insert(t, r) is r or a member of t. */
  lemma InsertMembers(t: seq<Rocket>, r: Rocket)
    ensures forall i :: 0 <= i < |Insert(t, r)| ==> Insert(t, r)[i] == r || Insert(t, r)[i] in t
  {
    var u := Insert(t, r);
    forall i | 0 <= i < |u| ensures u[i] == r || u[i] in t {
      assert u[i] in multiset(u);
    }
  }

  lemma {:induction false} InsertSorted(t: seq<Rocket>, r: Rocket)
    requires SortedByFitness(t)
    ensures SortedByFitness(Insert(t, r))
  {
    if t != [] && t[|t| - 1].fitness > r.fitness {
      var t', last := t[..|t| - 1], t[|t| - 1];
      var u' := Insert(t', r);
      InsertSorted(t', r);
      InsertMembers(t', r);
      forall x | x in t' ensures x.fitness <= last.fitness {
        var k :| 0 <= k < |t'| && t'[k] == x;
        assert t[k] == x;
      }
      assert forall i :: 0 <= i < |u'| ==> u'[i].fitness <= last.fitness;
    }
  }

  lemma {:induction false} SortSorted(pop: seq<Rocket>)
    ensures SortedByFitness(SortByFitness(pop))
  {
    if pop != [] {
      SortSorted(pop[..|pop| - 1]);
      InsertSorted(SortByFitness(pop[..|pop| - 1]), pop[|pop| - 1]);
    }
  }

  /** Two lists with the same multiset of rockets have the same length and
      the same members. */
  lemma PermutationMembers(a: seq<Rocket>, b: seq<Rocket>)
    requires multiset(a) == multiset(b)
    ensures |a| == |b| && Members(a) == Members(b)
    ensures forall i :: 0 <= i < |b| ==> b[i] in a
  {
    assert |a| == |multiset(a)| == |multiset(b)| == |b|;
    forall r ensures r in Members(a) <==> r in Members(b) {
      assert r in a <==> r in multiset(a);
      assert r in b <==> r in multiset(b);
    }
    forall i | 0 <= i < |b| ensures b[i] in a {
      assert b[i] in multiset(b);
    }
  }

  /** The members of pop with fitness f, in their order in pop. */
  function WithFitness(pop: seq<Rocket>, f: int): seq<Rocket>
    reads pop
  {
    if pop == [] then []
    else WithFitness(pop[..|pop| - 1], f) +
         (if pop[|pop| - 1].fitness == f then [pop[|pop| - 1]] else [])
  }

  lemma {:induction false} WithFitnessAppend(a: seq<Rocket>, b: seq<Rocket>, f: int)
    ensures WithFitness(a + b, f) == WithFitness(a, f) + WithFitness(b, f)
  {
    if b == [] {
      assert a + b == a;
    } else {
      WithFitnessAppend(a, b[..|b| - 1], f);
      assert (a + b)[..|a + b| - 1] == a + b[..|b| - 1];
    }
  }

  /** Insertion puts r among the rockets of its own fitness at the end. */
  lemma {:induction false} InsertStable(t: seq<Rocket>, r: Rocket, f: int)
    ensures WithFitness(Insert(t, r), f) == WithFitness(t, f) + WithFitness([r], f)
  {
    if t == [] || t[|t| - 1].fitness <= r.fitness {
      WithFitnessAppend(t, [r], f);
    } else {
      var t', last := t[..|t| - 1], t[|t| - 1];
      InsertStable(t', r, f);
      WithFitnessAppend(Insert(t', r), [last], f);
      WithFitnessAppend(t', [last], f);
      assert t == t' + [last];
      assert [r][..0] == [] && [last][..0] == [];
    }
  }

  /** The sort is stable: for every fitness value, the rockets with that
      fitness appear in the same order before and after sorting. */
  lemma {:induction false} SortStable(pop: seq<Rocket>, f: int)
    ensures WithFitness(SortByFitness(pop), f) == WithFitness(pop, f)
  {
    if pop != [] {
      var p', last := pop[..|pop| - 1], pop[|pop| - 1];
      SortStable(p', f);
      InsertStable(SortByFitness(p'), last, f);
      WithFitnessAppend(p', [last], f);
      assert pop == p' + [last];
      assert [last][..0] == [];
    }
  }

  /** Appending a rocket that is not yet a member keeps the list free of
      repeats and adds exactly that rocket to its members. */
  lemma DistinctAppend(s: seq<Rocket>, x: Rocket)
    requires Distinct(s) && x !in Members(s)
    ensures Distinct(s + [x]) && Members(s + [x]) == Members(s) + {x}
  {
  }

  /** A permutation of a list without repeats has no repeats. */
  lemma PermutationDistinct(a: seq<Rocket>, b: seq<Rocket>)
    requires multiset(a) == multiset(b) && Distinct(a)
    ensures Distinct(b)
  {
    forall x ensures multiset(a)[x] <= 1 { DistinctCount(a, x); }
    forall i, j | 0 <= i < j < |b| ensures b[i] != b[j] {
      if b[i] == b[j] { RepeatCount(b, i, j); }
    }
  }

  lemma {:induction false} DistinctCount(a: seq<Rocket>, x: Rocket)
    requires Distinct(a)
    ensures multiset(a)[x] <= 1
  {
    if a != [] {
      var a', last := a[..|a| - 1], a[|a| - 1];
      assert a == a' + [last];
      DistinctCount(a', x);
      if last == x { assert x !in a'; }
    }
  }

  lemma RepeatCount(b: seq<Rocket>, i: int, j: int)
    requires 0 <= i < j < |b| && b[i] == b[j]
    ensures multiset(b)[b[i]] >= 2
  {
    assert b == b[..j] + [b[j]] + b[j + 1..];
    assert b[i] in b[..j];
  }

  /** The average fitness: the sum divided by the count, as an exact
      rational. */
  function Mean(s: seq<int>): real
    requires s != []
  {
    (Sum(s) as real) / (|s| as real)
  }

  /** The mean of values in [lo, hi] lies in [lo, hi]. */
  lemma MeanBetween(s: seq<int>, lo: int, hi: int)
    requires s != []
    requires forall i :: 0 <= i < |s| ==> lo <= s[i] <= hi
    ensures lo as real <= Mean(s) <= hi as real
  {
    SumBounds(s, lo, hi);
    QuotientBetween(Sum(s), |s|, lo, hi);
  }

  lemma QuotientBetween(total: int, n: int, lo: int, hi: int)
    requires n > 0 && n * lo <= total <= n * hi
    ensures lo as real <= (total as real) / (n as real) <= hi as real
  {
    var q := (total as real) / (n as real);
    var d, e := total - n * lo, n * hi - total;
    assert (d as real) / (n as real) >= 0.0;
    assert (e as real) / (n as real) >= 0.0;
    assert q - lo as real == (d as real) / (n as real);
    assert hi as real - q == (e as real) / (n as real);
  }

  /** In a sorted population the first member's fitness is at most the
      average and the last member's at least the average. */
  lemma SortedMean(pop: seq<Rocket>)
    requires pop != [] && SortedByFitness(pop)
    ensures pop[0].fitness as real <= Mean(Fitnesses(pop)) <= pop[|pop| - 1].fitness as real
  {
    MeanBetween(Fitnesses(pop), pop[0].fitness, pop[|pop| - 1].fitness);
  }
}
