/**
  * The final verdict on a candidate map: `solved` sorts the candidate lists
  * of each unit and compares them with the nine one-digit lists "1".."9".
  * Sorting and comparing with a sorted list is equality of multisets, so a
  * unit is solved when its candidate sets are {1}, ..., {9} in some order.
  */
module Verdict {
  import opened Topology
  import opened Candidates
  import opened Solutions

  /** The candidate sets along unit u, in unit order. */
  function UnitSets(v: seq<set<Digit>>, u: seq<int>): (sets: seq<set<Digit>>)
    requires IsMap(v) && forall i :: 0 <= i < |u| ==> 0 <= u[i] < 81
    ensures |sets| == |u| && forall i :: 0 <= i < |u| ==> sets[i] == v[u[i]]
  {
    seq(|u|, i requires 0 <= i < |u| => v[u[i]])
  }

  /** The one-digit candidate lists "1", ..., "9", in order. */
  function Singletons(): (ss: seq<set<Digit>>)
    ensures |ss| == 9 && forall i :: 0 <= i < 9 ==> ss[i] == {i + 1}
  {
    seq(9, i requires 0 <= i < 9 => {i + 1})
  }

  /**
    * A unit is solved when its candidate sets are the nine singletons, in any
    * order; then it has nine squares and each holds exactly one candidate.
    */
  predicate UnitSolved(v: seq<set<Digit>>, u: seq<int>)
    requires IsMap(v) && forall i :: 0 <= i < |u| ==> 0 <= u[i] < 81
    ensures UnitSolved(v, u) ==> |u| == 9 && forall i :: 0 <= i < |u| ==> |v[u[i]]| == 1
  {
    SolvedSingletons(UnitSets(v, u));
    multiset(UnitSets(v, u)) == multiset(Singletons())
  }

  /** Sets that are a rearrangement of {1}, ..., {9} are nine one-element sets. */
  lemma SolvedSingletons(sets: seq<set<Digit>>)
    ensures multiset(sets) == multiset(Singletons()) ==>
      |sets| == 9 && forall i :: 0 <= i < |sets| ==> |sets[i]| == 1
  {
    if multiset(sets) == multiset(Singletons()) {
      assert |sets| == |multiset(sets)| == |multiset(Singletons())| == 9;
      SingletonsMembers();
      forall i | 0 <= i < |sets|
        ensures |sets[i]| == 1
      {
        assert sets[i] in multiset(Singletons());
        var x: Digit :| sets[i] == {x};
      }
    }
  }

  /** Every unit of the board is solved. */
  predicate AllUnitsSolved(v: seq<set<Digit>>)
    requires IsMap(v)
  {
    forall k :: 0 <= k < 27 ==> UnitsSolvedAt(v, k)
  }

  predicate UnitsSolvedAt(v: seq<set<Digit>>, k: int)
    requires IsMap(v) && 0 <= k < 27
  {
    UnitShape(k);
    UnitSolved(v, UnitAt(k))
  }

  /** The grid of a map whose squares are all non-empty: the least candidate of each square. */
  function Decided(v: seq<set<Digit>>): (g: seq<int>)
    requires NoEmpty(v)
    ensures |g| == 81 && forall q :: 0 <= q < 81 ==> g[q] in v[q]
    ensures AllDecided(v) ==> forall q :: 0 <= q < 81 ==> v[q] == {g[q]}
  {
    var g := seq(81, q requires 0 <= q < 81 => Least(v[q]));
    assert forall q :: 0 <= q < 81 ==> g[q] == Least(v[q]);
    forall q | 0 <= q < 81 && AllDecided(v)
      ensures v[q] == {g[q]}
    {
      Singleton(v[q], g[q]);
    }
    g
  }

  lemma SingletonsMembers()
    ensures Distinct(Singletons())
    ensures forall c :: c in Singletons() <==> exists x: Digit :: c == {x}
  {
    forall c | exists x: Digit :: c == {x}
      ensures c in Singletons()
    {
      var x: Digit :| c == {x};
      assert Singletons()[x - 1] == c;
    }
    forall i, j | 0 <= i < j < 9
      ensures Singletons()[i] != Singletons()[j]
    {
      assert i + 1 in Singletons()[i];
    }
  }

  /** Every square of a map whose units are all solved holds exactly one candidate. */
  lemma SolvedDecided(v: seq<set<Digit>>)
    requires IsMap(v) && AllUnitsSolved(v)
    ensures AllDecided(v)
  {
    forall q | 0 <= q < 81
      ensures |v[q]| == 1
    {
      var k := Col(q);
      assert UnitsSolvedAt(v, k);
      ColumnPosition(q);
      UnitShape(k);
      assert UnitAt(k)[Row(q)] == q;
    }
  }

  /**
    * For a map that has decided every square, a unit is solved exactly when
    * the decided digits along it are a permutation of 1..9.
    */
  lemma UnitSolvedIff(v: seq<set<Digit>>, k: int)
    requires AllDecided(v) && 0 <= k < 27
    ensures UnitsSolvedAt(v, k) <==> IsPermutation(UnitDigits(Decided(v), k))
  {
    UnitShape(k);
    var ds := UnitDigits(Decided(v), k);
    var sets := UnitSets(v, UnitAt(k));
    forall i | 0 <= i < 9
      ensures 1 <= ds[i] <= 9 && sets[i] == {ds[i]}
    {
      UnitSquareAt(k, i);
    }
    if UnitSolved(v, UnitAt(k)) {
      SolvedPermutation(ds, sets);
    }
    if IsPermutation(ds) {
      PermutationSolved(ds, sets);
    }
  }

  /** Singletons that are a rearrangement of {1}, ..., {9} hold a permutation of 1..9. */
  lemma SolvedPermutation(ds: seq<int>, sets: seq<set<Digit>>)
    requires |ds| == 9 && |sets| == 9
    requires forall i :: 0 <= i < 9 ==> 1 <= ds[i] <= 9 && sets[i] == {ds[i]}
    requires multiset(sets) == multiset(Singletons())
    ensures IsPermutation(ds)
  {
    SingletonsMembers();
    forall i, j | 0 <= i < j < 9
      ensures ds[i] != ds[j]
    {
      DistinctCount(Singletons(), sets[i]);
      OnceMeansDistinct(sets, i, j);
    }
    DistinctPermutation(ds);
  }

  /** The singletons of a permutation of 1..9 are a rearrangement of {1}, ..., {9}. */
  lemma PermutationSolved(ds: seq<int>, sets: seq<set<Digit>>)
    requires |ds| == 9 && |sets| == 9
    requires forall i :: 0 <= i < 9 ==> 1 <= ds[i] <= 9 && sets[i] == {ds[i]}
    requires IsPermutation(ds)
    ensures multiset(sets) == multiset(Singletons())
  {
    SingletonsMembers();
    forall i, j | 0 <= i < j < 9
      ensures sets[i] != sets[j]
    {
      PermutationDistinct(ds, i, j);
      assert ds[i] in sets[i];
    }
    forall c
      ensures c in sets <==> c in Singletons()
    {
      if c in Singletons() {
        var x: Digit :| c == {x};
        var i := PermutationPlace(ds, x);
        assert sets[i] == c;
      }
      if c in sets {
        var i :| 0 <= i < 9 && sets[i] == c;
        var x: Digit := ds[i];
        assert c == {x};
      }
    }
    SameElements(sets, Singletons());
  }

  /**
    * The verdict and the meaning of a solution agree: a map that has decided
    * every square passes the unit check exactly when its digits solve the puzzle.
    */
  lemma SolvedIff(v: seq<set<Digit>>)
    requires AllDecided(v)
    ensures AllUnitsSolved(v) <==> IsSolution(Decided(v))
  {
    forall k | 0 <= k < 27
      ensures UnitsSolvedAt(v, k) <==> IsPermutation(UnitDigits(Decided(v), k))
    {
      UnitSolvedIff(v, k);
    }
  }

  /**
    * A map that has decided every square and in which rule 1 holds everywhere
    * (no peer keeps a decided digit) passes the unit check.
    */
  lemma Rule1Solved(v: seq<set<Digit>>)
    requires AllDecided(v) && forall q :: 0 <= q < 81 ==> Rule1At(v, q)
    ensures AllUnitsSolved(v)
  {
    var g := Decided(v);
    forall k | 0 <= k < 27
      ensures UnitsSolvedAt(v, k)
    {
      UnitShape(k);
      var ds := UnitDigits(g, k);
      forall i, j | 0 <= i < j < 9
        ensures ds[i] != ds[j]
      {
        var p, q := UnitAt(k)[i], UnitAt(k)[j];
        SameUnitPeers(k, p, q);
        assert Rule1At(v, q);
        assert v[q] !! v[p];
      }
      forall i | 0 <= i < 9
        ensures 1 <= ds[i] <= 9
      {
        UnitSquareAt(k, i);
      }
      DistinctPermutation(ds);
      UnitSolvedIff(v, k);
    }
  }
}
