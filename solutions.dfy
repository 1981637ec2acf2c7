/**
  * Completed grids and how they relate to candidate maps: a solution holds a
  * permutation of the digits 1..9 in every unit, and it fits a map when each
  * square's digit is still among that square's candidates.
  */
module Solutions {
  import opened Topology
  import opened Candidates

  function OneToNine(): seq<int> { seq(9, i => i + 1) }

  /** The digits a grid holds along unit k, in unit order. */
  function UnitDigits(g: seq<int>, k: int): (ds: seq<int>)
    requires |g| == 81 && 0 <= k < 27
    ensures |ds| == 9
  {
    seq(9, i requires 0 <= i < 9 => UnitSquareAt(k, i); g[UnitSquare(k, i)])
  }

  /** The nine digits of a unit of a solved grid: a permutation of 1..9. */
  predicate IsPermutation(ds: seq<int>) {
    multiset(ds) == multiset(OneToNine())
  }

  /** A solved grid: every unit holds each digit 1..9 exactly once. */
  predicate IsSolution(g: seq<int>) {
    |g| == 81 && forall k :: 0 <= k < 27 ==> IsPermutation(UnitDigits(g, k))
  }

  /** Grid g is still possible under map v: each square's digit is a candidate there. */
  predicate Fits(g: seq<int>, v: seq<set<Digit>>) {
    |g| == 81 && IsMap(v) && forall q :: 0 <= q < 81 ==> FitsAt(g, v, q)
  }

  /** The digit of g at square q is a candidate of q in v. */
  predicate FitsAt(g: seq<int>, v: seq<set<Digit>>, q: int)
    requires |g| == 81 && IsMap(v) && IsSquare(q)
  {
    g[q] in v[q]
  }

  /** Every solution fits the full map. */
  lemma FitsFull(g: seq<int>)
    requires IsSolution(g)
    ensures Fits(g, Full())
  {
    forall q | 0 <= q < 81
      ensures FitsAt(g, Full(), q)
    {
      SolutionDigit(g, q);
    }
  }

  /** Removing a digit that g does not hold at s keeps g possible. */
  lemma RemoveFits(g: seq<int>, v: seq<set<Digit>>, s: int, d: Digit)
    requires Fits(g, v) && IsSquare(s) && g[s] != d
    ensures Fits(g, Remove(v, s, d))
  {
    forall q | 0 <= q < 81 ensures FitsAt(g, Remove(v, s, d), q) {
      assert FitsAt(g, v, q);
    }
  }

  /** No value occurs twice. */
  predicate Distinct<T(==)>(s: seq<T>) {
    forall i, j :: 0 <= i < j < |s| ==> s[i] != s[j]
  }

  /** A value seen at most once cannot sit at two positions. */
  lemma OnceMeansDistinct<T>(s: seq<T>, i: int, j: int)
    requires 0 <= i < j < |s| && multiset(s)[s[i]] <= 1
    ensures s[i] != s[j]
  {
    assert s == s[..j] + [s[j]] + s[j + 1..];
    assert s[i] in s[..j];
  }

  /** A sequence without repeated values counts each of its values once. */
  lemma {:induction false} DistinctCount<T>(s: seq<T>, y: T)
    requires Distinct(s)
    ensures multiset(s)[y] == if y in s then 1 else 0
  {
    if s != [] {
      var t := s[1..];
      assert s == [s[0]] + t;
      assert forall i :: 0 <= i < |t| ==> t[i] == s[i + 1];
      DistinctCount(t, y);
      if y == s[0] {
        assert y !in t;
      }
    }
  }

  /** Two sequences without repeats and with the same values are permutations of each other. */
  lemma SameElements<T>(a: seq<T>, b: seq<T>)
    requires Distinct(a) && Distinct(b)
    requires forall x :: x in a <==> x in b
    ensures multiset(a) == multiset(b)
  {
    forall x ensures multiset(a)[x] == multiset(b)[x] {
      DistinctCount(a, x);
      DistinctCount(b, x);
    }
  }

  function Elements<T(==)>(s: seq<T>): set<T> {
    set x | x in s
  }

  lemma {:induction false} DistinctCard<T>(s: seq<T>)
    requires Distinct(s)
    ensures |Elements(s)| == |s|
  {
    if s != [] {
      var t := s[1..];
      assert forall i :: 0 <= i < |t| ==> t[i] == s[i + 1];
      DistinctCard(t);
      assert Elements(s) == {s[0]} + Elements(t);
      assert s[0] !in Elements(t);
    }
  }

  lemma SubsetSameCard<T>(a: set<T>, b: set<T>)
    requires a <= b && |a| == |b|
    ensures a == b
  {
    assert b == a + (b - a);
    assert a * (b - a) == {};
    assert |b - a| == 0;
  }

  /** Nine different digits from 1..9 include every digit. */
  lemma Pigeonhole(ds: seq<int>)
    requires |ds| == 9 && Distinct(ds) && forall i :: 0 <= i < 9 ==> 1 <= ds[i] <= 9
    ensures forall x :: 1 <= x <= 9 ==> x in ds
  {
    DistinctCard(ds);
    var nine: set<int> := {1, 2, 3, 4, 5, 6, 7, 8, 9};
    assert Elements(ds) <= nine;
    assert |nine| == 9;
    SubsetSameCard(Elements(ds), nine);
  }

  /** A sequence has at most as many values as entries, and exactly as many only without repeats. */
  lemma {:induction false} ElementsCard<T>(s: seq<T>)
    ensures |Elements(s)| <= |s|
    ensures |Elements(s)| == |s| ==> Distinct(s)
  {
    if s != [] {
      var t := s[1..];
      ElementsCard(t);
      assert Elements(s) == {s[0]} + Elements(t);
      assert forall i :: 0 <= i < |t| ==> t[i] == s[i + 1];
      if |Elements(s)| == |s| {
        assert s[0] !in Elements(t);
        forall i, j | 0 <= i < j < |s|
          ensures s[i] != s[j]
        {
          if i == 0 {
            assert s[j] in Elements(t);
          } else {
            assert t[i - 1] != t[j - 1];
          }
        }
      }
    }
  }

  /** Nine values among which every digit 1..9 occurs are a permutation of 1..9. */
  lemma CoverPermutation(ds: seq<int>)
    requires |ds| == 9 && forall x :: 1 <= x <= 9 ==> x in ds
    ensures IsPermutation(ds)
  {
    var nine: set<int> := {1, 2, 3, 4, 5, 6, 7, 8, 9};
    assert |nine| == 9;
    assert nine <= Elements(ds);
    SubsetCard(nine, Elements(ds));
    ElementsCard(ds);
    SubsetSameCard(nine, Elements(ds));
    forall i | 0 <= i < 9
      ensures 1 <= ds[i] <= 9
    {
      assert ds[i] in Elements(ds);
    }
    DistinctPermutation(ds);
  }

  /** The digits 1..9, each once. */
  lemma OneToNineMembers()
    ensures Distinct(OneToNine())
    ensures forall x :: x in OneToNine() <==> 1 <= x <= 9
  {
    forall x | 1 <= x <= 9 ensures x in OneToNine() {
      assert OneToNine()[x - 1] == x;
    }
  }

  /** Nine different digits from 1..9 are a permutation of 1..9. */
  lemma DistinctPermutation(ds: seq<int>)
    requires |ds| == 9 && Distinct(ds) && forall i :: 0 <= i < 9 ==> 1 <= ds[i] <= 9
    ensures IsPermutation(ds)
  {
    Pigeonhole(ds);
    OneToNineMembers();
    SameElements(ds, OneToNine());
  }

  lemma PermutationDigit(ds: seq<int>, i: int)
    requires IsPermutation(ds) && 0 <= i < |ds|
    ensures 1 <= ds[i] <= 9
  {
    assert ds[i] in multiset(ds);
    assert ds[i] in OneToNine();
  }

  lemma PermutationPlace(ds: seq<int>, x: Digit) returns (i: int)
    requires IsPermutation(ds)
    ensures 0 <= i < |ds| && ds[i] == x
  {
    assert OneToNine()[x - 1] == x;
    assert x in multiset(ds);
    i :| 0 <= i < |ds| && ds[i] == x;
  }

  lemma PermutationDistinct(ds: seq<int>, i: int, j: int)
    requires IsPermutation(ds) && 0 <= i < j < |ds|
    ensures ds[i] != ds[j]
  {
    OneToNineMembers();
    DistinctCount(OneToNine(), ds[i]);
    OnceMeansDistinct(ds, i, j);
  }

  /** A square sits in its column unit at the position of its row. */
  lemma ColumnPosition(q: int)
    requires IsSquare(q)
    ensures UnitSquare(Col(q), Row(q)) == q
  {
    UnitSquareAt(Col(q), Row(q));
    SameSquare(UnitSquare(Col(q), Row(q)), q);
  }

  /** Every entry of a solution is a digit. */
  lemma SolutionDigit(g: seq<int>, q: int)
    requires IsSolution(g) && IsSquare(q)
    ensures 1 <= g[q] <= 9
  {
    ColumnPosition(q);
    var ds := UnitDigits(g, Col(q));
    assert ds[Row(q)] == g[q];
    PermutationDigit(ds, Row(q));
  }

  /** Every digit has a place in every unit of a solution. */
  lemma SolutionPlace(g: seq<int>, k: int, x: Digit) returns (i: int)
    requires IsSolution(g) && 0 <= k < 27
    ensures 0 <= i < 9 && IsSquare(UnitSquare(k, i)) && g[UnitSquare(k, i)] == x
  {
    i := PermutationPlace(UnitDigits(g, k), x);
    UnitSquareAt(k, i);
  }

  /** No digit appears twice in a unit of a solution. */
  lemma SolutionDistinct(g: seq<int>, k: int, i: int, j: int)
    requires IsSolution(g) && 0 <= k < 27 && 0 <= i < 9 && 0 <= j < 9 && i != j
    ensures IsSquare(UnitSquare(k, i)) && IsSquare(UnitSquare(k, j))
    ensures g[UnitSquare(k, i)] != g[UnitSquare(k, j)]
  {
    var ds := UnitDigits(g, k);
    UnitSquareAt(k, i);
    UnitSquareAt(k, j);
    if i < j {
      PermutationDistinct(ds, i, j);
    } else {
      PermutationDistinct(ds, j, i);
    }
  }

  /**
    * Two different squares that share a row, a column or a box (the same band
    * of three rows and the same stack of three columns) hold different digits
    * in a solution.
    */
  lemma SolutionApart(g: seq<int>, q: int, p: int)
    requires IsSolution(g) && IsSquare(q) && IsSquare(p) && q != p
    requires Row(q) == Row(p) || Col(q) == Col(p) || (Row(q) / 3 == Row(p) / 3 && Col(q) / 3 == Col(p) / 3)
    ensures g[q] != g[p]
  {
    var k, i, j := SharedUnit(q, p);
    SolutionDistinct(g, k, i, j);
  }

  /** Every digit sits on one of the nine squares of each row of a solution. */
  lemma RowHas(g: seq<int>, r: int, x: Digit)
    requires IsSolution(g) && 0 <= r < 9
    ensures var t := 9 * r;
      g[t] == x || g[t + 1] == x || g[t + 2] == x || g[t + 3] == x || g[t + 4] == x
      || g[t + 5] == x || g[t + 6] == x || g[t + 7] == x || g[t + 8] == x
  {
    var i := SolutionPlace(g, 9 + r, x);
    assert i == 0 || i == 1 || i == 2 || i == 3 || i == 4 || i == 5 || i == 6 || i == 7 || i == 8;
  }

  /** Every digit sits on one of the nine squares of each column of a solution. */
  lemma ColumnHas(g: seq<int>, c: int, x: Digit)
    requires IsSolution(g) && 0 <= c < 9
    ensures g[c] == x || g[c + 9] == x || g[c + 18] == x || g[c + 27] == x || g[c + 36] == x
      || g[c + 45] == x || g[c + 54] == x || g[c + 63] == x || g[c + 72] == x
  {
    var i := SolutionPlace(g, c, x);
    assert i == 0 || i == 1 || i == 2 || i == 3 || i == 4 || i == 5 || i == 6 || i == 7 || i == 8;
  }

  /** Every digit sits on one of the nine squares of each box of a solution. */
  lemma BoxHas(g: seq<int>, b: int, x: Digit)
    requires IsSolution(g) && 0 <= b < 9
    ensures var t := 27 * (b / 3) + 3 * (b % 3);
      g[t] == x || g[t + 1] == x || g[t + 2] == x || g[t + 9] == x || g[t + 10] == x
      || g[t + 11] == x || g[t + 18] == x || g[t + 19] == x || g[t + 20] == x
  {
    var i := SolutionPlace(g, 18 + b, x);
    assert i == 0 || i == 1 || i == 2 || i == 3 || i == 4 || i == 5 || i == 6 || i == 7 || i == 8;
  }

  /** Peers hold different digits in a solution. */
  lemma SolutionPeers(g: seq<int>, s: int, p: int)
    requires IsSolution(g) && IsSquare(s) && p in PeersOf(s)
    ensures IsSquare(p) && g[p] != g[s]
  {
    var j := PeerUnit(s, p);
    var k := UnitIndex(s, j);
    PeersMembers(s);
    UnitShape(k);
    var a := UnitPosition(k, p);
    var b := UnitPosition(k, s);
    SolutionDistinct(g, k, a, b);
  }

  /**
    * A solution that fits v gives x a place in every unit; when v leaves x a
    * single place there, the solution puts x in it.
    */
  lemma SolutionPlaces(g: seq<int>, v: seq<set<Digit>>, k: int, x: Digit)
    requires IsSolution(g) && Fits(g, v) && 0 <= k < 27
    ensures Places(v, UnitAt(k), x) != []
    ensures |Places(v, UnitAt(k), x)| == 1 ==>
      IsSquare(Places(v, UnitAt(k), x)[0]) && g[Places(v, UnitAt(k), x)[0]] == x
  {
    var i := SolutionPlace(g, k, x);
    var q := UnitSquare(k, i);
    assert UnitAt(k)[i] == q;
    PlacesMembers(v, UnitAt(k), x);
    assert FitsAt(g, v, q);
    assert q in Places(v, UnitAt(k), x);
  }
}
