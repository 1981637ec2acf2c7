/**
  * Candidate maps: for each of the 81 squares, the digits still possible
  * there (the `values` dictionary of the solver), and the predicates that
  * describe how constraint propagation may change such a map.
  */
module Candidates {
  import opened Topology

  /** A digit 1..9: the only values a square's candidate list ever holds. */
  type Digit = x: int | 1 <= x <= 9 witness 1

  const AllDigits: set<Digit> := {1, 2, 3, 4, 5, 6, 7, 8, 9}

  /** A candidate map covers the 81 squares, indexed by square. */
  predicate IsMap(v: seq<set<Digit>>) {
    |v| == 81
  }

  /** The starting map of parse_grid: every digit possible everywhere. */
  function Full(): (v: seq<set<Digit>>)
    ensures IsMap(v) && forall q :: 0 <= q < 81 ==> v[q] == AllDigits
  {
    seq(81, q => AllDigits)
  }

  predicate NoEmpty(v: seq<set<Digit>>) {
    IsMap(v) && forall q :: 0 <= q < 81 ==> v[q] != {}
  }

  /** Every square is reduced to one digit. */
  predicate AllDecided(v: seq<set<Digit>>) {
    IsMap(v) && forall q :: 0 <= q < 81 ==> |v[q]| == 1
  }

  /** Total number of candidates left; it measures the work still to do. */
  function Count(v: seq<set<Digit>>): nat {
    if v == [] then 0 else Count(v[..|v| - 1]) + |v[|v| - 1]|
  }

  /** Candidates only ever disappear. */
  predicate Shrinks(v0: seq<set<Digit>>, v1: seq<set<Digit>>) {
    IsMap(v0) && IsMap(v1) && forall q :: 0 <= q < 81 ==> v1[q] <= v0[q]
  }

  /** A subset is no larger, and a proper subset is smaller. */
  lemma SubsetCard<T>(a: set<T>, b: set<T>)
    requires a <= b
    ensures |a| <= |b|
    ensures a != b ==> |a| < |b|
  {
    assert b == a + (b - a);
    if a != b {
      var x :| x in b && x !in a;
      assert x in b - a;
    }
  }

  /** Shrinking a map never raises its count, and a strict loss lowers it. */
  lemma {:induction false} CountShrinks(v0: seq<set<Digit>>, v1: seq<set<Digit>>, s: int)
    requires |v0| == |v1| && forall q :: 0 <= q < |v0| ==> v1[q] <= v0[q]
    ensures Count(v1) <= Count(v0)
    ensures 0 <= s < |v0| && v1[s] != v0[s] ==> Count(v1) < Count(v0)
    decreases |v0|
  {
    if v0 != [] {
      var n := |v0| - 1;
      CountShrinks(v0[..n], v1[..n], s);
      SubsetCard(v1[n], v0[n]);
    }
  }

  /**
    * The squares of unit `u` where x is still possible, in the order of `u`
    * (the `dplaces` of eliminate).
    */
  function Places(v: seq<set<Digit>>, u: seq<int>, x: Digit): (ps: seq<int>)
    ensures |ps| <= |u|
  {
    if u == [] then []
    else (if 0 <= u[0] < |v| && x in v[u[0]] then [u[0]] else []) + Places(v, u[1..], x)
  }

  lemma {:induction false} PlacesMembers(v: seq<set<Digit>>, u: seq<int>, x: Digit)
    ensures forall p :: p in Places(v, u, x) <==> p in u && 0 <= p < |v| && x in v[p]
  {
    if u != [] {
      PlacesMembers(v, u[1..], x);
      assert u == [u[0]] + u[1..];
    }
  }

  /** Places only disappear as the map shrinks. */
  lemma PlacesSubset(v0: seq<set<Digit>>, v1: seq<set<Digit>>, u: seq<int>, x: Digit)
    requires Shrinks(v0, v1)
    ensures forall p :: p in Places(v1, u, x) ==> p in Places(v0, u, x)
    ensures Places(v1, u, x) != [] ==> Places(v0, u, x) != []
  {
    PlacesMembers(v0, u, x);
    PlacesMembers(v1, u, x);
    if Places(v1, u, x) != [] {
      assert Places(v1, u, x)[0] in Places(v1, u, x);
    }
  }

  /** One place left stays the same place while the map shrinks. */
  lemma PlacesShrink(v0: seq<set<Digit>>, v1: seq<set<Digit>>, u: seq<int>, x: Digit)
    requires Shrinks(v0, v1) && Increasing(u)
    ensures |Places(v0, u, x)| == 1 && Places(v1, u, x) != [] ==> Places(v1, u, x) == Places(v0, u, x)
  {
    PlacesSubset(v0, v1, u, x);
    var p0, p1 := Places(v0, u, x), Places(v1, u, x);
    if |p0| == 1 && p1 != [] {
      PlacesIncreasing(v1, u, x);
      forall i | 0 <= i < |p1| ensures p1[i] == p0[0] {
        assert p1[i] in p1;
      }
      FirstTwo(p1);
      assert |p1| == 1;
    }
  }

  lemma FirstTwo(s: seq<int>)
    requires Increasing(s)
    ensures |s| > 1 ==> s[0] < s[1]
  {
  }

  lemma {:induction false} PlacesIncreasing(v: seq<set<Digit>>, u: seq<int>, x: Digit)
    requires Increasing(u)
    ensures Increasing(Places(v, u, x))
  {
    if u != [] {
      var t := u[1..];
      assert Increasing(t);
      PlacesIncreasing(v, t, x);
      PlacesMembers(v, t, x);
      var rest := Places(v, t, x);
      forall p | p in rest ensures u[0] < p {
        var j :| 0 <= j < |t| && t[j] == p;
        assert u[j + 1] == p;
      }
      var head := if 0 <= u[0] < |v| && x in v[u[0]] then [u[0]] else [];
      assert Places(v, u, x) == head + rest;
      forall i, j | 0 <= i < j < |head + rest| ensures (head + rest)[i] < (head + rest)[j] {
        if i < |head| {
          assert rest[j - |head|] in rest;
        }
      }
    }
  }

  /** Places depend only on whether x is possible at the squares of the unit. */
  lemma {:induction false} PlacesSame(v0: seq<set<Digit>>, v1: seq<set<Digit>>, u: seq<int>, x: Digit)
    requires |v0| == |v1|
    requires forall q :: q in u && 0 <= q < |v0| ==> (x in v0[q] <==> x in v1[q])
    ensures Places(v0, u, x) == Places(v1, u, x)
  {
    if u != [] {
      PlacesSame(v0, v1, u[1..], x);
    }
  }

  /**
    * Rule 1 holds at q: if q is down to one digit, no peer of q still
    * has that digit.
    */
  predicate Rule1At(v: seq<set<Digit>>, q: int)
    requires IsMap(v) && IsSquare(q)
  {
    |v[q]| == 1 ==> forall p :: p in PeersOf(q) ==> 0 <= p < 81 && v[q] !! v[p]
  }

  /**
    * Rule 2 holds for digit x in unit k: if only one square of the unit can
    * still take x, that square holds x alone.
    */
  predicate Rule2At(v: seq<set<Digit>>, k: int, x: Digit)
    requires IsMap(v) && 0 <= k < 27
  {
    var places := Places(v, UnitAt(k), x);
    |places| == 1 ==> 0 <= places[0] < 81 && v[places[0]] == {x}
  }

  /**
    * What a successful propagation guarantees between the map before (v0)
    * and after (v1): candidates only disappear; no square loses its last
    * candidate; no digit loses its last place in a unit; and rule 1 and
    * rule 2 keep holding wherever they held, so every square reduced to one
    * digit and every digit reduced to one place has been propagated.
    */
  predicate Propagated(v0: seq<set<Digit>>, v1: seq<set<Digit>>) {
    Shrinks(v0, v1)
    && (forall q :: 0 <= q < 81 ==> SquareKept(v0, v1, q))
    && (forall k, x: Digit :: 0 <= k < 27 ==> DigitKept(v0, v1, k, x))
  }

  /** Square q keeps a candidate, and rule 1 at q, if it had them. */
  predicate SquareKept(v0: seq<set<Digit>>, v1: seq<set<Digit>>, q: int)
    requires IsMap(v0) && IsMap(v1) && IsSquare(q)
  {
    (v0[q] != {} ==> v1[q] != {}) && (Rule1At(v0, q) ==> Rule1At(v1, q))
  }

  /** Digit x keeps a place in unit k, and rule 2 for x in k, if it had them. */
  predicate DigitKept(v0: seq<set<Digit>>, v1: seq<set<Digit>>, k: int, x: Digit)
    requires IsMap(v0) && IsMap(v1) && 0 <= k < 27
  {
    (Places(v0, UnitAt(k), x) != [] ==> Places(v1, UnitAt(k), x) != [])
    && (Rule2At(v0, k, x) ==> Rule2At(v1, k, x))
  }

  /**
    * What a failed propagation leaves behind: a square that had candidates
    * and has none left, or a digit that had a place in a unit and has none left.
    */
  predicate Broken(v0: seq<set<Digit>>, v1: seq<set<Digit>>)
    requires IsMap(v0) && IsMap(v1)
  {
    (exists q :: 0 <= q < 81 && v0[q] != {} && v1[q] == {})
    || (exists k, x: Digit :: 0 <= k < 27 && Places(v0, UnitAt(k), x) != [] && Places(v1, UnitAt(k), x) == [])
  }

  lemma PropagatedRefl(v: seq<set<Digit>>)
    requires IsMap(v)
    ensures Propagated(v, v)
  {
  }

  lemma PropagatedTrans(v0: seq<set<Digit>>, v1: seq<set<Digit>>, v2: seq<set<Digit>>)
    requires Propagated(v0, v1) && Propagated(v1, v2)
    ensures Propagated(v0, v2)
  {
    forall q | 0 <= q < 81 ensures SquareKept(v0, v2, q) {
      assert SquareKept(v0, v1, q) && SquareKept(v1, v2, q);
    }
    forall k, x: Digit | 0 <= k < 27 ensures DigitKept(v0, v2, k, x) {
      assert DigitKept(v0, v1, k, x) && DigitKept(v1, v2, k, x);
    }
  }

  /** A failure after some shrinking is still a failure measured from the start. */
  lemma BrokenTrans(v0: seq<set<Digit>>, v1: seq<set<Digit>>, v2: seq<set<Digit>>)
    requires Shrinks(v0, v1) && IsMap(v2) && Broken(v1, v2)
    ensures Broken(v0, v2)
  {
    if exists q :: 0 <= q < 81 && v1[q] != {} && v2[q] == {} {
      var q :| 0 <= q < 81 && v1[q] != {} && v2[q] == {};
      assert v1[q] <= v0[q];
    } else {
      var k, x: Digit :| 0 <= k < 27 && Places(v1, UnitAt(k), x) != [] && Places(v2, UnitAt(k), x) == [];
      PlacesSubset(v0, v1, UnitAt(k), x);
    }
  }

  /** Removing digit d from square s. */
  function Remove(v: seq<set<Digit>>, s: int, d: Digit): (r: seq<set<Digit>>)
    requires IsMap(v) && IsSquare(s)
    ensures IsMap(r) && r[s] == v[s] - {d}
    ensures forall q :: 0 <= q < 81 && q != s ==> r[q] == v[q]
  {
    v[s := v[s] - {d}]
  }

  /** Removing d from s disturbs nothing that does not involve both s and d. */
  lemma RemoveKeeps(v: seq<set<Digit>>, s: int, d: Digit)
    requires IsMap(v) && IsSquare(s)
    ensures Shrinks(v, Remove(v, s, d))
    ensures forall q :: 0 <= q < 81 && q != s && Rule1At(v, q) ==> Rule1At(Remove(v, s, d), q)
    ensures forall k, x: Digit :: 0 <= k < 27 && (x != d || s !in UnitAt(k)) ==>
      Places(Remove(v, s, d), UnitAt(k), x) == Places(v, UnitAt(k), x)
    ensures forall k, x: Digit :: 0 <= k < 27 && (x != d || s !in UnitAt(k)) && Rule2At(v, k, x) ==>
      Rule2At(Remove(v, s, d), k, x)
  {
    var r := Remove(v, s, d);
    forall k, x: Digit | 0 <= k < 27 && (x != d || s !in UnitAt(k))
      ensures Places(r, UnitAt(k), x) == Places(v, UnitAt(k), x)
      ensures Rule2At(v, k, x) ==> Rule2At(r, k, x)
    {
      PlacesSame(r, v, UnitAt(k), x);
      var places := Places(v, UnitAt(k), x);
      if |places| == 1 {
        PlacesMembers(v, UnitAt(k), x);
        assert places[0] in places;
      }
    }
  }

  /**
    * Eliminating d from s: the removal itself (v1), then propagation up to w
    * which leaves rule 1 holding at s, and d with a place, propagated by
    * rule 2, in every unit of s, add up to a propagation from v0 to w.
    */
  lemma RemovePropagated(v0: seq<set<Digit>>, s: int, d: Digit, w: seq<set<Digit>>)
    requires IsMap(v0) && IsSquare(s) && Remove(v0, s, d)[s] != {}
    requires Propagated(Remove(v0, s, d), w)
    requires Rule1At(w, s)
    requires forall j :: 0 <= j < 3 ==>
      Places(w, UnitAt(UnitIndex(s, j)), d) != [] && Rule2At(w, UnitIndex(s, j), d)
    ensures Propagated(v0, w)
  {
    var v1 := Remove(v0, s, d);
    RemoveKeeps(v0, s, d);
    forall q | 0 <= q < 81 ensures SquareKept(v0, w, q) {
      assert SquareKept(v1, w, q);
    }
    forall k, x: Digit | 0 <= k < 27 ensures DigitKept(v0, w, k, x) {
      assert DigitKept(v1, w, k, x);
      if x == d && s in UnitAt(k) {
        MemberOfUnit(s, k);
      }
    }
  }

  /** Once x is gone from every peer of s and s holds x alone, rule 1 holds at s. */
  lemma Rule1Closed(v: seq<set<Digit>>, s: int, x: Digit)
    requires IsMap(v) && IsSquare(s) && v[s] == {x}
    requires forall i :: 0 <= i < |PeersOf(s)| ==> 0 <= PeersOf(s)[i] < 81 && x !in v[PeersOf(s)[i]]
    ensures Rule1At(v, s)
  {
    forall p | p in PeersOf(s) ensures 0 <= p < 81 && v[s] !! v[p] {
      var i :| 0 <= i < |PeersOf(s)| && PeersOf(s)[i] == p;
    }
  }

  /**
    * After the only place p of x in unit k was given x alone, x keeps that
    * place and rule 2 holds for x in k.
    */
  lemma Rule2Settled(v0: seq<set<Digit>>, v1: seq<set<Digit>>, k: int, x: Digit, p: int)
    requires Propagated(v0, v1) && 0 <= k < 27
    requires Places(v0, UnitAt(k), x) == [p] && 0 <= p < 81 && v1[p] == {x}
    ensures Places(v1, UnitAt(k), x) != [] && Rule2At(v1, k, x)
  {
    PlacesMembers(v1, UnitAt(k), x);
    PlacesMembers(v0, UnitAt(k), x);
    assert p in Places(v0, UnitAt(k), x);
    assert p in Places(v1, UnitAt(k), x);
    UnitIncreasing(k);
    PlacesShrink(v0, v1, UnitAt(k), x);
  }

  /** The least digit of a non-empty set: the first entry of an ascending candidate list. */
  function Least(c: set<Digit>): (x: Digit)
    requires c != {}
    ensures x in c && forall y :: y in c ==> x <= y
  {
    LeastFrom(c, 1)
  }

  function LeastFrom(c: set<Digit>, n: Digit): (x: Digit)
    requires exists y :: y in c && n <= y
    ensures x in c && n <= x && forall y :: y in c && n <= y ==> x <= y
    decreases 9 - n
  {
    if n in c then n else LeastFrom(c, n + 1)
  }

  lemma Singleton(c: set<Digit>, x: Digit)
    requires |c| == 1 && x in c
    ensures c == {x}
  {
    assert |c - {x}| == 0;
  }

  /** A map reached by propagation from the full map has no empty square, and rule 1 holds at every square. */
  lemma PropagatedFromFull(v: seq<set<Digit>>)
    requires Propagated(Full(), v)
    ensures NoEmpty(v)
    ensures forall q :: 0 <= q < 81 ==> Rule1At(v, q)
  {
    assert |AllDigits| == 9;
    forall q | 0 <= q < 81
      ensures v[q] != {} && Rule1At(v, q)
    {
      assert Rule1At(Full(), q);
      assert SquareKept(Full(), v, q);
    }
  }

  /** A propagation keeps every square of a map with no empty square non-empty. */
  lemma PropagatedNoEmpty(v0: seq<set<Digit>>, v1: seq<set<Digit>>)
    requires NoEmpty(v0) && Propagated(v0, v1)
    ensures NoEmpty(v1)
  {
    forall q | 0 <= q < 81
      ensures v1[q] != {}
    {
      assert SquareKept(v0, v1, q);
    }
  }

  /** After a propagation that left s no digit other than d, s holds what it had of d. */
  lemma KeptOnly(v0: seq<set<Digit>>, v1: seq<set<Digit>>, s: int, d: Digit)
    requires Propagated(v0, v1) && IsSquare(s)
    requires forall y: Digit :: y in v1[s] ==> y == d
    ensures v1[s] == v0[s] * {d}
  {
    assert SquareKept(v0, v1, s);
  }

  /** x is gone from the first n squares of the list ps. */
  predicate Cleared(v: seq<set<Digit>>, ps: seq<int>, n: int, x: Digit)
    requires IsMap(v) && 0 <= n <= |ps| && forall i :: 0 <= i < |ps| ==> 0 <= ps[i] < 81
  {
    forall i :: 0 <= i < n ==> x !in v[ps[i]]
  }

  lemma ClearedKept(v0: seq<set<Digit>>, v1: seq<set<Digit>>, ps: seq<int>, n: int, x: Digit)
    requires Shrinks(v0, v1) && 0 <= n < |ps| && forall i :: 0 <= i < |ps| ==> 0 <= ps[i] < 81
    requires Cleared(v0, ps, n, x) && x !in v1[ps[n]]
    ensures Cleared(v1, ps, n + 1, x)
  {
  }

  /** A unit of s where d, once a candidate of s, has no place left is a failure. */
  lemma NoPlaceBroken(v0: seq<set<Digit>>, v: seq<set<Digit>>, s: int, d: Digit)
    requires IsMap(v0) && IsMap(v) && IsSquare(s) && d in v0[s]
    requires exists j :: 0 <= j < 3 && Places(v, UnitAt(UnitIndex(s, j)), d) == []
    ensures Broken(v0, v)
  {
    var j :| 0 <= j < 3 && Places(v, UnitAt(UnitIndex(s, j)), d) == [];
    var k := UnitIndex(s, j);
    MemberOfUnit(s, k);
    PlacesMembers(v0, UnitAt(k), d);
    assert s in Places(v0, UnitAt(k), d);
  }
}
