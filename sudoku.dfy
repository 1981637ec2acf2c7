/**
  * The solver: the board tables built once by the constructor, constraint
  * propagation (assign and eliminate, working in place on a candidate map),
  * depth-first search, and the entry points solve and display.
  */
module Solver {
  import opened Topology
  import opened Candidates
  import opened Solutions
  import opened Grid
  import opened Verdict

  /**
    * The branching square of search among squares 0..n-1: of the squares
    * with more than one candidate, one with the fewest, ties going to the
    * square whose name comes first; -1 when there is none.
    */
  function Fewest(v: seq<set<Digit>>, n: int): (s: int)
    requires IsMap(v) && 0 <= n <= 81
    ensures s == -1 <==> forall q :: 0 <= q < n ==> |v[q]| <= 1
    ensures s != -1 ==> 0 <= s < n && |v[s]| > 1
    ensures s != -1 ==> forall q :: 0 <= q < n && |v[q]| > 1 ==> FirstOf(v, s, q)
  {
    if n == 0 then -1
    else
      var s := Fewest(v, n - 1);
      if |v[n - 1]| <= 1 then s
      else if s == -1 || |v[n - 1]| < |v[s]| then n - 1
      else
        SquareNameOrder(s, n - 1);
        s
  }

  /** (number of candidates, name) of square s is at most that of square q. */
  predicate FirstOf(v: seq<set<Digit>>, s: int, q: int)
    requires IsMap(v) && IsSquare(s) && IsSquare(q)
  {
    |v[s]| < |v[q]| || (|v[s]| == |v[q]| && (s == q || NameBefore(SquareName(s), SquareName(q))))
  }

  /** Grid g keeps every clue of the puzzle cells. */
  predicate Agrees(g: seq<int>, cells: string) {
    |g| == 81 && |cells| == 81
    && forall q :: 0 <= q < 81 && IsClue(cells[q]) ==> g[q] == ClueDigit(cells[q])
  }

  /** Every clue square of the cells holds its digit alone. */
  predicate CluesPlaced(v: seq<set<Digit>>, cells: string, n: int)
    requires IsMap(v) && |cells| == 81 && 0 <= n <= 81
  {
    forall q :: 0 <= q < n && IsClue(cells[q]) ==> v[q] == {ClueDigit(cells[q])}
  }

  /** The answer of solve: the first (and only) candidate of each square, in square order. */
  function Render(v: seq<set<Digit>>): (out: string)
    requires NoEmpty(v)
    ensures |out| == 81 && forall q :: 0 <= q < 81 ==> IsClue(out[q])
    ensures Digits(out) == Decided(v)
  {
    seq(81, q requires 0 <= q < 81 => DigitChar(Least(v[q])))
  }

  class Sudoku {
    /** Column and row labels, as positions 0..8 (the labels "123456789" and "ABCDEFGHI"). */
    const cols: seq<int>
    const rows: seq<int>
    /** The 81 squares in row-major order. */
    const squares: seq<int>
    /** The 27 units: nine columns, nine rows, nine boxes. */
    const unitlist: seq<seq<int>>
    /** units[s]: the three units that contain s. */
    const units: seq<seq<seq<int>>>
    /** peers[s]: the twenty other squares of the units of s, in ascending order. */
    const peers: seq<seq<int>>

    /** The tables hold what the board topology defines. */
    predicate Valid() {
      IsLabels(cols) && IsLabels(rows)
      && |squares| == 81 && (forall i :: 0 <= i < 81 ==> squares[i] == i)
      && IsUnitList(unitlist)
      && |units| == 81 && |peers| == 81
      && forall s :: 0 <= s < 81 ==> TablesAt(s)
    }

    /** units[s] and peers[s] hold the units and the peers of square s. */
    predicate TablesAt(s: int)
      requires |units| == 81 && |peers| == 81 && IsSquare(s)
    {
      units[s] == UnitsOf(s) && peers[s] == PeersOf(s)
    }

    constructor ()
      ensures Valid()
    {
      var c := Positions();
      var r := Positions();
      var sq := Cross(r, c);
      SquaresCross(r, c);
      var ul := UnitList(r, c);
      var us := UnitsTable(ul, sq);
      var ps := PeersTable(us, sq);
      cols, rows, squares, unitlist, units, peers := c, r, sq, ul, us, ps;
    }

    /** The unit list: the nine columns, then the nine rows, then the nine boxes. */
    static method UnitList(r: seq<int>, c: seq<int>) returns (ul: seq<seq<int>>)
      requires IsLabels(r) && IsLabels(c)
      ensures IsUnitList(ul)
    {
      ul := [];
      // columns
      var i := 0;
      while i < 9
        invariant 0 <= i <= 9 && |ul| == i
        invariant forall k :: 0 <= k < i ==> ul[k] == UnitAt(k)
      {
        ColumnCross(r, c, i);
        AppendUnit(ul, Cross(r, [c[i]]));
        ul := ul + [Cross(r, [c[i]])];
        i := i + 1;
      }
      // rows
      i := 0;
      while i < 9
        invariant 0 <= i <= 9 && |ul| == 9 + i
        invariant forall k :: 0 <= k < 9 + i ==> ul[k] == UnitAt(k)
      {
        RowCross(r, c, i);
        AppendUnit(ul, Cross([r[i]], c));
        ul := ul + [Cross([r[i]], c)];
        i := i + 1;
      }
      // boxes
      var br := 0;
      while br < 3
        invariant 0 <= br <= 3 && |ul| == 18 + 3 * br
        invariant forall k :: 0 <= k < 18 + 3 * br ==> ul[k] == UnitAt(k)
      {
        var bc := 0;
        while bc < 3
          invariant 0 <= bc <= 3 && |ul| == 18 + 3 * br + bc
          invariant forall k :: 0 <= k < 18 + 3 * br + bc ==> ul[k] == UnitAt(k)
        {
          BoxCross(r, c, br, bc);
          AppendUnit(ul, Cross(r[3 * br..3 * br + 3], c[3 * bc..3 * bc + 3]));
          ul := ul + [Cross(r[3 * br..3 * br + 3], c[3 * bc..3 * bc + 3])];
          bc := bc + 1;
        }
        br := br + 1;
      }
    }

    /** For each square, the units of the unit list that contain it. */
    static method UnitsTable(ul: seq<seq<int>>, sq: seq<int>) returns (us: seq<seq<seq<int>>>)
      requires IsUnitList(ul) && |sq| == 81 && forall i :: 0 <= i < 81 ==> sq[i] == i
      ensures |us| == 81 && forall q :: 0 <= q < 81 ==> us[q] == UnitsOf(q)
    {
      us := [];
      var s := 0;
      while s < 81
        invariant 0 <= s <= 81 && |us| == s
        invariant forall q :: 0 <= q < s ==> us[q] == UnitsOf(q)
      {
        UnitsContaining(ul, s);
        AppendUnits(us, Containing(ul, sq[s], 27));
        us := us + [Containing(ul, sq[s], 27)];
        s := s + 1;
      }
    }

    /** For each square, the squares of its units other than itself, sorted and without duplicates. */
    static method PeersTable(us: seq<seq<seq<int>>>, sq: seq<int>) returns (ps: seq<seq<int>>)
      requires |us| == 81 && forall q :: 0 <= q < 81 ==> us[q] == UnitsOf(q)
      requires |sq| == 81 && forall i :: 0 <= i < 81 ==> sq[i] == i
      ensures |ps| == 81 && forall q :: 0 <= q < 81 ==> ps[q] == PeersOf(q)
    {
      ps := [];
      var s := 0;
      while s < 81
        invariant 0 <= s <= 81 && |ps| == s
        invariant forall q :: 0 <= q < s ==> ps[q] == PeerTable()[q]
      {
        assert SortedWithout(Concat(us[s]), sq[s], 0, 81) == PeerTable()[s];
        AppendEntry(ps, SortedWithout(Concat(us[s]), sq[s], 0, 81), PeerTable());
        ps := ps + [SortedWithout(Concat(us[s]), sq[s], 0, 81)];
        s := s + 1;
      }
    }

    /** The nine labels of a row or a column, by position. */
    static method Positions() returns (labels: seq<int>)
      ensures IsLabels(labels)
    {
      labels := [];
      var i := 0;
      while i < 9
        invariant 0 <= i <= 9 && |labels| == i
        invariant forall j :: 0 <= j < i ==> labels[j] == j
      {
        labels := labels + [i];
        i := i + 1;
      }
    }

    /**
      * Removes d from the candidates of s and propagates: a square left with
      * one digit loses it from its peers (rule 1), and a digit left with one
      * place in a unit of s is assigned there (rule 2). Returns false on a
      * contradiction.
      */
    method Eliminate(values: array<set<Digit>>, s: int, d: Digit) returns (ok: bool)
      requires Valid() && values.Length == 81 && IsSquare(s)
      modifies values
      ensures Shrinks(old(values[..]), values[..])
      ensures d !in values[s]
      ensures d !in old(values[s]) ==> ok && values[..] == old(values[..])
      ensures ok ==> Propagated(old(values[..]), values[..])
      ensures !ok ==> Broken(old(values[..]), values[..])
      ensures forall g {:trigger Fits(g, old(values[..]))} :: IsSolution(g) && Fits(g, old(values[..])) && g[s] != d ==> ok && Fits(g, values[..])
      decreases Count(values[..]), 0
    {
      if d !in values[s] {
        PropagatedRefl(values[..]);
        return true;
      }
      ghost var v0 := values[..];
      values[s] := values[s] - {d};
      ghost var v1 := values[..];
      assert v1 == Remove(v0, s, d);
      RemoveKeeps(v0, s, d);
      forall g | IsSolution(g) && Fits(g, v0) && g[s] != d
        ensures Fits(g, v1) && g[s] in v1[s]
      {
        RemoveFits(g, v0, s, d);
        assert FitsAt(g, v1, s);
      }
      if values[s] == {} {
        assert d in v0[s] && v1[s] == {};
        return false;
      }
      CountShrinks(v0, v1, s);
      // rule 1
      if |values[s]| == 1 {
        var x := Least(values[s]);
        Singleton(values[s], x);
        ok := EliminateFromPeers(values, s, x);
        if !ok {
          BrokenTrans(v0, v1, values[..]);
          return;
        }
      } else {
        assert Rule1At(v1, s);
        PropagatedRefl(v1);
      }
      ghost var v2 := values[..];
      assert Rule1At(v2, s);
      CountShrinks(v0, v2, s);
      // rule 2
      ok := PlaceInUnits(values, s, d);
      if !ok {
        if Broken(v2, values[..]) {
          BrokenTrans(v0, v2, values[..]);
        } else {
          NoPlaceBroken(v0, values[..], s, d);
        }
        return;
      }
      PropagatedTrans(v1, v2, values[..]);
      assert SquareKept(v2, values[..], s);
      RemovePropagated(v0, s, d, values[..]);
    }

    /**
      * Rule 1: s is down to the single digit x, so x is eliminated from every
      * peer of s in turn, stopping at the first contradiction.
      */
    method EliminateFromPeers(values: array<set<Digit>>, s: int, x: Digit) returns (ok: bool)
      requires Valid() && values.Length == 81 && IsSquare(s) && values[s] == {x}
      modifies values
      ensures Shrinks(old(values[..]), values[..])
      ensures ok ==> Propagated(old(values[..]), values[..]) && Rule1At(values[..], s)
      ensures !ok ==> Broken(old(values[..]), values[..])
      ensures forall g {:trigger Fits(g, old(values[..]))} :: IsSolution(g) && Fits(g, old(values[..])) ==> ok && Fits(g, values[..])
      decreases Count(values[..]), 2
    {
      ghost var v0 := values[..];
      PeersListed(s);
      PropagatedRefl(v0);
      assert TablesAt(s);
      var ps := peers[s];
      var i := 0;
      while i < |ps|
        invariant 0 <= i <= |ps| && ps == PeersOf(s)
        invariant Propagated(v0, values[..])
        invariant values[s] == {x}
        invariant Cleared(values[..], ps, i, x)
        invariant forall g {:trigger Fits(g, v0)} :: IsSolution(g) && Fits(g, v0) ==> Fits(g, values[..])
      {
        ghost var prev := values[..];
        var p := ps[i];
        forall g | IsSolution(g) && Fits(g, prev)
          ensures g[p] != x
        {
          assert FitsAt(g, prev, s);
          SolutionPeers(g, s, p);
        }
        CountShrinks(v0, prev, s);
        ok := Eliminate(values, p, x);
        if !ok {
          BrokenTrans(v0, prev, values[..]);
          return;
        }
        PropagatedTrans(v0, prev, values[..]);
        assert SquareKept(prev, values[..], s);
        ClearedKept(prev, values[..], ps, i, x);
        i := i + 1;
      }
      Rule1Closed(values[..], s, x);
      return true;
    }

    /**
      * Rule 2, after d left s: in each unit of s, d must keep a place, and a
      * single place left is assigned d. Returns false on a contradiction.
      */
    method PlaceInUnits(values: array<set<Digit>>, s: int, d: Digit) returns (ok: bool)
      requires Valid() && values.Length == 81 && IsSquare(s)
      modifies values
      ensures Shrinks(old(values[..]), values[..])
      ensures ok ==> Propagated(old(values[..]), values[..])
      ensures ok ==> forall j :: 0 <= j < 3 ==>
        Places(values[..], UnitAt(UnitIndex(s, j)), d) != [] && Rule2At(values[..], UnitIndex(s, j), d)
      ensures !ok ==> (Broken(old(values[..]), values[..])
        || exists j :: 0 <= j < 3 && Places(values[..], UnitAt(UnitIndex(s, j)), d) == [])
      ensures forall g {:trigger Fits(g, old(values[..]))} :: IsSolution(g) && Fits(g, old(values[..])) ==> ok && Fits(g, values[..])
      decreases Count(values[..]), 2
    {
      ghost var v0 := values[..];
      PropagatedRefl(v0);
      assert TablesAt(s);
      var j := 0;
      while j < 3
        invariant 0 <= j <= 3
        invariant Propagated(v0, values[..])
        invariant forall i :: 0 <= i < j ==>
          Places(values[..], UnitAt(UnitIndex(s, i)), d) != [] && Rule2At(values[..], UnitIndex(s, i), d)
        invariant forall g {:trigger Fits(g, v0)} :: IsSolution(g) && Fits(g, v0) ==> Fits(g, values[..])
      {
        ghost var prev := values[..];
        var u := units[s][j];
        assert u == UnitAt(UnitIndex(s, j));
        var dplaces := Places(values[..], u, d);
        forall g | IsSolution(g) && Fits(g, prev)
          ensures dplaces != [] && (|dplaces| == 1 ==> IsSquare(dplaces[0]) && g[dplaces[0]] == d)
        {
          SolutionPlaces(g, prev, UnitIndex(s, j), d);
        }
        if dplaces == [] {
          return false;
        }
        if |dplaces| == 1 {
          var p := dplaces[0];
          PlacesMembers(prev, u, d);
          assert p in dplaces;
          CountShrinks(v0, prev, s);
          ok := Assign(values, p, d);
          if !ok {
            BrokenTrans(v0, prev, values[..]);
            return;
          }
          Rule2Settled(prev, values[..], UnitIndex(s, j), d, p);
          PropagatedTrans(v0, prev, values[..]);
          forall i | 0 <= i < j
            ensures Places(values[..], UnitAt(UnitIndex(s, i)), d) != [] && Rule2At(values[..], UnitIndex(s, i), d)
          {
            assert DigitKept(prev, values[..], UnitIndex(s, i), d);
          }
        }
        j := j + 1;
      }
      return true;
    }

    /**
      * Keeps only d among the candidates of s by eliminating every other
      * digit, in ascending order, stopping at the first contradiction.
      */
    method Assign(values: array<set<Digit>>, s: int, d: Digit) returns (ok: bool)
      requires Valid() && values.Length == 81 && IsSquare(s)
      modifies values
      ensures Shrinks(old(values[..]), values[..])
      ensures ok ==> values[s] == old(values[s]) * {d}
      ensures ok ==> Propagated(old(values[..]), values[..])
      ensures !ok ==> Broken(old(values[..]), values[..])
      ensures forall g {:trigger Fits(g, old(values[..]))} :: IsSolution(g) && Fits(g, old(values[..])) && g[s] == d ==> ok && Fits(g, values[..])
      decreases Count(values[..]), 1
    {
      ghost var v0 := values[..];
      var others := values[s] - {d};
      PropagatedRefl(v0);
      ok := true;
      var e := 1;
      while e <= 9
        invariant 1 <= e <= 10
        invariant Propagated(v0, values[..])
        invariant forall y: Digit :: y in values[s] && y < e ==> y == d
        invariant forall g {:trigger Fits(g, v0)} :: IsSolution(g) && Fits(g, v0) && g[s] == d ==> Fits(g, values[..])
      {
        if e in others {
          ghost var prev := values[..];
          CountShrinks(v0, prev, s);
          ok := Eliminate(values, s, e);
          if !ok {
            BrokenTrans(v0, prev, values[..]);
            return;
          }
          PropagatedTrans(v0, prev, values[..]);
        }
        e := e + 1;
      }
      KeptOnly(v0, values[..], s, d);
    }

    /**
      * solved: for every unit of the unit list, the candidate lists of its
      * squares, sorted, are exactly the one-digit lists "1", ..., "9".
      */
    function Solved(values: seq<set<Digit>>): (b: bool)
      reads this
      requires Valid() && IsMap(values)
      ensures b <==> AllUnitsSolved(values)
      ensures b ==> AllDecided(values) && IsSolution(Decided(values))
      ensures AllDecided(values) && IsSolution(Decided(values)) ==> b
    {
      var b := forall k :: 0 <= k < 27 ==> UnitSolvedIn(values, k);
      assert b <==> AllUnitsSolved(values) by {
        forall k | 0 <= k < 27 ensures UnitSolvedIn(values, k) <==> UnitsSolvedAt(values, k) {
        }
      }
      if b then
        SolvedDecided(values);
        SolvedIff(values);
        b
      else
        if AllDecided(values) then SolvedIff(values); b else b
    }

    /** The candidate lists of unit k of the unit list, sorted, are "1", ..., "9". */
    predicate UnitSolvedIn(values: seq<set<Digit>>, k: int)
      reads this
      requires Valid() && IsMap(values) && 0 <= k < 27
    {
      UnitShape(k);
      UnitSolved(values, unitlist[k])
    }

    /**
      * Depth-first search: a map with every square decided is returned as
      * it is; otherwise the branching square gets each of its candidates in
      * ascending order, each on a copy of the map, until one branch solves.
      */
    method Search(values: seq<set<Digit>>) returns (r: Result<seq<set<Digit>>>)
      requires Valid() && NoEmpty(values)
      ensures r.Ok? ==> AllDecided(r.value) && Propagated(values, r.value)
      ensures r.Err? ==> r.error == Contradiction
      ensures r.Err? ==> forall g {:trigger Fits(g, values)} :: IsSolution(g) ==> !Fits(g, values)
      decreases Count(values)
    {
      if forall q :: 0 <= q < 81 ==> |values[q]| == 1 {
        PropagatedRefl(values);
        return Ok(values);
      }
      var s := Fewest(values, 81);
      assert s != -1 by {
        var q :| 0 <= q < 81 && |values[q]| != 1;
        assert values[q] != {};
      }
      forall g | IsSolution(g) && Fits(g, values) ensures g[s] in values[s] {
        assert FitsAt(g, values, s);
      }
      var d: int := 1;
      while d <= 9
        invariant 1 <= d <= 10
        invariant forall g {:trigger Fits(g, values)} :: IsSolution(g) && Fits(g, values) ==> g[s] in values[s] && g[s] >= d
      {
        if d in values[s] {
          var cloned := new set<Digit>[81](i requires 0 <= i < 81 => values[i]);
          assert cloned[..] == values;
          var ok := Assign(cloned, s, d);
          if ok {
            PropagatedNoEmpty(values, cloned[..]);
            assert |cloned[s]| <= 1 by {
              SubsetCard(cloned[s], {d});
            }
            CountShrinks(values, cloned[..], s);
            var found := Search(cloned[..]);
            if found.Ok? {
              PropagatedTrans(values, cloned[..], found.value);
              return found;
            }
          }
          forall g | IsSolution(g) && Fits(g, values)
            ensures g[s] != d
          {
          }
        }
        d := d + 1;
      }
      return Err(Contradiction);
    }

    /**
      * parse_grid: starts from every digit possible everywhere and assigns
      * each clue of the puzzle string, in square order.
      */
    method ParseGrid(grid: string) returns (r: Result<seq<set<Digit>>>)
      requires Valid()
      ensures r == Err(InvalidGrid) <==> |Recognized(grid)| != 81
      ensures r.Err? ==> r.error != Unsolved
      ensures r.Ok? ==> (|Recognized(grid)| == 81 && Propagated(Full(), r.value)
        && CluesPlaced(r.value, Recognized(grid), 81))
      ensures r.Ok? ==> forall g {:trigger Agrees(g, Recognized(grid))} ::
        IsSolution(g) && Agrees(g, Recognized(grid)) ==> Fits(g, r.value)
      ensures r == Err(Contradiction) ==> forall g {:trigger Agrees(g, Recognized(grid))} ::
        IsSolution(g) ==> !Agrees(g, Recognized(grid))
    {
      var values := new set<Digit>[81](i => AllDigits);
      assert values[..] == Full();
      var gv := GridValues(grid);
      if gv.Err? {
        return Err(InvalidGrid);
      }
      var cells := gv.value;
      PropagatedRefl(Full());
      forall g | IsSolution(g) ensures Fits(g, Full()) {
        FitsFull(g);
      }
      var q := 0;
      while q < 81
        invariant 0 <= q <= 81
        invariant Propagated(Full(), values[..])
        invariant CluesPlaced(values[..], cells, q)
        invariant forall g {:trigger Agrees(g, cells)} :: IsSolution(g) && Agrees(g, cells) ==> Fits(g, values[..])
      {
        if IsClue(cells[q]) {
          ghost var prev := values[..];
          var ok := Assign(values, q, ClueDigit(cells[q]));
          if !ok {
            return Err(Contradiction);
          }
          PropagatedTrans(Full(), prev, values[..]);
          PropagatedFromFull(values[..]);
          forall p | 0 <= p <= q && IsClue(cells[p])
            ensures values[p] == {ClueDigit(cells[p])}
          {
            if p < q {
              assert SquareKept(prev, values[..], p);
            }
          }
        }
        q := q + 1;
      }
      return Ok(values[..]);
    }

    /**
      * solve: parse, search, and, if every unit is solved, the 81 digits of
      * the answer in square order.
      */
    method Solve(grid: string) returns (r: Result<string>)
      requires Valid()
      ensures r == Err(InvalidGrid) <==> |Recognized(grid)| != 81
      ensures r != Err(Unsolved)
      ensures r.Ok? ==> (|r.value| == 81 && (forall q :: 0 <= q < 81 ==> IsClue(r.value[q]))
        && IsSolution(Digits(r.value)) && Agrees(Digits(r.value), Recognized(grid)))
      ensures r == Err(Contradiction) ==> forall g {:trigger Agrees(g, Recognized(grid))} ::
        IsSolution(g) ==> !Agrees(g, Recognized(grid))
    {
      var parsed := ParseGrid(grid);
      if parsed.Err? {
        return Err(parsed.error);
      }
      PropagatedFromFull(parsed.value);
      var searched := Search(parsed.value);
      if searched.Err? {
        return Err(searched.error);
      }
      var v := searched.value;
      PropagatedTrans(Full(), parsed.value, v);
      PropagatedFromFull(v);
      Rule1Solved(v);
      SolvedAnswer(parsed.value, v, Recognized(grid));
      r := if Solved(v) then Ok(Render(v)) else Err(Unsolved);
    }

    /** The answer read from a solved map keeps the clues the parsed map placed. */
    lemma SolvedAnswer(parsed: seq<set<Digit>>, v: seq<set<Digit>>, cells: string)
      requires |cells| == 81 && IsMap(parsed) && CluesPlaced(parsed, cells, 81)
      requires NoEmpty(v) && Shrinks(parsed, v)
      ensures Agrees(Digits(Render(v)), cells)
    {
      forall q | 0 <= q < 81 && IsClue(cells[q])
        ensures Decided(v)[q] == ClueDigit(cells[q])
      {
      }
    }

    /**
      * display: the puzzle string as lines, three row lines per band of 27
      * cells, each band followed by a separator, with the last separator
      * dropped; InvalidGrid unless exactly 81 grid characters are present.
      */
    static method Display(grid: string) returns (r: Result<seq<string>>)
      ensures |Recognized(grid)| == 81 ==> r == Ok(Layout(Recognized(grid)))
      ensures |Recognized(grid)| != 81 ==> r == Err(InvalidGrid)
    {
      var cells := Recognized(grid);
      if |cells| != 81 {
        return Err(InvalidGrid);
      }
      var lines: seq<string> := [];
      var b := 0;
      while b < 3
        invariant 0 <= b <= 3 && lines == Pushed(cells, b)
      {
        lines := PushBand(cells, b, lines);
        PushedNext(cells, b);
        lines := lines + [Sep()];
        b := b + 1;
      }
      PushedLayout(cells);
      lines := lines[..|lines| - 1];
      return Ok(lines);
    }

    /** The row lines of band b, one per chunk of nine cells, pushed after `lines`. */
    static method PushBand(cells: string, b: int, lines: seq<string>) returns (pushed: seq<string>)
      requires |cells| == 81 && 0 <= b < 3
      ensures pushed == lines + Band(cells, b)[..3]
    {
      pushed := lines;
      var i := 0;
      while i < 3
        invariant 0 <= i <= 3 && pushed == lines + Band(cells, b)[..i]
      {
        BandNext(cells, b, i);
        pushed := pushed + [RowLine(cells, 3 * b + i)];
        i := i + 1;
      }
    }
  }
}
