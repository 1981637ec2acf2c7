/**
  * Board topology of the 9x9 Sudoku: the 81 squares, the 27 units and, for
  * every square, its units and its peers.
  *
  * A square is identified by its row-major index r * 9 + c, where the row
  * r = 0..8 stands for the letters A..I and the column c = 0..8 for the
  * digits 1..9. The square names "A1" < "A2" < ... < "I9" are ordered
  * exactly like these indices (see SquareNameOrder).
  */
module Topology {

  predicate IsSquare(q: int) { 0 <= q < 81 }

  function Row(q: int): int { q / 9 }
  function Col(q: int): int { q % 9 }
  function Box(q: int): int { Row(q) / 3 * 3 + Col(q) / 3 }

  /**
    * A label list: the row labels A..I or the column labels 1..9, each
    * given by its position 0..8.
    */
  predicate IsLabels(labels: seq<int>) {
    |labels| == 9 && forall i :: 0 <= i < 9 ==> labels[i] == i
  }

  predicate Increasing(s: seq<int>) {
    forall i, j :: 0 <= i < j < |s| ==> s[i] < s[j]
  }

  /** Name of a square: row letter then column digit. */
  function SquareName(q: int): (name: string)
    requires IsSquare(q)
    ensures |name| == 2 && 'A' <= name[0] <= 'I' && '1' <= name[1] <= '9'
  {
    [(65 + Row(q)) as char, (49 + Col(q)) as char]
  }

  /** Lexicographic order of two-character names. */
  predicate NameBefore(a: string, b: string)
    requires |a| == 2 && |b| == 2
  {
    a[0] < b[0] || (a[0] == b[0] && a[1] < b[1])
  }

  /** Ties between squares are broken by name; that is index order. */
  lemma SquareNameOrder(p: int, q: int)
    requires IsSquare(p) && IsSquare(q)
    ensures NameBefore(SquareName(p), SquareName(q)) <==> p < q
    ensures SquareName(p) == SquareName(q) <==> p == q
  {
  }

  /** The squares of row r crossed with `cols`, in the order of `cols`. */
  function CrossRow(r: int, cols: seq<int>): (sq: seq<int>)
    ensures |sq| == |cols|
    ensures forall j :: 0 <= j < |cols| ==> sq[j] == r * 9 + cols[j]
  {
    seq(|cols|, j requires 0 <= j < |cols| => r * 9 + cols[j])
  }

  /** cross(rows, cols): every row of `rows` crossed with every column of `cols`, row by row. */
  function Cross(rows: seq<int>, cols: seq<int>): (sq: seq<int>)
    ensures |sq| == |rows| * |cols|
  {
    if rows == [] then []
    else
      assert |rows| * |cols| == |cols| + |rows[1..]| * |cols|;
      CrossRow(rows[0], cols) + Cross(rows[1..], cols)
  }

  /** Position i * |cols| + j of cross(rows, cols) is row rows[i] and column cols[j]. */
  lemma {:induction false} CrossAt(rows: seq<int>, cols: seq<int>, i: int, j: int)
    requires 0 <= i < |rows| && 0 <= j < |cols|
    ensures 0 <= i * |cols| + j < |Cross(rows, cols)|
    ensures Cross(rows, cols)[i * |cols| + j] == rows[i] * 9 + cols[j]
  {
    if i == 0 {
    } else {
      CrossAt(rows[1..], cols, i - 1, j);
      assert i * |cols| + j == |cols| + ((i - 1) * |cols| + j);
    }
  }

  /** Square i of unit k: columns 0..8, then rows 9..17, then boxes 18..26. */
  function UnitSquare(k: int, i: int): int {
    if k < 9 then i * 9 + k
    else if k < 18 then (k - 9) * 9 + i
    else (3 * ((k - 18) / 3) + i / 3) * 9 + 3 * ((k - 18) % 3) + i % 3
  }

  /** Unit number k, its squares in ascending order. */
  function UnitAt(k: int): (u: seq<int>)
    requires 0 <= k < 27
    ensures |u| == 9
  {
    seq(9, i requires 0 <= i < 9 => UnitSquare(k, i))
  }

  /** Column unit c is cross(rows, [c]). */
  lemma ColumnCross(rows: seq<int>, cols: seq<int>, c: int)
    requires IsLabels(rows) && IsLabels(cols) && 0 <= c < 9
    ensures Cross(rows, [cols[c]]) == UnitAt(c)
  {
    var u := Cross(rows, [cols[c]]);
    forall i | 0 <= i < 9 ensures u[i] == UnitAt(c)[i] {
      CrossAt(rows, [cols[c]], i, 0);
    }
  }

  /** Row unit r is cross([r], cols). */
  lemma RowCross(rows: seq<int>, cols: seq<int>, r: int)
    requires IsLabels(rows) && IsLabels(cols) && 0 <= r < 9
    ensures Cross([rows[r]], cols) == UnitAt(9 + r)
  {
    var u := Cross([rows[r]], cols);
    forall i | 0 <= i < 9 ensures u[i] == UnitAt(9 + r)[i] {
      CrossAt([rows[r]], cols, 0, i);
    }
  }

  /** Box 3 * br + bc is the rows of band br crossed with the columns of stack bc. */
  lemma BoxCross(rows: seq<int>, cols: seq<int>, br: int, bc: int)
    requires IsLabels(rows) && IsLabels(cols) && 0 <= br < 3 && 0 <= bc < 3
    ensures Cross(rows[3 * br..3 * br + 3], cols[3 * bc..3 * bc + 3]) == UnitAt(18 + 3 * br + bc)
  {
    var rs, cs := rows[3 * br..3 * br + 3], cols[3 * bc..3 * bc + 3];
    var u := Cross(rs, cs);
    assert (3 * br + bc) / 3 == br && (3 * br + bc) % 3 == bc;
    forall i | 0 <= i < 9 ensures u[i] == UnitAt(18 + 3 * br + bc)[i] {
      var a, b := i / 3, i % 3;
      assert i == a * 3 + b;
      assert rs[a] == 3 * br + a && cs[b] == 3 * bc + b;
      CrossAt(rs, cs, a, b);
      assert UnitSquare(18 + 3 * br + bc, i) == (3 * br + a) * 9 + 3 * bc + b;
    }
  }

  /** The squares cross(rows, cols) are 0..80 in order. */
  lemma SquaresCross(rows: seq<int>, cols: seq<int>)
    requires IsLabels(rows) && IsLabels(cols)
    ensures |Cross(rows, cols)| == 81
    ensures forall i :: 0 <= i < 81 ==> Cross(rows, cols)[i] == i
  {
    forall i | 0 <= i < 81 ensures Cross(rows, cols)[i] == i {
      CrossAt(rows, cols, i / 9, i % 9);
    }
  }

  /** Appending unit n to a list holding units 0..n-1. */
  lemma AppendUnit(ul: seq<seq<int>>, u: seq<int>)
    requires |ul| < 27 && u == UnitAt(|ul|)
    requires forall k :: 0 <= k < |ul| ==> ul[k] == UnitAt(k)
    ensures forall k :: 0 <= k < |ul + [u]| ==> (ul + [u])[k] == UnitAt(k)
  {
  }

  /** Which squares unit k holds, in terms of rows, columns and boxes. */
  predicate InUnit(k: int, q: int) {
    if k < 9 then Col(q) == k
    else if k < 18 then Row(q) == k - 9
    else Box(q) == k - 18
  }

  /** Every unit is 9 distinct squares. */
  lemma UnitShape(k: int)
    requires 0 <= k < 27
    ensures |UnitAt(k)| == 9 && Increasing(UnitAt(k))
    ensures forall q :: q in UnitAt(k) <==> IsSquare(q) && InUnit(k, q)
  {
    UnitIncreasing(k);
    UnitMembers(k);
    UnitHolds(k);
  }

  lemma UnitMembers(k: int)
    requires 0 <= k < 27
    ensures forall q :: q in UnitAt(k) ==> IsSquare(q) && InUnit(k, q)
  {
    forall i | 0 <= i < 9
      ensures IsSquare(UnitAt(k)[i]) && InUnit(k, UnitAt(k)[i])
    {
      UnitSquareAt(k, i);
    }
  }

  lemma UnitHolds(k: int)
    requires 0 <= k < 27
    ensures forall q :: IsSquare(q) && InUnit(k, q) ==> q in UnitAt(k)
  {
    forall q | IsSquare(q) && InUnit(k, q)
      ensures q in UnitAt(k)
    {
      var i := UnitPosition(k, q);
      assert UnitAt(k)[i] == q;
    }
  }

  /** Where square q sits in a unit k that holds it. */
  lemma UnitPosition(k: int, q: int) returns (i: int)
    requires 0 <= k < 27 && IsSquare(q) && InUnit(k, q)
    ensures 0 <= i < 9 && UnitSquare(k, i) == q
  {
    if k < 9 {
      i := Row(q);
    } else if k < 18 {
      i := Col(q);
    } else {
      var b := k - 18;
      BoxBand(q);
      assert Col(q) / 3 == b % 3;
      i := (Row(q) - 3 * (b / 3)) * 3 + (Col(q) - 3 * (b % 3));
      assert i / 3 == Row(q) - 3 * (b / 3) && i % 3 == Col(q) - 3 * (b % 3);
    }
  }

  lemma UnitIncreasing(k: int)
    requires 0 <= k < 27
    ensures Increasing(UnitAt(k))
  {
    forall i, j | 0 <= i < j < 9
      ensures UnitAt(k)[i] < UnitAt(k)[j]
    {
      UnitSquareAt(k, i);
      UnitSquareAt(k, j);
    }
  }

  /** A square is determined by its row and its column. */
  lemma SameSquare(p: int, q: int)
    requires IsSquare(p) && IsSquare(q) && Row(p) == Row(q) && Col(p) == Col(q)
    ensures p == q
  {
  }

  /** Two different squares in one row, column or box: the unit and their positions in it. */
  lemma SharedUnit(q: int, p: int) returns (k: int, i: int, j: int)
    requires IsSquare(q) && IsSquare(p) && q != p
    requires Row(q) == Row(p) || Col(q) == Col(p) || (Row(q) / 3 == Row(p) / 3 && Col(q) / 3 == Col(p) / 3)
    ensures 0 <= k < 27 && 0 <= i < 9 && 0 <= j < 9 && i != j
    ensures UnitSquare(k, i) == q && UnitSquare(k, j) == p
  {
    assert 0 <= Row(q) < 9 && 0 <= Col(q) < 9 && 0 <= Box(q) < 9;
    if Col(q) == Col(p) {
      k := Col(q);
    } else if Row(q) == Row(p) {
      k := 9 + Row(q);
    } else {
      k := 18 + Box(q);
    }
    i := UnitPosition(k, q);
    j := UnitPosition(k, p);
  }

  /** Row and column of square i of unit k. */
  lemma UnitSquareAt(k: int, i: int)
    requires 0 <= k < 27 && 0 <= i < 9
    ensures IsSquare(UnitSquare(k, i)) && InUnit(k, UnitSquare(k, i))
    ensures k < 9 ==> Row(UnitSquare(k, i)) == i && Col(UnitSquare(k, i)) == k
    ensures 9 <= k < 18 ==> Row(UnitSquare(k, i)) == k - 9 && Col(UnitSquare(k, i)) == i
    ensures 18 <= k ==> Row(UnitSquare(k, i)) == 3 * ((k - 18) / 3) + i / 3
    ensures 18 <= k ==> Col(UnitSquare(k, i)) == 3 * ((k - 18) % 3) + i % 3
  {
    if 18 <= k {
      var b := k - 18;
      var r, c := 3 * (b / 3) + i / 3, 3 * (b % 3) + i % 3;
      assert 0 <= r < 9 && 0 <= c < 9;
      var q := r * 9 + c;
      assert UnitSquare(k, i) == q;
      assert Row(q) == r && Col(q) == c;
      assert r / 3 == b / 3 && c / 3 == b % 3;
      assert Box(q) == b;
    }
  }

  /** The three units of square s, in unit-list order: its column, its row, its box. */
  function UnitIndex(s: int, j: int): (k: int)
    requires IsSquare(s) && 0 <= j < 3
    ensures 0 <= k < 27
  {
    if j == 0 then Col(s) else if j == 1 then 9 + Row(s) else 18 + Box(s)
  }

  lemma MemberOfUnit(s: int, k: int)
    requires IsSquare(s) && 0 <= k < 27
    ensures s in UnitAt(k) <==> k == UnitIndex(s, 0) || k == UnitIndex(s, 1) || k == UnitIndex(s, 2)
  {
    UnitShape(k);
  }

  /** A list holds the 27 units in construction order. */
  predicate IsUnitList(ul: seq<seq<int>>) {
    |ul| == 27 && forall k :: 0 <= k < 27 ==> ul[k] == UnitAt(k)
  }

  /** The units of square s: its column, its row and its box, in unit-list order. */
  function UnitsOf(s: int): (us: seq<seq<int>>)
    requires IsSquare(s)
    ensures |us| == 3
  {
    [UnitAt(UnitIndex(s, 0)), UnitAt(UnitIndex(s, 1)), UnitAt(UnitIndex(s, 2))]
  }

  /** units[s]: the first n units of `ul` that contain s, in list order. */
  function Containing(ul: seq<seq<int>>, s: int, n: int): (us: seq<seq<int>>)
    requires 0 <= n <= |ul|
    ensures |us| <= n
    ensures forall i :: 0 <= i < |us| ==> s in us[i] && us[i] in ul[..n]
  {
    if n == 0 then []
    else Containing(ul, s, n - 1) + (if s in ul[n - 1] then [ul[n - 1]] else [])
  }

  function UnitsBelow(s: int, n: int): seq<seq<int>>
    requires IsSquare(s)
  {
    (if UnitIndex(s, 0) < n then [UnitAt(UnitIndex(s, 0))] else [])
    + (if UnitIndex(s, 1) < n then [UnitAt(UnitIndex(s, 1))] else [])
    + (if UnitIndex(s, 2) < n then [UnitAt(UnitIndex(s, 2))] else [])
  }

  lemma {:induction false} ContainingPrefix(ul: seq<seq<int>>, s: int, n: int)
    requires IsUnitList(ul) && IsSquare(s) && 0 <= n <= 27
    ensures Containing(ul, s, n) == UnitsBelow(s, n)
  {
    if n > 0 {
      ContainingPrefix(ul, s, n - 1);
      MemberOfUnit(s, n - 1);
    }
  }

  /**
    * Filtering the unit list by membership of s yields exactly three units:
    * the column, the row and the box of s.
    */
  lemma UnitsContaining(ul: seq<seq<int>>, s: int)
    requires IsUnitList(ul) && IsSquare(s)
    ensures Containing(ul, s, 27) == UnitsOf(s)
    ensures forall j :: 0 <= j < 3 ==> s in UnitsOf(s)[j]
  {
    ContainingPrefix(ul, s, 27);
    MemberOfUnit(s, UnitIndex(s, 0));
    MemberOfUnit(s, UnitIndex(s, 1));
    MemberOfUnit(s, UnitIndex(s, 2));
  }

  function Concat(us: seq<seq<int>>): seq<int> {
    if us == [] then [] else us[0] + Concat(us[1..])
  }

  /**
    * The members of `pool` in [lo, hi) other than s, ascending and without
    * duplicates: the result of filtering out s, sorting and de-duplicating.
    */
  function SortedWithout(pool: seq<int>, s: int, lo: int, hi: int): (r: seq<int>)
    decreases hi - lo
  {
    if lo >= hi then []
    else (if lo != s && lo in pool then [lo] else []) + SortedWithout(pool, s, lo + 1, hi)
  }

  /** peers[s]: the squares of the units of s other than s, sorted, without duplicates. */
  function PeersOf(s: int): seq<int>
    requires IsSquare(s)
  {
    SortedWithout(Concat(UnitsOf(s)), s, 0, 81)
  }

  lemma ConcatThree(us: seq<seq<int>>)
    requires |us| == 3
    ensures Concat(us) == us[0] + us[1] + us[2]
  {
    var t1, t2 := us[1..], us[1..][1..];
    assert t2[1..] == [];
    assert Concat(t2) == us[2];
    assert Concat(t1) == us[1] + us[2];
  }

  predicate SharesUnit(s: int, q: int) {
    Row(q) == Row(s) || Col(q) == Col(s) || Box(q) == Box(s)
  }

  lemma PoolMember(s: int, q: int)
    requires IsSquare(s)
    ensures q in Concat(UnitsOf(s)) <==> IsSquare(q) && SharesUnit(s, q)
  {
    var us := UnitsOf(s);
    ConcatThree(us);
    UnitShape(UnitIndex(s, 0));
    UnitShape(UnitIndex(s, 1));
    UnitShape(UnitIndex(s, 2));
  }

  /** The filter, sort and de-duplication: exactly the pool's members in [lo, hi) other than s, ascending. */
  lemma {:induction false} SortedWithoutFacts(pool: seq<int>, s: int, lo: int, hi: int)
    ensures forall q :: q in SortedWithout(pool, s, lo, hi) <==> lo <= q < hi && q != s && q in pool
    ensures forall i :: 0 <= i < |SortedWithout(pool, s, lo, hi)| ==> lo <= SortedWithout(pool, s, lo, hi)[i]
    ensures Increasing(SortedWithout(pool, s, lo, hi))
    decreases hi - lo
  {
    if lo < hi {
      SortedWithoutFacts(pool, s, lo + 1, hi);
    }
  }

  lemma {:induction false} SortedWithoutSplit(pool: seq<int>, s: int, lo: int, mid: int, hi: int)
    requires lo <= mid <= hi
    ensures SortedWithout(pool, s, lo, hi) == SortedWithout(pool, s, lo, mid) + SortedWithout(pool, s, mid, hi)
    decreases mid - lo
  {
    if lo < mid {
      SortedWithoutSplit(pool, s, lo + 1, mid, hi);
    }
  }

  /** A stretch of squares all in the pool and other than s is kept whole. */
  lemma {:induction false} SortedWithoutAll(pool: seq<int>, s: int, lo: int, hi: int)
    requires lo <= hi && (s < lo || hi <= s)
    requires forall q :: lo <= q < hi ==> q in pool
    ensures |SortedWithout(pool, s, lo, hi)| == hi - lo
    decreases hi - lo
  {
    if lo < hi {
      SortedWithoutAll(pool, s, lo + 1, hi);
    }
  }

  /** A stretch of squares none of which is in the pool contributes nothing. */
  lemma {:induction false} SortedWithoutNone(pool: seq<int>, s: int, lo: int, hi: int)
    requires forall q :: lo <= q < hi ==> q !in pool
    ensures SortedWithout(pool, s, lo, hi) == []
    decreases hi - lo
  {
    if lo < hi {
      SortedWithoutNone(pool, s, lo + 1, hi);
    }
  }

  /** The coordinates of square q of row r. */
  lemma InRow(q: int, r: int)
    requires 0 <= r < 9 && 9 * r <= q < 9 * r + 9
    ensures IsSquare(q) && Row(q) == r && Col(q) == q - 9 * r
    ensures Box(q) == r / 3 * 3 + (q - 9 * r) / 3
  {
  }

  /** A box lies within one band of three rows. */
  lemma BoxBand(q: int)
    requires IsSquare(q)
    ensures Box(q) / 3 == Row(q) / 3
  {
  }

  lemma OwnRowInPool(s: int)
    requires IsSquare(s)
    ensures forall q :: 9 * Row(s) <= q < 9 * Row(s) + 9 && q != s ==> q in Concat(UnitsOf(s))
  {
    forall q | 9 * Row(s) <= q < 9 * Row(s) + 9 && q != s
      ensures q in Concat(UnitsOf(s))
    {
      PoolMember(s, q);
      InRow(q, Row(s));
    }
  }

  lemma BandRowInPool(s: int, r: int)
    requires IsSquare(s) && 0 <= r < 9 && r != Row(s) && r / 3 == Row(s) / 3
    ensures forall q :: 9 * r <= q < 9 * r + 9 ==>
      (q in Concat(UnitsOf(s)) <==> 9 * r + Col(s) / 3 * 3 <= q < 9 * r + Col(s) / 3 * 3 + 3)
  {
    forall q | 9 * r <= q < 9 * r + 9
      ensures q in Concat(UnitsOf(s)) <==> 9 * r + Col(s) / 3 * 3 <= q < 9 * r + Col(s) / 3 * 3 + 3
    {
      PoolMember(s, q);
      InRow(q, r);
      assert SharesUnit(s, q) <==> (q - 9 * r) / 3 == Col(s) / 3;
    }
  }

  lemma OtherRowInPool(s: int, r: int)
    requires IsSquare(s) && 0 <= r < 9 && r / 3 != Row(s) / 3
    ensures forall q :: 9 * r <= q < 9 * r + 9 ==> (q in Concat(UnitsOf(s)) <==> q == 9 * r + Col(s))
  {
    forall q | 9 * r <= q < 9 * r + 9
      ensures q in Concat(UnitsOf(s)) <==> q == 9 * r + Col(s)
    {
      PoolMember(s, q);
      InRow(q, r);
      BoxBand(q);
      BoxBand(s);
      assert SharesUnit(s, q) <==> q - 9 * r == Col(s);
    }
  }

  /**
    * A stretch [lo, hi) in which exactly the squares of [a, b) are in the
    * pool, none of them s, keeps b - a of them.
    */
  lemma SortedWithoutStretch(pool: seq<int>, s: int, lo: int, a: int, b: int, hi: int)
    requires lo <= a <= b <= hi
    requires forall q :: lo <= q < hi ==> (q in pool <==> a <= q < b)
    requires s < a || b <= s
    ensures |SortedWithout(pool, s, lo, hi)| == b - a
  {
    SortedWithoutSplit(pool, s, lo, a, hi);
    SortedWithoutSplit(pool, s, a, b, hi);
    SortedWithoutNone(pool, s, lo, a);
    SortedWithoutAll(pool, s, a, b);
    SortedWithoutNone(pool, s, b, hi);
  }

  /** The row of s holds 8 of its peers: every square but s. */
  lemma PeersInOwnRow(s: int)
    requires IsSquare(s)
    ensures |SortedWithout(Concat(UnitsOf(s)), s, 9 * Row(s), 9 * Row(s) + 9)| == 8
  {
    var pool, lo := Concat(UnitsOf(s)), 9 * Row(s);
    OwnRowInPool(s);
    SortedWithoutSplit(pool, s, lo, s, lo + 9);
    SortedWithoutSplit(pool, s, s, s + 1, lo + 9);
    SortedWithoutAll(pool, s, lo, s);
    SortedWithoutAll(pool, s, s + 1, lo + 9);
  }

  /** Another row of the band of s holds 3 peers: the squares of the box of s. */
  lemma PeersInBandRow(s: int, r: int)
    requires IsSquare(s) && 0 <= r < 9 && r != Row(s) && r / 3 == Row(s) / 3
    ensures |SortedWithout(Concat(UnitsOf(s)), s, 9 * r, 9 * r + 9)| == 3
  {
    BandRowInPool(s, r);
    var b := 9 * r + Col(s) / 3 * 3;
    SortedWithoutStretch(Concat(UnitsOf(s)), s, 9 * r, b, b + 3, 9 * r + 9);
  }

  /** A row outside the band of s holds 1 peer: the square in the column of s. */
  lemma PeersInOtherRow(s: int, r: int)
    requires IsSquare(s) && 0 <= r < 9 && r / 3 != Row(s) / 3
    ensures |SortedWithout(Concat(UnitsOf(s)), s, 9 * r, 9 * r + 9)| == 1
  {
    OtherRowInPool(s, r);
    var c := 9 * r + Col(s);
    SortedWithoutStretch(Concat(UnitsOf(s)), s, 9 * r, c, c + 1, 9 * r + 9);
  }

  /** How many peers of s lie in row r. */
  lemma PeersInRow(s: int, r: int)
    requires IsSquare(s) && 0 <= r < 9
    ensures |SortedWithout(Concat(UnitsOf(s)), s, 9 * r, 9 * r + 9)| ==
      if r == Row(s) then 8 else if r / 3 == Row(s) / 3 then 3 else 1
  {
    var n := |SortedWithout(Concat(UnitsOf(s)), s, 9 * r, 9 * r + 9)|;
    if r == Row(s) {
      PeersInOwnRow(s);
      assert n == 8;
    } else if r / 3 == Row(s) / 3 {
      PeersInBandRow(s, r);
      assert n == 3;
    } else {
      PeersInOtherRow(s, r);
      assert n == 1;
    }
  }

  /**
    * The peers of s are the squares other than s that share a unit with it:
    * ascending, hence without duplicates, and exactly twenty of them.
    */
  lemma PeersShape(s: int)
    requires IsSquare(s)
    ensures |PeersOf(s)| == 20
    ensures Increasing(PeersOf(s))
    ensures s !in PeersOf(s)
    ensures forall q :: q in PeersOf(s) <==> IsSquare(q) && q != s && SharesUnit(s, q)
  {
    SortedWithoutFacts(Concat(UnitsOf(s)), s, 0, 81);
    PeersMembers(s);
    PeersCount(s);
  }

  lemma PeersMembers(s: int)
    requires IsSquare(s)
    ensures forall q :: q in PeersOf(s) <==> IsSquare(q) && q != s && SharesUnit(s, q)
  {
    var pool := Concat(UnitsOf(s));
    SortedWithoutFacts(pool, s, 0, 81);
    forall q ensures q in pool <==> IsSquare(q) && SharesUnit(s, q) {
      PoolMember(s, q);
    }
  }

  lemma PeersCount(s: int)
    requires IsSquare(s)
    ensures |PeersOf(s)| == 20
  {
    var pool := Concat(UnitsOf(s));
    SortedWithoutSplit(pool, s, 0, 27, 81);
    SortedWithoutSplit(pool, s, 27, 54, 81);
    BandCount(s, 0);
    BandCount(s, 1);
    BandCount(s, 2);
  }

  /** Peers of s in band t (rows 3t..3t+2): 14 in its own band, 3 in each other. */
  lemma BandCount(s: int, t: int)
    requires IsSquare(s) && 0 <= t < 3
    ensures |SortedWithout(Concat(UnitsOf(s)), s, 27 * t, 27 * t + 27)| == if t == Row(s) / 3 then 14 else 3
  {
    var pool := Concat(UnitsOf(s));
    SortedWithoutSplit(pool, s, 27 * t, 27 * t + 9, 27 * t + 27);
    SortedWithoutSplit(pool, s, 27 * t + 9, 27 * t + 18, 27 * t + 27);
    var n0 := |SortedWithout(pool, s, 27 * t, 27 * t + 9)|;
    var n1 := |SortedWithout(pool, s, 27 * t + 9, 27 * t + 18)|;
    var n2 := |SortedWithout(pool, s, 27 * t + 18, 27 * t + 27)|;
    assert |SortedWithout(pool, s, 27 * t, 27 * t + 27)| == n0 + n1 + n2;
    RowCount(s, t, 0);
    RowCount(s, t, 1);
    RowCount(s, t, 2);
  }

  /** Row 3t + i in terms of the band t. */
  lemma RowCount(s: int, t: int, i: int)
    requires IsSquare(s) && 0 <= t < 3 && 0 <= i < 3
    ensures |SortedWithout(Concat(UnitsOf(s)), s, 27 * t + 9 * i, 27 * t + 9 * i + 9)| ==
      if 3 * t + i == Row(s) then 8 else if t == Row(s) / 3 then 3 else 1
  {
    assert (3 * t + i) / 3 == t;
    PeersInRow(s, 3 * t + i);
  }

  /** Squares that share a unit are peers of each other. */
  lemma SameUnitPeers(k: int, p: int, q: int)
    requires 0 <= k < 27 && p in UnitAt(k) && q in UnitAt(k) && p != q
    ensures p in PeersOf(q)
  {
    UnitMembers(k);
    PeersMembers(q);
  }

  /** Peers share one of the square's three units. */
  lemma PeerUnit(s: int, p: int) returns (j: int)
    requires IsSquare(s) && p in PeersOf(s)
    ensures 0 <= j < 3 && p in UnitAt(UnitIndex(s, j)) && s in UnitAt(UnitIndex(s, j))
  {
    PeersMembers(s);
    assert IsSquare(p) && SharesUnit(s, p);
    if Col(p) == Col(s) {
      j := 0;
    } else if Row(p) == Row(s) {
      j := 1;
    } else {
      j := 2;
    }
    BoxRange(s);
    assert InUnit(UnitIndex(s, j), p) && InUnit(UnitIndex(s, j), s);
    UnitHolds(UnitIndex(s, j));
  }

  lemma BoxRange(s: int)
    requires IsSquare(s)
    ensures 0 <= Row(s) < 9 && 0 <= Col(s) < 9 && 0 <= Box(s) < 9
  {
  }

  /** The peer list of a square, read by position: twenty squares. */
  lemma PeersListed(s: int)
    requires IsSquare(s)
    ensures |PeersOf(s)| == 20
    ensures forall i :: 0 <= i < |PeersOf(s)| ==> IsSquare(PeersOf(s)[i]) && PeersOf(s)[i] in PeersOf(s)
  {
    PeersCount(s);
    PeersMembers(s);
  }

  /** Appending the units of square n to a table holding those of 0..n-1. */
  lemma AppendUnits(us: seq<seq<seq<int>>>, x: seq<seq<int>>)
    requires |us| < 81 && x == UnitsOf(|us|)
    requires forall q :: 0 <= q < |us| ==> us[q] == UnitsOf(q)
    ensures forall q :: 0 <= q < |us + [x]| ==> (us + [x])[q] == UnitsOf(q)
  {
  }

  /** The peer lists of all 81 squares, indexed by square. */
  function PeerTable(): (t: seq<seq<int>>)
    ensures |t| == 81 && forall q :: 0 <= q < 81 ==> t[q] == PeersOf(q)
  {
    seq(81, q requires 0 <= q < 81 => PeersOf(q))
  }

  /** Appending entry n of a table to a list that holds its entries 0..n-1. */
  lemma AppendEntry<T>(t: seq<T>, x: T, want: seq<T>)
    requires |t| < |want| && x == want[|t|]
    requires forall q :: 0 <= q < |t| ==> t[q] == want[q]
    ensures forall q :: 0 <= q < |t + [x]| ==> (t + [x])[q] == want[q]
  {
  }
}
