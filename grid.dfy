/**
  * The textual side of the solver: the error kinds, reading a puzzle string
  * into its 81 cells, and laying a grid out as the lines of `display`.
  */
module Grid {
  /** Why a puzzle could not be solved. */
  datatype PuzzleError = InvalidGrid | Contradiction | Unsolved

  datatype Result<T> = Ok(value: T) | Err(error: PuzzleError)

  /** A result is a value or one of the three errors. */
  lemma ResultCases<T>(r: Result<T>)
    ensures r.Ok? || r == Err(InvalidGrid) || r == Err(Contradiction) || r == Err(Unsolved)
  {
    match r
    case Ok(_) =>
    case Err(e) =>
      match e
      case InvalidGrid =>
      case Contradiction =>
      case Unsolved =>
  }

  /** The characters a puzzle string is made of: the digits 1..9 and the blanks '0' and '.'. */
  predicate IsGridChar(c: char) {
    '1' <= c <= '9' || c == '0' || c == '.'
  }

  /** A given digit, as opposed to a blank. */
  predicate IsClue(c: char) {
    '1' <= c <= '9'
  }

  function ClueDigit(c: char): (d: int)
    requires IsClue(c)
    ensures 1 <= d <= 9
  {
    c as int - '0' as int
  }

  /** The character of a digit, as solve writes a decided square. */
  function DigitChar(x: int): (c: char)
    requires 1 <= x <= 9
    ensures IsClue(c) && ClueDigit(c) == x
  {
    ('0' as int + x) as char
  }

  /** The digits a string of digit characters spells. */
  function Digits(text: string): (g: seq<int>)
    requires forall i :: 0 <= i < |text| ==> IsClue(text[i])
    ensures |g| == |text| && forall i :: 0 <= i < |text| ==> 1 <= g[i] <= 9 && DigitChar(g[i]) == text[i]
  {
    seq(|text|, i requires 0 <= i < |text| => ClueDigit(text[i]))
  }

  /** Digits written back as text; anything that is not a digit is written '0', an empty square. */
  function Spelled(g: seq<int>): (text: string)
    ensures |text| == |g|
  {
    seq(|g|, i requires 0 <= i < |g| => if 1 <= g[i] <= 9 then DigitChar(g[i]) else '0')
  }

  /** Writing back the digits of a digit string gives the string. */
  lemma SpelledDigits(text: string)
    requires forall i :: 0 <= i < |text| ==> IsClue(text[i])
    ensures Spelled(Digits(text)) == text
  {
    forall i | 0 <= i < |text|
      ensures Spelled(Digits(text))[i] == text[i]
    {
      assert 1 <= Digits(text)[i] <= 9;
    }
  }

  /** Spelling goes piece by piece. */
  lemma SpelledAppend(a: seq<int>, b: seq<int>)
    ensures Spelled(a + b) == Spelled(a) + Spelled(b)
  {
    assert forall i :: 0 <= i < |b| ==> (a + b)[|a| + i] == b[i];
  }

  /** The grid characters of a text, in order; everything else is dropped. */
  function Recognized(text: string): (cells: string)
    ensures |cells| <= |text|
    ensures forall i :: 0 <= i < |cells| ==> IsGridChar(cells[i])
  {
    if text == [] then []
    else (if IsGridChar(text[0]) then [text[0]] else []) + Recognized(text[1..])
  }

  lemma {:induction false} RecognizedAppend(a: string, b: string)
    ensures Recognized(a + b) == Recognized(a) + Recognized(b)
  {
    if a == [] {
      assert a + b == b;
    } else {
      assert (a + b)[0] == a[0];
      assert (a + b)[1..] == a[1..] + b;
      RecognizedAppend(a[1..], b);
    }
  }

  /** A text made of grid characters only is read unchanged. */
  lemma {:induction false} RecognizedAll(text: string)
    requires forall i :: 0 <= i < |text| ==> IsGridChar(text[i])
    ensures Recognized(text) == text
  {
    if text != [] {
      RecognizedAll(text[1..]);
    }
  }

  /** Reading is idempotent. */
  lemma RecognizedTwice(text: string)
    ensures Recognized(Recognized(text)) == Recognized(text)
  {
    RecognizedAll(Recognized(text));
  }

  /** A character that is not a grid character can be inserted anywhere without effect. */
  lemma RecognizedIgnores(a: string, c: char, b: string)
    requires !IsGridChar(c)
    ensures Recognized(a + [c] + b) == Recognized(a + b)
  {
    RecognizedAppend(a + [c], b);
    RecognizedAppend(a, [c]);
    RecognizedAppend(a, b);
    assert Recognized([c]) == [];
  }

  /** grid_values: the 81 cells of a puzzle string in square order, or InvalidGrid. */
  function GridValues(grid: string): (r: Result<string>)
    ensures r.Ok? ==> |r.value| == 81 && forall q :: 0 <= q < 81 ==> IsGridChar(r.value[q])
    ensures r.Err? ==> r.error == InvalidGrid
  {
    var cells := Recognized(grid);
    if |cells| == 81 then Ok(cells) else Err(InvalidGrid)
  }

  /** Noise between the cells does not change what grid_values reads. */
  lemma GridValuesIgnores(a: string, c: char, b: string)
    requires !IsGridChar(c)
    ensures GridValues(a + [c] + b) == GridValues(a + b)
  {
    RecognizedIgnores(a, c, b);
  }

  /** A puzzle string of exactly 81 grid characters is read as given; any other count is refused. */
  lemma GridValuesExact(grid: string)
    ensures GridValues(grid).Ok? <==> |Recognized(grid)| == 81
    ensures GridValues(grid).Ok? ==> GridValues(grid).value == Recognized(grid)
    ensures (forall i :: 0 <= i < |grid| ==> IsGridChar(grid[i])) ==>
      (GridValues(grid).Ok? <==> |grid| == 81)
  {
    if forall i :: 0 <= i < |grid| ==> IsGridChar(grid[i]) {
      RecognizedAll(grid);
    }
  }

  // The layout of `display`: each cell is centred in a field of width 2
  // (one character, so it is followed by a single space), three cells make a
  // block, blocks are joined by '|', and bands of three rows are separated
  // by a line of dashes.

  /** The field width of a cell. */
  const Width := 2

  function Dashes(n: nat): string {
    seq(n, _ => '-')
  }

  /** The separator line: three runs of dashes, one per block, joined by '+'. */
  function Sep(): (line: string)
    ensures line == "------+------+------"
  {
    Dashes(3 * Width) + "+" + Dashes(3 * Width) + "+" + Dashes(3 * Width)
  }

  /** A one-character cell centred in a field of width 2: the extra column goes to the right. */
  function Centered(c: char): (field: string)
    ensures |field| == Width && field[0] == c && field[1] == ' '
  {
    [c, ' ']
  }

  function Block(cells: string, i: int): string
    requires 0 <= i && i + 3 <= |cells|
  {
    Centered(cells[i]) + Centered(cells[i + 1]) + Centered(cells[i + 2])
  }

  /** Position of the j-th cell of a row within its line. */
  function CellColumn(j: int): int {
    2 * j + j / 3
  }

  /** The line showing row r of the grid: 20 characters, with a '|' between blocks. */
  function RowLine(cells: string, r: int): (line: string)
    requires |cells| == 81 && 0 <= r < 9
    ensures |line| == 20
    ensures line[6] == '|' && line[13] == '|'
  {
    Block(cells, 9 * r) + "|" + Block(cells, 9 * r + 3) + "|" + Block(cells, 9 * r + 6)
  }

  /** Cell j of a row is shown at column 2j + j/3 of its line. */
  lemma RowLineCells(cells: string, r: int)
    requires |cells| == 81 && 0 <= r < 9
    ensures forall j :: 0 <= j < 9 ==> RowLine(cells, r)[CellColumn(j)] == cells[9 * r + j]
  {
  }

  /**
    * The eleven lines of the display: nine rows, with separators after rows
    * 3 and 6 only; the last line is a row line, not a separator.
    */
  function Layout(cells: string): (lines: seq<string>)
    requires |cells| == 81
    ensures |lines| == 11
    ensures lines[3] == Sep() && lines[7] == Sep() && lines[10] != Sep()
  {
    var lines := [RowLine(cells, 0), RowLine(cells, 1), RowLine(cells, 2), Sep(),
                  RowLine(cells, 3), RowLine(cells, 4), RowLine(cells, 5), Sep(),
                  RowLine(cells, 6), RowLine(cells, 7), RowLine(cells, 8)];
    assert lines[10] == RowLine(cells, 8) && lines[10][6] != Sep()[6];
    lines
  }

  /** Every line of the display other than the two separators shows one row, in order. */
  lemma LayoutRows(cells: string)
    requires |cells| == 81
    ensures forall i :: 0 <= i < 11 && i != 3 && i != 7 ==> Layout(cells)[i] == RowLine(cells, i - i / 4)
  {
  }

  /** All lines of a display, one after the other. */
  function Joined(lines: seq<string>): string {
    if lines == [] then [] else lines[0] + Joined(lines[1..])
  }

  lemma {:induction false} JoinedAppend(a: seq<string>, b: seq<string>)
    ensures Joined(a + b) == Joined(a) + Joined(b)
  {
    if a == [] {
      assert a + b == b;
    } else {
      assert (a + b)[0] == a[0];
      assert (a + b)[1..] == a[1..] + b;
      JoinedAppend(a[1..], b);
    }
  }

  lemma CenteredRecognized(c: char)
    requires IsGridChar(c)
    ensures Recognized(Centered(c)) == [c]
  {
    assert Centered(c)[1..] == [' '];
    assert Centered(c)[1..][1..] == [];
  }

  lemma BlockRecognized(cells: string, i: int)
    requires 0 <= i && i + 3 <= |cells|
    requires IsGridChar(cells[i]) && IsGridChar(cells[i + 1]) && IsGridChar(cells[i + 2])
    ensures Recognized(Block(cells, i)) == cells[i..i + 3]
  {
    CenteredRecognized(cells[i]);
    CenteredRecognized(cells[i + 1]);
    CenteredRecognized(cells[i + 2]);
    RecognizedAppend(Centered(cells[i]), Centered(cells[i + 1]));
    RecognizedAppend(Centered(cells[i]) + Centered(cells[i + 1]), Centered(cells[i + 2]));
  }

  lemma RowLineRecognized(cells: string, r: int)
    requires |cells| == 81 && 0 <= r < 9
    requires forall q :: 0 <= q < 81 ==> IsGridChar(cells[q])
    ensures Recognized(RowLine(cells, r)) == cells[9 * r..9 * r + 9]
  {
    BlockRecognized(cells, 9 * r);
    BlockRecognized(cells, 9 * r + 3);
    BlockRecognized(cells, 9 * r + 6);
    assert Recognized("|") == [];
    ReadThree(Block(cells, 9 * r), Block(cells, 9 * r + 3), Block(cells, 9 * r + 6), "|", cells, 9 * r, 3);
  }

  /** Three pieces that read as three consecutive slices of s, with noise between them, read as the whole slice. */
  lemma ReadThree(x0: string, x1: string, x2: string, sep: string, s: string, i: int, n: int)
    requires Recognized(sep) == [] && 0 <= i && 0 <= n && i + 3 * n <= |s|
    requires Recognized(x0) == s[i..i + n] && Recognized(x1) == s[i + n..i + 2 * n]
    requires Recognized(x2) == s[i + 2 * n..i + 3 * n]
    ensures Recognized(x0 + sep + x1 + sep + x2) == s[i..i + 3 * n]
  {
    RecognizedBands(x0, x1, x2, sep);
    SliceThree(s, i, n);
  }

  /** The three row lines of band b. */
  function Band(cells: string, b: int): seq<string>
    requires |cells| == 81 && 0 <= b < 3
  {
    [RowLine(cells, 3 * b), RowLine(cells, 3 * b + 1), RowLine(cells, 3 * b + 2)]
  }

  lemma RecognizedThree(a: string, b: string, c: string)
    ensures Recognized(a + b + c) == Recognized(a) + Recognized(b) + Recognized(c)
  {
    RecognizedAppend(a + b, c);
    RecognizedAppend(a, b);
  }

  lemma JoinedThree(a: string, b: string, c: string)
    ensures Joined([a, b, c]) == a + b + c
  {
    assert [a, b, c][1..] == [b, c];
    assert [b, c][1..] == [c];
    assert [c][1..] == [];
    assert Joined([c]) == c;
    assert Joined([b, c]) == b + c;
  }

  /** Noise lines between three readable pieces read as nothing. */
  lemma RecognizedBands(x0: string, x1: string, x2: string, sep: string)
    requires Recognized(sep) == []
    ensures Recognized(x0 + sep + x1 + sep + x2) == Recognized(x0) + Recognized(x1) + Recognized(x2)
  {
    RecognizedThree(x0, sep, x1);
    RecognizedThree(x0 + sep + x1, sep, x2);
  }

  lemma BandRecognized(cells: string, b: int)
    requires |cells| == 81 && 0 <= b < 3
    requires forall q :: 0 <= q < 81 ==> IsGridChar(cells[q])
    ensures Recognized(Joined(Band(cells, b))) == cells[27 * b..27 * b + 27]
  {
    BandRows(cells, b);
    ReadLines(Band(cells, b)[0], Band(cells, b)[1], Band(cells, b)[2], cells, 27 * b, 9);
    assert Band(cells, b) == [Band(cells, b)[0], Band(cells, b)[1], Band(cells, b)[2]];
  }

  /** The row lines of band b read as the three nine-cell slices of its 27 cells. */
  lemma BandRows(cells: string, b: int)
    requires |cells| == 81 && 0 <= b < 3
    requires forall q :: 0 <= q < 81 ==> IsGridChar(cells[q])
    ensures Recognized(Band(cells, b)[0]) == cells[27 * b..27 * b + 9]
    ensures Recognized(Band(cells, b)[1]) == cells[27 * b + 9..27 * b + 18]
    ensures Recognized(Band(cells, b)[2]) == cells[27 * b + 18..27 * b + 27]
  {
    RowLineRecognized(cells, 3 * b);
    RowLineRecognized(cells, 3 * b + 1);
    RowLineRecognized(cells, 3 * b + 2);
  }

  /** Three lines that read as three consecutive slices of s read, joined, as the whole slice. */
  lemma ReadLines(l0: string, l1: string, l2: string, s: string, i: int, n: int)
    requires 0 <= i && 0 <= n && i + 3 * n <= |s|
    requires Recognized(l0) == s[i..i + n] && Recognized(l1) == s[i + n..i + 2 * n]
    requires Recognized(l2) == s[i + 2 * n..i + 3 * n]
    ensures Recognized(Joined([l0, l1, l2])) == s[i..i + 3 * n]
  {
    JoinedThree(l0, l1, l2);
    RecognizedThree(l0, l1, l2);
    SliceThree(s, i, n);
  }

  lemma SliceThree(s: string, i: int, n: int)
    requires 0 <= i && 0 <= n && i + 3 * n <= |s|
    ensures s[i..i + 3 * n] == s[i..i + n] + s[i + n..i + 2 * n] + s[i + 2 * n..i + 3 * n]
  {
  }

  lemma JoinedLayout(cells: string)
    requires |cells| == 81
    ensures Joined(Layout(cells)) == Joined(Band(cells, 0)) + Sep() + Joined(Band(cells, 1)) + Sep() + Joined(Band(cells, 2))
  {
    var b0, b1, b2 := Band(cells, 0), Band(cells, 1), Band(cells, 2);
    assert Layout(cells) == b0 + [Sep()] + b1 + [Sep()] + b2;
    JoinedFive(b0, b1, b2, Sep());
  }

  lemma JoinedFive(b0: seq<string>, b1: seq<string>, b2: seq<string>, sep: string)
    ensures Joined(b0 + [sep] + b1 + [sep] + b2) == Joined(b0) + sep + Joined(b1) + sep + Joined(b2)
  {
    JoinedOne(sep);
    JoinedAppend(b0, [sep]);
    JoinedAppend(b0 + [sep], b1);
    JoinedAppend(b0 + [sep] + b1, [sep]);
    JoinedAppend(b0 + [sep] + b1 + [sep], b2);
  }

  lemma JoinedOne(line: string)
    ensures Joined([line]) == line
  {
    assert [line][1..] == [];
  }

  /**
    * Reading the display back gives the grid: the separators, bars and
    * padding are not grid characters, so only the 81 cells survive, in order.
    */
  lemma LayoutRecognized(cells: string)
    requires |cells| == 81
    requires forall q :: 0 <= q < 81 ==> IsGridChar(cells[q])
    ensures Recognized(Joined(Layout(cells))) == cells
  {
    JoinedLayout(cells);
    SepRecognized();
    BandRecognized(cells, 0);
    BandRecognized(cells, 1);
    BandRecognized(cells, 2);
    ReadBands(Joined(Band(cells, 0)), Joined(Band(cells, 1)), Joined(Band(cells, 2)), Sep(), cells);
  }

  lemma SepRecognized()
    ensures Recognized(Sep()) == []
  {
    var d := Dashes(3 * Width);
    DashesRecognized(3 * Width);
    RecognizedNone("+");
    RecognizedBands(d, d, d, "+");
  }

  lemma DashesRecognized(n: nat)
    ensures Recognized(Dashes(n)) == []
  {
    RecognizedNone(Dashes(n));
  }

  /** Three bands that read as the three thirds of the cells, with noise between them, read as the cells. */
  lemma ReadBands(j0: string, j1: string, j2: string, sep: string, cells: string)
    requires |cells| == 81 && Recognized(sep) == []
    requires Recognized(j0) == cells[0..27] && Recognized(j1) == cells[27..54] && Recognized(j2) == cells[54..81]
    ensures Recognized(j0 + sep + j1 + sep + j2) == cells
  {
    RecognizedBands(j0, j1, j2, sep);
    assert cells == cells[0..27] + cells[27..54] + cells[54..81];
  }

  /**
    * The lines display has pushed after b bands: each band's three row lines
    * followed by a separator.
    */
  function Pushed(cells: string, b: int): (lines: seq<string>)
    requires |cells| == 81 && 0 <= b <= 3
    ensures |lines| == 4 * b
  {
    if b == 0 then [] else Pushed(cells, b - 1) + Band(cells, b - 1) + [Sep()]
  }

  /** The first i + 1 row lines of band b extend its first i by row 3 * b + i. */
  lemma BandNext(cells: string, b: int, i: int)
    requires |cells| == 81 && 0 <= b < 3 && 0 <= i < 3
    ensures Band(cells, b)[..i + 1] == Band(cells, b)[..i] + [RowLine(cells, 3 * b + i)]
  {
  }

  /** After a band, display has pushed its three row lines and a separator. */
  lemma PushedNext(cells: string, b: int)
    requires |cells| == 81 && 0 <= b < 3
    ensures Pushed(cells, b + 1) == Pushed(cells, b) + Band(cells, b)[..3] + [Sep()]
  {
    assert Band(cells, b)[..3] == Band(cells, b);
  }

  /** Dropping the last separator from the pushed lines leaves the layout. */
  lemma PushedLayout(cells: string)
    requires |cells| == 81
    ensures Pushed(cells, 3)[..11] == Layout(cells)
  {
    assert Pushed(cells, 1) == Band(cells, 0) + [Sep()];
    assert Pushed(cells, 2) == Band(cells, 0) + [Sep()] + Band(cells, 1) + [Sep()];
  }

  /** A text without grid characters reads as nothing. */
  lemma {:induction false} RecognizedNone(text: string)
    requires forall i :: 0 <= i < |text| ==> !IsGridChar(text[i])
    ensures Recognized(text) == []
  {
    if text != [] {
      RecognizedNone(text[1..]);
    }
  }
}
