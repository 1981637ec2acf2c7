/**
  * The scenarios the web service's own tests exercise, stated as facts about
  * the model: the solve test's puzzle has exactly one solution, its expected
  * answer, so solving it gives exactly the expected text; a puzzle with a
  * stray character is an invalid grid; and the display test's puzzle is laid
  * out as the expected eleven lines.
  */
module Scenarios {
  import opened Topology
  import opened Candidates
  import opened Solutions
  import opened Grid
  import opened Solver

  /** The puzzle of the solve test, one row of nine cells per line. */
  const SolvePuzzle: string :=
    "700000600" +
    "060001070" +
    "804020005" +
    "000470000" +
    "089000340" +
    "000039000" +
    "600050709" +
    "010300020" +
    "003000004"

  /** The answer the solve test expects, as text. */
  const SolveText: string :=
    "791543682" +
    "562981473" +
    "834726915" +
    "356478291" +
    "289615347" +
    "147239568" +
    "628154739" +
    "415397826" +
    "973862154"

  /** The same answer as digits, row by row. */
  const SolveAnswer: seq<int> :=
    [7, 9, 1, 5, 4, 3, 6, 8, 2] +
    [5, 6, 2, 9, 8, 1, 4, 7, 3] +
    [8, 3, 4, 7, 2, 6, 9, 1, 5] +
    [3, 5, 6, 4, 7, 8, 2, 9, 1] +
    [2, 8, 9, 6, 1, 5, 3, 4, 7] +
    [1, 4, 7, 2, 3, 9, 5, 6, 8] +
    [6, 2, 8, 1, 5, 4, 7, 3, 9] +
    [4, 1, 5, 3, 9, 7, 8, 2, 6] +
    [9, 7, 3, 8, 6, 2, 1, 5, 4]

  /** The solve test's puzzle with its first clue replaced by 'X'. */
  const BadPuzzle: string :=
    "X" + ("00000600" +
     "060001070" +
     "804020005" +
     "000470000" +
     "089000340" +
     "000039000" +
     "600050709" +
     "010300020" +
     "003000004")

  /** The puzzle of the display test. */
  const DisplayPuzzle: string :=
    "309800000" +
    "000500000" +
    "250009600" +
    "480000097" +
    "700000005" +
    "930000061" +
    "008300056" +
    "000006000" +
    "000007403"

  /** The lines the display test expects. */
  const DisplayLines: seq<string> := [
    "3 0 9 |8 0 0 |0 0 0 ",
    "0 0 0 |5 0 0 |0 0 0 ",
    "2 5 0 |0 0 9 |6 0 0 ",
    "------+------+------",
    "4 8 0 |0 0 0 |0 9 7 ",
    "7 0 0 |0 0 0 |0 0 5 ",
    "9 3 0 |0 0 0 |0 6 1 ",
    "------+------+------",
    "0 0 8 |3 0 0 |0 5 6 ",
    "0 0 0 |0 0 6 |0 0 0 ",
    "0 0 0 |0 0 7 |4 0 3 "
  ]

  /**
    * Solving the solve test's puzzle gives exactly the answer the test
    * expects, which is a solution that keeps every clue.
    */
  method SolveExample() returns (r: Result<string>)
    ensures r.Ok? && |r.value| == 81 && (forall q :: 0 <= q < 81 ==> IsClue(r.value[q]))
    ensures IsSolution(Digits(r.value)) && Agrees(Digits(r.value), SolvePuzzle)
    ensures r == Ok(SolveText)
  {
    var sudoku := new Sudoku();
    SolvePuzzleRead();
    AnswerSolves();
    AnswerKeepsClues();
    assert Agrees(SolveAnswer, Recognized(SolvePuzzle));
    r := sudoku.Solve(SolvePuzzle);
    ResultCases(r);
    SolveUnique(Digits(r.value));
    SpelledDigits(r.value);
    AnswerText();
  }

  /** A stray character leaves 80 grid characters: the grid is invalid. */
  method InvalidExample() returns (r: Result<string>)
    ensures r == Err(InvalidGrid)
  {
    var sudoku := new Sudoku();
    var rest := BadPuzzle[1..];
    assert BadPuzzle == ['X'] + rest;
    RecognizedAppend(['X'], rest);
    r := sudoku.Solve(BadPuzzle);
  }

  /** The display test's puzzle is shown as the expected eleven lines. */
  method DisplayExample() returns (r: Result<seq<string>>)
    ensures r == Ok(DisplayLines)
  {
    DisplayPuzzleRead();
    DisplayLayout();
    r := Sudoku.Display(DisplayPuzzle);
  }

  /** The layout of the display test's puzzle. */
  lemma DisplayLayout()
    ensures |DisplayPuzzle| == 81 && Layout(DisplayPuzzle) == DisplayLines
  {
    DisplayRow0();
    DisplayRow1();
    DisplayRow2();
    DisplayRow3();
    DisplayRow4();
    DisplayRow5();
    DisplayRow6();
    DisplayRow7();
    DisplayRow8();
  }

  lemma DisplayRow0()
    ensures RowLine(DisplayPuzzle, 0) == "3 0 9 |8 0 0 |0 0 0 "
  {
  }

  lemma DisplayRow1()
    ensures RowLine(DisplayPuzzle, 1) == "0 0 0 |5 0 0 |0 0 0 "
  {
  }

  lemma DisplayRow2()
    ensures RowLine(DisplayPuzzle, 2) == "2 5 0 |0 0 9 |6 0 0 "
  {
  }

  lemma DisplayRow3()
    ensures RowLine(DisplayPuzzle, 3) == "4 8 0 |0 0 0 |0 9 7 "
  {
  }

  lemma DisplayRow4()
    ensures RowLine(DisplayPuzzle, 4) == "7 0 0 |0 0 0 |0 0 5 "
  {
  }

  lemma DisplayRow5()
    ensures RowLine(DisplayPuzzle, 5) == "9 3 0 |0 0 0 |0 6 1 "
  {
  }

  lemma DisplayRow6()
    ensures RowLine(DisplayPuzzle, 6) == "0 0 8 |3 0 0 |0 5 6 "
  {
  }

  lemma DisplayRow7()
    ensures RowLine(DisplayPuzzle, 7) == "0 0 0 |0 0 6 |0 0 0 "
  {
  }

  lemma DisplayRow8()
    ensures RowLine(DisplayPuzzle, 8) == "0 0 0 |0 0 7 |4 0 3 "
  {
  }

  /** Every character of the display test's puzzle is a grid character. */
  lemma DisplayPuzzleRead()
    ensures Recognized(DisplayPuzzle) == DisplayPuzzle
  {
    forall q | 0 <= q < 81
      ensures IsGridChar(DisplayPuzzle[q])
    {
      if q < 9 {
      } else if q < 18 {
      } else if q < 27 {
      } else if q < 36 {
      } else if q < 45 {
      } else if q < 54 {
      } else if q < 63 {
      } else if q < 72 {
      } else {
      }
    }
    RecognizedAll(DisplayPuzzle);
  }

  /** Every character of the solve test's puzzle is a grid character. */
  lemma SolvePuzzleRead()
    ensures Recognized(SolvePuzzle) == SolvePuzzle
  {
    forall q | 0 <= q < 81
      ensures IsGridChar(SolvePuzzle[q])
    {
      if q < 9 {
      } else if q < 18 {
      } else if q < 27 {
      } else if q < 36 {
      } else if q < 45 {
      } else if q < 54 {
      } else if q < 63 {
      } else if q < 72 {
      } else {
      }
    }
    RecognizedAll(SolvePuzzle);
  }

  /** The expected answer keeps every clue of the solve test's puzzle. */
  lemma AnswerKeepsClues()
    ensures Agrees(SolveAnswer, SolvePuzzle)
  {
    AnswerKeepsRow0();
    AnswerKeepsRow1();
    AnswerKeepsRow2();
    AnswerKeepsRow3();
    AnswerKeepsRow4();
    AnswerKeepsRow5();
    AnswerKeepsRow6();
    AnswerKeepsRow7();
    AnswerKeepsRow8();
  }

  lemma AnswerKeepsRow0()
    ensures forall q :: 0 <= q < 9 && IsClue(SolvePuzzle[q]) ==> SolveAnswer[q] == ClueDigit(SolvePuzzle[q])
  {
  }

  lemma AnswerKeepsRow1()
    ensures forall q :: 9 <= q < 18 && IsClue(SolvePuzzle[q]) ==> SolveAnswer[q] == ClueDigit(SolvePuzzle[q])
  {
  }

  lemma AnswerKeepsRow2()
    ensures forall q :: 18 <= q < 27 && IsClue(SolvePuzzle[q]) ==> SolveAnswer[q] == ClueDigit(SolvePuzzle[q])
  {
  }

  lemma AnswerKeepsRow3()
    ensures forall q :: 27 <= q < 36 && IsClue(SolvePuzzle[q]) ==> SolveAnswer[q] == ClueDigit(SolvePuzzle[q])
  {
  }

  lemma AnswerKeepsRow4()
    ensures forall q :: 36 <= q < 45 && IsClue(SolvePuzzle[q]) ==> SolveAnswer[q] == ClueDigit(SolvePuzzle[q])
  {
  }

  lemma AnswerKeepsRow5()
    ensures forall q :: 45 <= q < 54 && IsClue(SolvePuzzle[q]) ==> SolveAnswer[q] == ClueDigit(SolvePuzzle[q])
  {
  }

  lemma AnswerKeepsRow6()
    ensures forall q :: 54 <= q < 63 && IsClue(SolvePuzzle[q]) ==> SolveAnswer[q] == ClueDigit(SolvePuzzle[q])
  {
  }

  lemma AnswerKeepsRow7()
    ensures forall q :: 63 <= q < 72 && IsClue(SolvePuzzle[q]) ==> SolveAnswer[q] == ClueDigit(SolvePuzzle[q])
  {
  }

  lemma AnswerKeepsRow8()
    ensures forall q :: 72 <= q < 81 && IsClue(SolvePuzzle[q]) ==> SolveAnswer[q] == ClueDigit(SolvePuzzle[q])
  {
  }

  /** The expected answer is a solution: every unit holds each digit once. */
  lemma AnswerSolves()
    ensures IsSolution(SolveAnswer)
  {
    forall k | 0 <= k < 27
      ensures IsPermutation(UnitDigits(SolveAnswer, k))
    {
      if k == 0 {
        AnswerColumn0();
      } else if k == 1 {
        AnswerColumn1();
      } else if k == 2 {
        AnswerColumn2();
      } else if k == 3 {
        AnswerColumn3();
      } else if k == 4 {
        AnswerColumn4();
      } else if k == 5 {
        AnswerColumn5();
      } else if k == 6 {
        AnswerColumn6();
      } else if k == 7 {
        AnswerColumn7();
      } else if k == 8 {
        AnswerColumn8();
      } else if k == 9 {
        AnswerRow0();
      } else if k == 10 {
        AnswerRow1();
      } else if k == 11 {
        AnswerRow2();
      } else if k == 12 {
        AnswerRow3();
      } else if k == 13 {
        AnswerRow4();
      } else if k == 14 {
        AnswerRow5();
      } else if k == 15 {
        AnswerRow6();
      } else if k == 16 {
        AnswerRow7();
      } else if k == 17 {
        AnswerRow8();
      } else if k == 18 {
        AnswerBox0();
      } else if k == 19 {
        AnswerBox1();
      } else if k == 20 {
        AnswerBox2();
      } else if k == 21 {
        AnswerBox3();
      } else if k == 22 {
        AnswerBox4();
      } else if k == 23 {
        AnswerBox5();
      } else if k == 24 {
        AnswerBox6();
      } else if k == 25 {
        AnswerBox7();
      } else {
        AnswerBox8();
      }
    }
  }

  lemma AnswerColumn0()
    ensures IsPermutation(UnitDigits(SolveAnswer, 0))
  {
    var ds := UnitDigits(SolveAnswer, 0);
    assert ds[0] == 7 && ds[1] == 5 && ds[2] == 8 && ds[3] == 3 && ds[4] == 2 && ds[5] == 1 && ds[6] == 6 && ds[7] == 4 && ds[8] == 9;
    CoverPermutation(ds);
  }

  lemma AnswerColumn1()
    ensures IsPermutation(UnitDigits(SolveAnswer, 1))
  {
    var ds := UnitDigits(SolveAnswer, 1);
    assert ds[0] == 9 && ds[1] == 6 && ds[2] == 3 && ds[3] == 5 && ds[4] == 8 && ds[5] == 4 && ds[6] == 2 && ds[7] == 1 && ds[8] == 7;
    CoverPermutation(ds);
  }

  lemma AnswerColumn2()
    ensures IsPermutation(UnitDigits(SolveAnswer, 2))
  {
    var ds := UnitDigits(SolveAnswer, 2);
    assert ds[0] == 1 && ds[1] == 2 && ds[2] == 4 && ds[3] == 6 && ds[4] == 9 && ds[5] == 7 && ds[6] == 8 && ds[7] == 5 && ds[8] == 3;
    CoverPermutation(ds);
  }

  lemma AnswerColumn3()
    ensures IsPermutation(UnitDigits(SolveAnswer, 3))
  {
    var ds := UnitDigits(SolveAnswer, 3);
    assert ds[0] == 5 && ds[1] == 9 && ds[2] == 7 && ds[3] == 4 && ds[4] == 6 && ds[5] == 2 && ds[6] == 1 && ds[7] == 3 && ds[8] == 8;
    CoverPermutation(ds);
  }

  lemma AnswerColumn4()
    ensures IsPermutation(UnitDigits(SolveAnswer, 4))
  {
    var ds := UnitDigits(SolveAnswer, 4);
    assert ds[0] == 4 && ds[1] == 8 && ds[2] == 2 && ds[3] == 7 && ds[4] == 1 && ds[5] == 3 && ds[6] == 5 && ds[7] == 9 && ds[8] == 6;
    CoverPermutation(ds);
  }

  lemma AnswerColumn5()
    ensures IsPermutation(UnitDigits(SolveAnswer, 5))
  {
    var ds := UnitDigits(SolveAnswer, 5);
    assert ds[0] == 3 && ds[1] == 1 && ds[2] == 6 && ds[3] == 8 && ds[4] == 5 && ds[5] == 9 && ds[6] == 4 && ds[7] == 7 && ds[8] == 2;
    CoverPermutation(ds);
  }

  lemma AnswerColumn6()
    ensures IsPermutation(UnitDigits(SolveAnswer, 6))
  {
    var ds := UnitDigits(SolveAnswer, 6);
    assert ds[0] == 6 && ds[1] == 4 && ds[2] == 9 && ds[3] == 2 && ds[4] == 3 && ds[5] == 5 && ds[6] == 7 && ds[7] == 8 && ds[8] == 1;
    CoverPermutation(ds);
  }

  lemma AnswerColumn7()
    ensures IsPermutation(UnitDigits(SolveAnswer, 7))
  {
    var ds := UnitDigits(SolveAnswer, 7);
    assert ds[0] == 8 && ds[1] == 7 && ds[2] == 1 && ds[3] == 9 && ds[4] == 4 && ds[5] == 6 && ds[6] == 3 && ds[7] == 2 && ds[8] == 5;
    CoverPermutation(ds);
  }

  lemma AnswerColumn8()
    ensures IsPermutation(UnitDigits(SolveAnswer, 8))
  {
    var ds := UnitDigits(SolveAnswer, 8);
    assert ds[0] == 2 && ds[1] == 3 && ds[2] == 5 && ds[3] == 1 && ds[4] == 7 && ds[5] == 8 && ds[6] == 9 && ds[7] == 6 && ds[8] == 4;
    CoverPermutation(ds);
  }

  lemma AnswerRow0()
    ensures IsPermutation(UnitDigits(SolveAnswer, 9))
  {
    var ds := UnitDigits(SolveAnswer, 9);
    assert ds[0] == 7 && ds[1] == 9 && ds[2] == 1 && ds[3] == 5 && ds[4] == 4 && ds[5] == 3 && ds[6] == 6 && ds[7] == 8 && ds[8] == 2;
    CoverPermutation(ds);
  }

  lemma AnswerRow1()
    ensures IsPermutation(UnitDigits(SolveAnswer, 10))
  {
    var ds := UnitDigits(SolveAnswer, 10);
    assert ds[0] == 5 && ds[1] == 6 && ds[2] == 2 && ds[3] == 9 && ds[4] == 8 && ds[5] == 1 && ds[6] == 4 && ds[7] == 7 && ds[8] == 3;
    CoverPermutation(ds);
  }

  lemma AnswerRow2()
    ensures IsPermutation(UnitDigits(SolveAnswer, 11))
  {
    var ds := UnitDigits(SolveAnswer, 11);
    assert ds[0] == 8 && ds[1] == 3 && ds[2] == 4 && ds[3] == 7 && ds[4] == 2 && ds[5] == 6 && ds[6] == 9 && ds[7] == 1 && ds[8] == 5;
    CoverPermutation(ds);
  }

  lemma AnswerRow3()
    ensures IsPermutation(UnitDigits(SolveAnswer, 12))
  {
    var ds := UnitDigits(SolveAnswer, 12);
    assert ds[0] == 3 && ds[1] == 5 && ds[2] == 6 && ds[3] == 4 && ds[4] == 7 && ds[5] == 8 && ds[6] == 2 && ds[7] == 9 && ds[8] == 1;
    CoverPermutation(ds);
  }

  lemma AnswerRow4()
    ensures IsPermutation(UnitDigits(SolveAnswer, 13))
  {
    var ds := UnitDigits(SolveAnswer, 13);
    assert ds[0] == 2 && ds[1] == 8 && ds[2] == 9 && ds[3] == 6 && ds[4] == 1 && ds[5] == 5 && ds[6] == 3 && ds[7] == 4 && ds[8] == 7;
    CoverPermutation(ds);
  }

  lemma AnswerRow5()
    ensures IsPermutation(UnitDigits(SolveAnswer, 14))
  {
    var ds := UnitDigits(SolveAnswer, 14);
    assert ds[0] == 1 && ds[1] == 4 && ds[2] == 7 && ds[3] == 2 && ds[4] == 3 && ds[5] == 9 && ds[6] == 5 && ds[7] == 6 && ds[8] == 8;
    CoverPermutation(ds);
  }

  lemma AnswerRow6()
    ensures IsPermutation(UnitDigits(SolveAnswer, 15))
  {
    var ds := UnitDigits(SolveAnswer, 15);
    assert ds[0] == 6 && ds[1] == 2 && ds[2] == 8 && ds[3] == 1 && ds[4] == 5 && ds[5] == 4 && ds[6] == 7 && ds[7] == 3 && ds[8] == 9;
    CoverPermutation(ds);
  }

  lemma AnswerRow7()
    ensures IsPermutation(UnitDigits(SolveAnswer, 16))
  {
    var ds := UnitDigits(SolveAnswer, 16);
    assert ds[0] == 4 && ds[1] == 1 && ds[2] == 5 && ds[3] == 3 && ds[4] == 9 && ds[5] == 7 && ds[6] == 8 && ds[7] == 2 && ds[8] == 6;
    CoverPermutation(ds);
  }

  lemma AnswerRow8()
    ensures IsPermutation(UnitDigits(SolveAnswer, 17))
  {
    var ds := UnitDigits(SolveAnswer, 17);
    assert ds[0] == 9 && ds[1] == 7 && ds[2] == 3 && ds[3] == 8 && ds[4] == 6 && ds[5] == 2 && ds[6] == 1 && ds[7] == 5 && ds[8] == 4;
    CoverPermutation(ds);
  }

  lemma AnswerBox0()
    ensures IsPermutation(UnitDigits(SolveAnswer, 18))
  {
    var ds := UnitDigits(SolveAnswer, 18);
    assert UnitSquare(18, 0) == 0 && UnitSquare(18, 1) == 1 && UnitSquare(18, 2) == 2 && UnitSquare(18, 3) == 9 && UnitSquare(18, 4) == 10 && UnitSquare(18, 5) == 11 && UnitSquare(18, 6) == 18 && UnitSquare(18, 7) == 19 && UnitSquare(18, 8) == 20;
    assert ds[0] == 7 && ds[1] == 9 && ds[2] == 1 && ds[3] == 5 && ds[4] == 6 && ds[5] == 2 && ds[6] == 8 && ds[7] == 3 && ds[8] == 4;
    CoverPermutation(ds);
  }

  lemma AnswerBox1()
    ensures IsPermutation(UnitDigits(SolveAnswer, 19))
  {
    var ds := UnitDigits(SolveAnswer, 19);
    assert UnitSquare(19, 0) == 3 && UnitSquare(19, 1) == 4 && UnitSquare(19, 2) == 5 && UnitSquare(19, 3) == 12 && UnitSquare(19, 4) == 13 && UnitSquare(19, 5) == 14 && UnitSquare(19, 6) == 21 && UnitSquare(19, 7) == 22 && UnitSquare(19, 8) == 23;
    assert ds[0] == 5 && ds[1] == 4 && ds[2] == 3 && ds[3] == 9 && ds[4] == 8 && ds[5] == 1 && ds[6] == 7 && ds[7] == 2 && ds[8] == 6;
    CoverPermutation(ds);
  }

  lemma AnswerBox2()
    ensures IsPermutation(UnitDigits(SolveAnswer, 20))
  {
    var ds := UnitDigits(SolveAnswer, 20);
    assert UnitSquare(20, 0) == 6 && UnitSquare(20, 1) == 7 && UnitSquare(20, 2) == 8 && UnitSquare(20, 3) == 15 && UnitSquare(20, 4) == 16 && UnitSquare(20, 5) == 17 && UnitSquare(20, 6) == 24 && UnitSquare(20, 7) == 25 && UnitSquare(20, 8) == 26;
    assert ds[0] == 6 && ds[1] == 8 && ds[2] == 2 && ds[3] == 4 && ds[4] == 7 && ds[5] == 3 && ds[6] == 9 && ds[7] == 1 && ds[8] == 5;
    CoverPermutation(ds);
  }

  lemma AnswerBox3()
    ensures IsPermutation(UnitDigits(SolveAnswer, 21))
  {
    var ds := UnitDigits(SolveAnswer, 21);
    assert UnitSquare(21, 0) == 27 && UnitSquare(21, 1) == 28 && UnitSquare(21, 2) == 29 && UnitSquare(21, 3) == 36 && UnitSquare(21, 4) == 37 && UnitSquare(21, 5) == 38 && UnitSquare(21, 6) == 45 && UnitSquare(21, 7) == 46 && UnitSquare(21, 8) == 47;
    assert ds[0] == 3 && ds[1] == 5 && ds[2] == 6 && ds[3] == 2 && ds[4] == 8 && ds[5] == 9 && ds[6] == 1 && ds[7] == 4 && ds[8] == 7;
    CoverPermutation(ds);
  }

  lemma AnswerBox4()
    ensures IsPermutation(UnitDigits(SolveAnswer, 22))
  {
    var ds := UnitDigits(SolveAnswer, 22);
    assert UnitSquare(22, 0) == 30 && UnitSquare(22, 1) == 31 && UnitSquare(22, 2) == 32 && UnitSquare(22, 3) == 39 && UnitSquare(22, 4) == 40 && UnitSquare(22, 5) == 41 && UnitSquare(22, 6) == 48 && UnitSquare(22, 7) == 49 && UnitSquare(22, 8) == 50;
    assert ds[0] == 4 && ds[1] == 7 && ds[2] == 8 && ds[3] == 6 && ds[4] == 1 && ds[5] == 5 && ds[6] == 2 && ds[7] == 3 && ds[8] == 9;
    CoverPermutation(ds);
  }

  lemma AnswerBox5()
    ensures IsPermutation(UnitDigits(SolveAnswer, 23))
  {
    var ds := UnitDigits(SolveAnswer, 23);
    assert UnitSquare(23, 0) == 33 && UnitSquare(23, 1) == 34 && UnitSquare(23, 2) == 35 && UnitSquare(23, 3) == 42 && UnitSquare(23, 4) == 43 && UnitSquare(23, 5) == 44 && UnitSquare(23, 6) == 51 && UnitSquare(23, 7) == 52 && UnitSquare(23, 8) == 53;
    assert ds[0] == 2 && ds[1] == 9 && ds[2] == 1 && ds[3] == 3 && ds[4] == 4 && ds[5] == 7 && ds[6] == 5 && ds[7] == 6 && ds[8] == 8;
    CoverPermutation(ds);
  }

  lemma AnswerBox6()
    ensures IsPermutation(UnitDigits(SolveAnswer, 24))
  {
    var ds := UnitDigits(SolveAnswer, 24);
    assert UnitSquare(24, 0) == 54 && UnitSquare(24, 1) == 55 && UnitSquare(24, 2) == 56 && UnitSquare(24, 3) == 63 && UnitSquare(24, 4) == 64 && UnitSquare(24, 5) == 65 && UnitSquare(24, 6) == 72 && UnitSquare(24, 7) == 73 && UnitSquare(24, 8) == 74;
    assert ds[0] == 6 && ds[1] == 2 && ds[2] == 8 && ds[3] == 4 && ds[4] == 1 && ds[5] == 5 && ds[6] == 9 && ds[7] == 7 && ds[8] == 3;
    CoverPermutation(ds);
  }

  lemma AnswerBox7()
    ensures IsPermutation(UnitDigits(SolveAnswer, 25))
  {
    var ds := UnitDigits(SolveAnswer, 25);
    assert UnitSquare(25, 0) == 57 && UnitSquare(25, 1) == 58 && UnitSquare(25, 2) == 59 && UnitSquare(25, 3) == 66 && UnitSquare(25, 4) == 67 && UnitSquare(25, 5) == 68 && UnitSquare(25, 6) == 75 && UnitSquare(25, 7) == 76 && UnitSquare(25, 8) == 77;
    assert ds[0] == 1 && ds[1] == 5 && ds[2] == 4 && ds[3] == 3 && ds[4] == 9 && ds[5] == 7 && ds[6] == 8 && ds[7] == 6 && ds[8] == 2;
    CoverPermutation(ds);
  }

  lemma AnswerBox8()
    ensures IsPermutation(UnitDigits(SolveAnswer, 26))
  {
    var ds := UnitDigits(SolveAnswer, 26);
    assert UnitSquare(26, 0) == 60 && UnitSquare(26, 1) == 61 && UnitSquare(26, 2) == 62 && UnitSquare(26, 3) == 69 && UnitSquare(26, 4) == 70 && UnitSquare(26, 5) == 71 && UnitSquare(26, 6) == 78 && UnitSquare(26, 7) == 79 && UnitSquare(26, 8) == 80;
    assert ds[0] == 7 && ds[1] == 3 && ds[2] == 9 && ds[3] == 8 && ds[4] == 2 && ds[5] == 6 && ds[6] == 1 && ds[7] == 5 && ds[8] == 4;
    CoverPermutation(ds);
  }

  /**
    * The clues of the solve test's puzzle, read off square by square. What
    * follows derives every other square of a solution keeping them, one
    * deduction at a time: a square whose peers already hold eight different
    * digits holds the ninth, and a digit that every square of a unit but one
    * is excluded from (by holding another digit or by having a peer that
    * holds it) sits on that one square.
    */
  predicate HoldsSolveClues(g: seq<int>) {
    |g| == 81
    && g[0] == 7 && g[6] == 6 && g[10] == 6 && g[14] == 1 && g[16] == 7 && g[18] == 8 && g[20] == 4 && g[22] == 2 && g[26] == 5
    && g[30] == 4 && g[31] == 7 && g[37] == 8 && g[38] == 9 && g[42] == 3 && g[43] == 4 && g[49] == 3 && g[50] == 9 && g[54] == 6
    && g[58] == 5 && g[60] == 7 && g[62] == 9 && g[64] == 1 && g[66] == 3 && g[70] == 2 && g[74] == 3 && g[80] == 4
  }

  /** A grid keeping the clues of the solve test's puzzle holds them square by square. */
  lemma SolveClues(g: seq<int>)
    requires Agrees(g, SolvePuzzle)
    ensures HoldsSolveClues(g)
  {
  }

  /** The deductions the clues allow straight away. */
  lemma SolveFirst(g: seq<int>)
    requires IsSolution(g) && HoldsSolveClues(g)
    ensures g[15] == 4 && g[44] == 7 && g[61] == 3 && g[2] == 1 && g[57] == 1 && g[40] == 1
  {
    assert g[15] == 4 by {
      ColumnHas(g, 6, 4);
      SolutionApart(g, 24, 20);
      SolutionApart(g, 33, 30);
      SolutionApart(g, 51, 43);
      SolutionApart(g, 69, 80);
      SolutionApart(g, 78, 80);
    }
    assert g[44] == 7 by {
      RowHas(g, 4, 7);
      SolutionApart(g, 36, 0);
      SolutionApart(g, 39, 31);
      SolutionApart(g, 40, 31);
      SolutionApart(g, 41, 31);
    }
    assert g[61] == 3 by {
      RowHas(g, 6, 3);
      SolutionApart(g, 55, 74);
      SolutionApart(g, 56, 74);
      SolutionApart(g, 57, 66);
      SolutionApart(g, 59, 66);
    }
    assert g[2] == 1 by {
      BoxHas(g, 0, 1);
      SolutionApart(g, 1, 64);
      SolutionApart(g, 9, 14);
      SolutionApart(g, 11, 14);
      SolutionApart(g, 19, 64);
    }
    assert g[57] == 1 by {
      RowHas(g, 6, 1);
      SolutionApart(g, 55, 64);
      SolutionApart(g, 56, 2);
      SolutionApart(g, 59, 14);
    }
    assert g[40] == 1 by {
      BoxHas(g, 4, 1);
      SolutionApart(g, 32, 14);
      SolutionApart(g, 39, 57);
      SolutionApart(g, 41, 14);
      SolutionApart(g, 48, 57);
    }
  }

  /** Square 19 cannot hold 9: that leaves square 25 no digit. */
  lemma SolveNotNine(g: seq<int>)
    requires IsSolution(g) && HoldsSolveClues(g)
    ensures g[19] != 9
  {
    SolveFirst(g);
    if g[19] == 9 {
      assert g[24] == 1 by {
        SolutionDigit(g, 24);
        SolutionApart(g, 24, 22);
        SolutionApart(g, 24, 42);
        SolutionApart(g, 24, 15);
        SolutionApart(g, 24, 26);
        SolutionApart(g, 24, 6);
        SolutionApart(g, 24, 16);
        SolutionApart(g, 24, 18);
        SolutionApart(g, 24, 19);
      }
      SolutionDigit(g, 25);
      SolutionApart(g, 25, 24);
      SolutionApart(g, 25, 22);
      SolutionApart(g, 25, 61);
      SolutionApart(g, 25, 15);
      SolutionApart(g, 25, 26);
      SolutionApart(g, 25, 6);
      SolutionApart(g, 25, 16);
      SolutionApart(g, 25, 18);
      SolutionApart(g, 25, 19);
      assert false;
    }
  }

  /** The one case split: square 19 holds 3 or 9, and 9 is ruled out. */
  lemma SolveSplit(g: seq<int>)
    requires IsSolution(g) && HoldsSolveClues(g)
    ensures g[19] == 3
  {
    SolveFirst(g);
    SolutionDigit(g, 19);
    SolutionApart(g, 19, 2);
    SolutionApart(g, 19, 22);
    SolutionApart(g, 19, 20);
    SolutionApart(g, 19, 26);
    SolutionApart(g, 19, 10);
    SolutionApart(g, 19, 0);
    SolutionApart(g, 19, 18);
    SolveNotNine(g);
  }

  /** Further deductions once square 19 holds 3 (part 1). */
  lemma SolveRest0(g: seq<int>)
    requires IsSolution(g) && HoldsSolveClues(g)
    ensures g[27] == 3 && g[5] == 3 && g[17] == 3 && g[4] == 4 && g[8] == 2 && g[7] == 8 && g[45] == 1 && g[46] == 4 && g[47] == 7
    ensures g[63] == 4 && g[73] == 7 && g[72] == 9
  {
    SolveFirst(g);
    SolveSplit(g);
    assert g[27] == 3 by {
      ColumnHas(g, 0, 3);
      SolutionApart(g, 9, 19);
      SolutionApart(g, 36, 42);
      SolutionApart(g, 45, 49);
      SolutionApart(g, 63, 66);
      SolutionApart(g, 72, 74);
    }
    assert g[5] == 3 by {
      ColumnHas(g, 5, 3);
      SolutionApart(g, 23, 19);
      SolutionApart(g, 32, 27);
      SolutionApart(g, 41, 42);
      SolutionApart(g, 59, 61);
      SolutionApart(g, 68, 66);
      SolutionApart(g, 77, 66);
    }
    assert g[17] == 3 by {
      ColumnHas(g, 8, 3);
      SolutionApart(g, 8, 5);
      SolutionApart(g, 35, 27);
      SolutionApart(g, 53, 42);
      SolutionApart(g, 71, 61);
    }
    assert g[4] == 4 by {
      RowHas(g, 0, 4);
      SolutionApart(g, 1, 20);
      SolutionApart(g, 3, 30);
      SolutionApart(g, 7, 15);
      SolutionApart(g, 8, 15);
    }
    assert g[8] == 2 by {
      BoxHas(g, 2, 2);
      SolutionApart(g, 7, 70);
      SolutionApart(g, 24, 22);
      SolutionApart(g, 25, 22);
    }
    assert g[7] == 8 by {
      BoxHas(g, 2, 8);
      SolutionApart(g, 24, 18);
      SolutionApart(g, 25, 18);
    }
    assert g[45] == 1 by {
      BoxHas(g, 3, 1);
      SolutionApart(g, 28, 64);
      SolutionApart(g, 29, 2);
      SolutionApart(g, 36, 40);
      SolutionApart(g, 46, 64);
      SolutionApart(g, 47, 2);
    }
    assert g[46] == 4 by {
      BoxHas(g, 3, 4);
      SolutionApart(g, 28, 30);
      SolutionApart(g, 29, 20);
      SolutionApart(g, 36, 43);
      SolutionApart(g, 47, 20);
    }
    assert g[47] == 7 by {
      BoxHas(g, 3, 7);
      SolutionApart(g, 28, 31);
      SolutionApart(g, 29, 31);
      SolutionApart(g, 36, 0);
    }
    assert g[63] == 4 by {
      BoxHas(g, 6, 4);
      SolutionApart(g, 55, 46);
      SolutionApart(g, 56, 20);
      SolutionApart(g, 65, 20);
      SolutionApart(g, 72, 80);
      SolutionApart(g, 73, 46);
    }
    assert g[73] == 7 by {
      BoxHas(g, 6, 7);
      SolutionApart(g, 55, 60);
      SolutionApart(g, 56, 47);
      SolutionApart(g, 65, 47);
      SolutionApart(g, 72, 0);
    }
    assert g[72] == 9 by {
      BoxHas(g, 6, 9);
      SolutionApart(g, 55, 62);
      SolutionApart(g, 56, 38);
      SolutionApart(g, 65, 38);
    }
  }

  /** Further deductions once square 19 holds 3 (part 2). */
  lemma SolveRest1(g: seq<int>)
    requires IsSolution(g) && HoldsSolveClues(g)
    ensures g[59] == 4 && g[68] == 7 && g[67] == 9 && g[13] == 8 && g[23] == 6 && g[55] == 2 && g[56] == 8 && g[65] == 5 && g[69] == 8
    ensures g[71] == 6 && g[76] == 6 && g[1] == 9
  {
    SolveFirst(g);
    SolveSplit(g);
    SolveRest0(g);
    assert g[59] == 4 by {
      BoxHas(g, 7, 4);
      SolutionApart(g, 67, 4);
      SolutionApart(g, 68, 63);
      SolutionApart(g, 75, 30);
      SolutionApart(g, 76, 4);
      SolutionApart(g, 77, 80);
    }
    assert g[68] == 7 by {
      BoxHas(g, 7, 7);
      SolutionApart(g, 67, 31);
      SolutionApart(g, 75, 73);
      SolutionApart(g, 76, 31);
      SolutionApart(g, 77, 73);
    }
    assert g[67] == 9 by {
      BoxHas(g, 7, 9);
      SolutionApart(g, 75, 72);
      SolutionApart(g, 76, 72);
      SolutionApart(g, 77, 50);
    }
    assert g[13] == 8 by {
      SolutionDigit(g, 13);
      SolutionApart(g, 13, 14);
      SolutionApart(g, 13, 22);
      SolutionApart(g, 13, 5);
      SolutionApart(g, 13, 4);
      SolutionApart(g, 13, 58);
      SolutionApart(g, 13, 10);
      SolutionApart(g, 13, 16);
      SolutionApart(g, 13, 67);
    }
    assert g[23] == 6 by {
      SolutionDigit(g, 23);
      SolutionApart(g, 23, 14);
      SolutionApart(g, 23, 22);
      SolutionApart(g, 23, 5);
      SolutionApart(g, 23, 4);
      SolutionApart(g, 23, 26);
      SolutionApart(g, 23, 68);
      SolutionApart(g, 23, 13);
      SolutionApart(g, 23, 50);
    }
    assert g[55] == 2 by {
      SolutionDigit(g, 55);
      SolutionApart(g, 55, 57);
      SolutionApart(g, 55, 19);
      SolutionApart(g, 55, 46);
      SolutionApart(g, 55, 58);
      SolutionApart(g, 55, 10);
      SolutionApart(g, 55, 60);
      SolutionApart(g, 55, 37);
      SolutionApart(g, 55, 62);
    }
    assert g[56] == 8 by {
      SolutionDigit(g, 56);
      SolutionApart(g, 56, 2);
      SolutionApart(g, 56, 55);
      SolutionApart(g, 56, 61);
      SolutionApart(g, 56, 20);
      SolutionApart(g, 56, 58);
      SolutionApart(g, 56, 54);
      SolutionApart(g, 56, 47);
      SolutionApart(g, 56, 38);
    }
    assert g[65] == 5 by {
      SolutionDigit(g, 65);
      SolutionApart(g, 65, 2);
      SolutionApart(g, 65, 55);
      SolutionApart(g, 65, 66);
      SolutionApart(g, 65, 20);
      SolutionApart(g, 65, 54);
      SolutionApart(g, 65, 47);
      SolutionApart(g, 65, 56);
      SolutionApart(g, 65, 38);
    }
    assert g[69] == 8 by {
      SolutionDigit(g, 69);
      SolutionApart(g, 69, 64);
      SolutionApart(g, 69, 70);
      SolutionApart(g, 69, 42);
      SolutionApart(g, 69, 15);
      SolutionApart(g, 69, 65);
      SolutionApart(g, 69, 6);
      SolutionApart(g, 69, 60);
      SolutionApart(g, 69, 62);
    }
    assert g[71] == 6 by {
      SolutionDigit(g, 71);
      SolutionApart(g, 71, 64);
      SolutionApart(g, 71, 8);
      SolutionApart(g, 71, 17);
      SolutionApart(g, 71, 63);
      SolutionApart(g, 71, 26);
      SolutionApart(g, 71, 44);
      SolutionApart(g, 71, 69);
      SolutionApart(g, 71, 62);
    }
    assert g[76] == 6 by {
      SolutionDigit(g, 76);
      SolutionApart(g, 76, 40);
      SolutionApart(g, 76, 22);
      SolutionApart(g, 76, 49);
      SolutionApart(g, 76, 4);
      SolutionApart(g, 76, 58);
      SolutionApart(g, 76, 31);
      SolutionApart(g, 76, 13);
      SolutionApart(g, 76, 67);
    }
    assert g[1] == 9 by {
      ColumnHas(g, 1, 9);
      SolutionApart(g, 28, 38);
    }
  }

  /** Further deductions once square 19 holds 3 (part 3). */
  lemma SolveRest2(g: seq<int>)
    requires IsSolution(g) && HoldsSolveClues(g)
    ensures g[29] == 6 && g[21] == 7 && g[12] == 9 && g[52] == 6 && g[35] == 1 && g[53] == 8 && g[3] == 5 && g[9] == 5 && g[32] == 8
    ensures g[41] == 5 && g[39] == 6 && g[51] == 5
  {
    SolveFirst(g);
    SolveSplit(g);
    SolveRest0(g);
    SolveRest1(g);
    assert g[29] == 6 by {
      ColumnHas(g, 2, 6);
      SolutionApart(g, 11, 10);
    }
    assert g[21] == 7 by {
      ColumnHas(g, 3, 7);
      SolutionApart(g, 3, 0);
      SolutionApart(g, 12, 16);
      SolutionApart(g, 39, 31);
      SolutionApart(g, 48, 31);
      SolutionApart(g, 75, 68);
    }
    assert g[12] == 9 by {
      ColumnHas(g, 3, 9);
      SolutionApart(g, 3, 1);
      SolutionApart(g, 39, 38);
      SolutionApart(g, 48, 50);
      SolutionApart(g, 75, 67);
    }
    assert g[52] == 6 by {
      ColumnHas(g, 7, 6);
      SolutionApart(g, 25, 6);
      SolutionApart(g, 34, 29);
      SolutionApart(g, 79, 71);
    }
    assert g[35] == 1 by {
      ColumnHas(g, 8, 1);
      SolutionApart(g, 53, 45);
    }
    assert g[53] == 8 by {
      ColumnHas(g, 8, 8);
    }
    assert g[3] == 5 by {
      RowHas(g, 0, 5);
    }
    assert g[9] == 5 by {
      RowHas(g, 1, 5);
      SolutionApart(g, 11, 65);
    }
    assert g[32] == 8 by {
      RowHas(g, 3, 8);
      SolutionApart(g, 28, 37);
      SolutionApart(g, 33, 53);
      SolutionApart(g, 34, 7);
    }
    assert g[41] == 5 by {
      RowHas(g, 4, 5);
      SolutionApart(g, 36, 9);
      SolutionApart(g, 39, 3);
    }
    assert g[39] == 6 by {
      RowHas(g, 4, 6);
      SolutionApart(g, 36, 29);
    }
    assert g[51] == 5 by {
      RowHas(g, 5, 5);
      SolutionApart(g, 48, 3);
    }
  }

  /** Further deductions once square 19 holds 3 (part 4). */
  lemma SolveRest3(g: seq<int>)
    requires IsSolution(g) && HoldsSolveClues(g)
    ensures g[79] == 5 && g[75] == 8 && g[11] == 2 && g[36] == 2 && g[28] == 5 && g[48] == 2 && g[33] == 2 && g[34] == 9 && g[77] == 2
    ensures g[78] == 1 && g[24] == 9 && g[25] == 1
  {
    SolveFirst(g);
    SolveSplit(g);
    SolveRest0(g);
    SolveRest1(g);
    SolveRest2(g);
    assert g[79] == 5 by {
      RowHas(g, 8, 5);
      SolutionApart(g, 75, 3);
      SolutionApart(g, 77, 41);
      SolutionApart(g, 78, 51);
    }
    assert g[75] == 8 by {
      RowHas(g, 8, 8);
      SolutionApart(g, 77, 32);
      SolutionApart(g, 78, 69);
    }
    assert g[11] == 2 by {
      BoxHas(g, 0, 2);
    }
    assert g[36] == 2 by {
      BoxHas(g, 3, 2);
      SolutionApart(g, 28, 55);
    }
    assert g[28] == 5 by {
      BoxHas(g, 3, 5);
    }
    assert g[48] == 2 by {
      BoxHas(g, 4, 2);
    }
    assert g[33] == 2 by {
      BoxHas(g, 5, 2);
      SolutionApart(g, 34, 70);
    }
    assert g[34] == 9 by {
      BoxHas(g, 5, 9);
    }
    assert g[77] == 2 by {
      BoxHas(g, 7, 2);
    }
    assert g[78] == 1 by {
      BoxHas(g, 8, 1);
    }
    assert g[24] == 9 by {
      SolutionDigit(g, 24);
      SolutionApart(g, 24, 78);
      SolutionApart(g, 24, 8);
      SolutionApart(g, 24, 17);
      SolutionApart(g, 24, 15);
      SolutionApart(g, 24, 26);
      SolutionApart(g, 24, 6);
      SolutionApart(g, 24, 16);
      SolutionApart(g, 24, 7);
    }
    assert g[25] == 1 by {
      SolutionDigit(g, 25);
      SolutionApart(g, 25, 8);
      SolutionApart(g, 25, 17);
      SolutionApart(g, 25, 15);
      SolutionApart(g, 25, 26);
      SolutionApart(g, 25, 6);
      SolutionApart(g, 25, 16);
      SolutionApart(g, 25, 7);
      SolutionApart(g, 25, 24);
    }
  }

  /** The solve test's puzzle has exactly one solution: the expected answer. */
  lemma SolveUnique(g: seq<int>)
    requires IsSolution(g) && Agrees(g, SolvePuzzle)
    ensures g == SolveAnswer
  {
    SolveClues(g);
    SolveAll(g);
  }

  /** Every square, and hence the whole grid, is determined by the clues. */
  lemma SolveAll(g: seq<int>)
    requires IsSolution(g) && HoldsSolveClues(g)
    ensures g == SolveAnswer
  {
    SolveFirst(g);
    SolveSplit(g);
    SolveRest0(g);
    SolveRest1(g);
    SolveRest2(g);
    SolveRest3(g);
    assert g[0..9] == [7, 9, 1, 5, 4, 3, 6, 8, 2];
    assert g[9..18] == [5, 6, 2, 9, 8, 1, 4, 7, 3];
    assert g[18..27] == [8, 3, 4, 7, 2, 6, 9, 1, 5];
    assert g[27..36] == [3, 5, 6, 4, 7, 8, 2, 9, 1];
    assert g[36..45] == [2, 8, 9, 6, 1, 5, 3, 4, 7];
    assert g[45..54] == [1, 4, 7, 2, 3, 9, 5, 6, 8];
    assert g[54..63] == [6, 2, 8, 1, 5, 4, 7, 3, 9];
    assert g[63..72] == [4, 1, 5, 3, 9, 7, 8, 2, 6];
    assert g[72..81] == [9, 7, 3, 8, 6, 2, 1, 5, 4];
    assert g == g[0..9] + g[9..18] + g[18..27] + g[27..36] + g[36..45] + g[45..54] + g[54..63] + g[63..72] + g[72..81];
  }

  /** The expected answer, written back as text, is the text the solve test expects. */
  lemma AnswerText()
    ensures Spelled(SolveAnswer) == SolveText
  {
    SpelledAppend([7, 9, 1, 5, 4, 3, 6, 8, 2], [5, 6, 2, 9, 8, 1, 4, 7, 3]);
    SpelledAppend([7, 9, 1, 5, 4, 3, 6, 8, 2] + [5, 6, 2, 9, 8, 1, 4, 7, 3], [8, 3, 4, 7, 2, 6, 9, 1, 5]);
    SpelledAppend([7, 9, 1, 5, 4, 3, 6, 8, 2] + [5, 6, 2, 9, 8, 1, 4, 7, 3] + [8, 3, 4, 7, 2, 6, 9, 1, 5], [3, 5, 6, 4, 7, 8, 2, 9, 1]);
    SpelledAppend([7, 9, 1, 5, 4, 3, 6, 8, 2] + [5, 6, 2, 9, 8, 1, 4, 7, 3] + [8, 3, 4, 7, 2, 6, 9, 1, 5] + [3, 5, 6, 4, 7, 8, 2, 9, 1], [2, 8, 9, 6, 1, 5, 3, 4, 7]);
    SpelledAppend([7, 9, 1, 5, 4, 3, 6, 8, 2] + [5, 6, 2, 9, 8, 1, 4, 7, 3] + [8, 3, 4, 7, 2, 6, 9, 1, 5] + [3, 5, 6, 4, 7, 8, 2, 9, 1] + [2, 8, 9, 6, 1, 5, 3, 4, 7], [1, 4, 7, 2, 3, 9, 5, 6, 8]);
    SpelledAppend([7, 9, 1, 5, 4, 3, 6, 8, 2] + [5, 6, 2, 9, 8, 1, 4, 7, 3] + [8, 3, 4, 7, 2, 6, 9, 1, 5] + [3, 5, 6, 4, 7, 8, 2, 9, 1] + [2, 8, 9, 6, 1, 5, 3, 4, 7] + [1, 4, 7, 2, 3, 9, 5, 6, 8], [6, 2, 8, 1, 5, 4, 7, 3, 9]);
    SpelledAppend([7, 9, 1, 5, 4, 3, 6, 8, 2] + [5, 6, 2, 9, 8, 1, 4, 7, 3] + [8, 3, 4, 7, 2, 6, 9, 1, 5] + [3, 5, 6, 4, 7, 8, 2, 9, 1] + [2, 8, 9, 6, 1, 5, 3, 4, 7] + [1, 4, 7, 2, 3, 9, 5, 6, 8] + [6, 2, 8, 1, 5, 4, 7, 3, 9], [4, 1, 5, 3, 9, 7, 8, 2, 6]);
    SpelledAppend([7, 9, 1, 5, 4, 3, 6, 8, 2] + [5, 6, 2, 9, 8, 1, 4, 7, 3] + [8, 3, 4, 7, 2, 6, 9, 1, 5] + [3, 5, 6, 4, 7, 8, 2, 9, 1] + [2, 8, 9, 6, 1, 5, 3, 4, 7] + [1, 4, 7, 2, 3, 9, 5, 6, 8] + [6, 2, 8, 1, 5, 4, 7, 3, 9] + [4, 1, 5, 3, 9, 7, 8, 2, 6], [9, 7, 3, 8, 6, 2, 1, 5, 4]);
    assert Spelled([7, 9, 1, 5, 4, 3, 6, 8, 2]) == "791543682";
    assert Spelled([5, 6, 2, 9, 8, 1, 4, 7, 3]) == "562981473";
    assert Spelled([8, 3, 4, 7, 2, 6, 9, 1, 5]) == "834726915";
    assert Spelled([3, 5, 6, 4, 7, 8, 2, 9, 1]) == "356478291";
    assert Spelled([2, 8, 9, 6, 1, 5, 3, 4, 7]) == "289615347";
    assert Spelled([1, 4, 7, 2, 3, 9, 5, 6, 8]) == "147239568";
    assert Spelled([6, 2, 8, 1, 5, 4, 7, 3, 9]) == "628154739";
    assert Spelled([4, 1, 5, 3, 9, 7, 8, 2, 6]) == "415397826";
    assert Spelled([9, 7, 3, 8, 6, 2, 1, 5, 4]) == "973862154";
  }
}
