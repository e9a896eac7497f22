/**
 * The fixture boards of tests/1_unit-tests.js and tests/2_functional-tests.js
 * and what the model answers for them. Each board is written row by row.
 */
module Fixtures {
  import opened Options
  import opened Grid
  import opened SudokuSolver
  import opened Api

  const ValidPuzzle :=
    "1.5..2.84" + "..63.12.7" + ".2..5...." + ".9..1...." + "8.2.3674." +
    "3.7.2..9." + "47...8..1" + "..16....9" + "26914.37."

  const SolvedPuzzle :=
    "135762984" + "946381257" + "728459613" + "694517832" + "812936745" +
    "357824196" + "473298561" + "581673429" + "269145378"

  /** The valid puzzle with an 'X' at index 79. */
  const BadCharPuzzle :=
    "1.5..2.84" + "..63.12.7" + ".2..5...." + ".9..1...." + "8.2.3674." +
    "3.7.2..9." + "47...8..1" + "..16....9" + "26914.3X."

  /** The valid puzzle without its last two characters. */
  const ShortPuzzle :=
    "1.5..2.84" + "..63.12.7" + ".2..5...." + ".9..1...." + "8.2.3674." +
    "3.7.2..9." + "47...8..1" + "..16....9" + "26914.3"

  /** The valid puzzle with a second '1' in row A. */
  const DuplicatePuzzle :=
    "115..2.84" + "..63.12.7" + ".2..5...." + ".9..1...." + "8.2.3674." +
    "3.7.2..9." + "47...8..1" + "..16....9" + "26914.37."

  lemma ValidPuzzleWellFormed()
    ensures WellFormed(ValidPuzzle)
  {
    forall k | 0 <= k < Cells ensures IsPuzzleChar(ValidPuzzle[k]) {
      if k < 27 {} else if k < 54 {} else {}
    }
  }

  /** The three validation outcomes of the unit tests. */
  lemma ValidationFixtures()
    ensures Validate(Some(ValidPuzzle)) == Valid
    ensures Validate(Some(BadCharPuzzle)) == Invalid(CharacterError)
    ensures Validate(Some(ShortPuzzle)) == Invalid(LengthError)
  {
    ValidPuzzleWellFormed();
    assert !IsPuzzleChar(BadCharPuzzle[79]);
  }

  /** The row scan at row 1 of the valid puzzle: 3 is allowed, 1 is not. */
  lemma RowPlacementFixtures()
    ensures RowAllows(ValidPuzzle, 1, '3') && !RowAllows(ValidPuzzle, 1, '1')
  {
    assert ValidPuzzle[..9] == "1.5..2.84";
    forall k | 0 <= k < 9 ensures !Holds(ValidPuzzle, RowCell(1, k), '3') {
      assert ValidPuzzle[RowCell(1, k)] == ValidPuzzle[..9][k];
    }
    assert Holds(ValidPuzzle, RowCell(1, 0), '1');
  }

  /** The column scan at column 2 of the valid puzzle: 3 is allowed, 6 is not. */
  lemma ColumnPlacementFixtures()
    ensures ColumnAllows(ValidPuzzle, 2, '3') && !ColumnAllows(ValidPuzzle, 2, '6')
  {
    forall k | 0 <= k < 9 ensures !Holds(ValidPuzzle, ColumnCell(2, k), '3') {
      assert k == 0 || k == 1 || k == 2 || k == 3 || k == 4 || k == 5 || k == 6 || k == 7 || k == 8;
    }
    assert Holds(ValidPuzzle, ColumnCell(2, 8), '6');
  }

  /** The region scan at row 1, column 2 of the valid puzzle: 3 is allowed, 1 is not. */
  lemma RegionPlacementFixtures()
    ensures RegionAllows(ValidPuzzle, 1, 2, '3') && !RegionAllows(ValidPuzzle, 1, 2, '1')
  {
    forall r, c | BlockStart(1) <= r < BlockStart(1) + 3 && BlockStart(2) <= c < BlockStart(2) + 3
      ensures !Holds(ValidPuzzle, Index(r, c), '3')
    {
      assert r == 0 || r == 1 || r == 2;
      assert c == 0 || c == 1 || c == 2;
    }
    assert Holds(ValidPuzzle, Index(0, 0), '1');
  }

  lemma PlacementFixtures()
    ensures RowAllows(ValidPuzzle, 1, '3') && !RowAllows(ValidPuzzle, 1, '1')
    ensures ColumnAllows(ValidPuzzle, 2, '3') && !ColumnAllows(ValidPuzzle, 2, '6')
    ensures RegionAllows(ValidPuzzle, 1, 2, '3') && !RegionAllows(ValidPuzzle, 1, 2, '1')
  {
    RowPlacementFixtures();
    ColumnPlacementFixtures();
    RegionPlacementFixtures();
  }

  /** `/api/check` with A2 = 3: no conflict. */
  lemma CheckAcceptsFixture()
    ensures Check(Some(ValidPuzzle), Some("A2"), Some("3")) == CheckValid
  {
    ValidationFixtures();
    FixtureCells();
    PlacementFixtures();
  }

  /** A2 names the empty cell 1; B1 names the empty cell 9. */
  lemma FixtureCells()
    ensures IsCoordinate("A2") && RowNumber("A2") == 1 && ColumnNumber("A2") == 2 && ValidPuzzle[1] == Empty
    ensures IsCoordinate("B1") && RowNumber("B1") == 2 && ColumnNumber("B1") == 1 && ValidPuzzle[9] == Empty
  {
  }

  /** At A2, a 1 is already in the row and in the region, not in the column. */
  lemma ConflictsA2One()
    ensures Conflicts(ValidPuzzle, 1, 2, '1') == [RowConflict, RegionConflict]
  {
    RowPlacementFixtures();
    RegionPlacementFixtures();
    ColumnTwoAllowsOne();
  }

  lemma ColumnTwoAllowsOne()
    ensures ColumnAllows(ValidPuzzle, 2, '1')
  {
    forall k | 0 <= k < 9 ensures !Holds(ValidPuzzle, ColumnCell(2, k), '1') {
      assert k == 0 || k == 1 || k == 2 || k == 3 || k == 4 || k == 5 || k == 6 || k == 7 || k == 8;
    }
  }

  /** At A2, a 2 is already in the row, the column and the region. */
  lemma ConflictsA2Two()
    ensures Conflicts(ValidPuzzle, 1, 2, '2') == [RowConflict, ColumnConflict, RegionConflict]
  {
    assert Holds(ValidPuzzle, RowCell(1, 5), '2');
    assert Holds(ValidPuzzle, ColumnCell(2, 2), '2');
    assert Holds(ValidPuzzle, Index(2, 1), '2');
  }

  /** At B1, a 1 is already in the row, the column and the region. */
  lemma ConflictsB1One()
    ensures Conflicts(ValidPuzzle, 2, 1, '1') == [RowConflict, ColumnConflict, RegionConflict]
  {
    assert Holds(ValidPuzzle, RowCell(2, 5), '1');
    assert Holds(ValidPuzzle, ColumnCell(1, 0), '1');
    assert Holds(ValidPuzzle, Index(0, 0), '1');
  }

  /** `/api/check` with A2 = 1: the conflict list names the row (and the region). */
  lemma CheckSingleRowConflictFixture()
    ensures Check(Some(ValidPuzzle), Some("A2"), Some("1")) == CheckConflict([RowConflict, RegionConflict])
  {
    ValidationFixtures();
    FixtureCells();
    ConflictsA2One();
  }

  /** `/api/check` with A2 = 2: at least two conflicts (all three). */
  lemma CheckMultipleConflictsFixture()
    ensures Check(Some(ValidPuzzle), Some("A2"), Some("2")) ==
      CheckConflict([RowConflict, ColumnConflict, RegionConflict])
  {
    ValidationFixtures();
    FixtureCells();
    ConflictsA2Two();
  }

  /** `/api/check` with B1 = 1: all three conflicts. */
  lemma CheckAllConflictsFixture()
    ensures Check(Some(ValidPuzzle), Some("B1"), Some("1")) ==
      CheckConflict([RowConflict, ColumnConflict, RegionConflict])
  {
    ValidationFixtures();
    FixtureCells();
    ConflictsB1One();
  }

  /** The `/api/check` requests of the functional tests that stop at a guard. */
  lemma CheckGuardFixtures()
    ensures Check(Some(ValidPuzzle), Some("A2"), None) == CheckError(MissingFields)
    ensures Check(Some(BadCharPuzzle), Some("A2"), Some("3")) == CheckError(CharacterError)
    ensures Check(Some(ShortPuzzle), Some("A2"), Some("3")) == CheckError(LengthError)
    ensures Check(Some(ValidPuzzle), Some("Z1"), Some("3")) == CheckError(InvalidCoordinate)
    ensures Check(Some(ValidPuzzle), Some("A2"), Some("0")) == CheckError(InvalidValue)
  {
    ValidationFixtures();
  }

  /** The `/api/solve` requests of the functional tests that fail before the search. */
  lemma SolveRouteFixtures()
    ensures SolveRoute(None) == SolveError(MissingField)
    ensures SolveRoute(Some(BadCharPuzzle)) == SolveError(CharacterError)
    ensures SolveRoute(Some(ShortPuzzle)) == SolveError(LengthError)
  {
    ValidationFixtures();
  }

  /**
   * The unsolvable puzzle of the tests repeats the 1 of A1 in A2, so `solve`
   * with the repeat check fails on it before any search.
   */
  lemma DuplicatePuzzleFailsChecked()
    ensures WellFormed(DuplicatePuzzle) && !Consistent(DuplicatePuzzle)
    ensures SolveChecked(Some(DuplicatePuzzle)) == None
  {
    forall k | 0 <= k < Cells ensures IsPuzzleChar(DuplicatePuzzle[k]) {
      if k < 27 {} else if k < 54 {} else {}
    }
    assert DuplicatePuzzle[0] == DuplicatePuzzle[1] == '1' && SameRow(0, 1);
  }

  /** `/api/solve` on the all-ones board answers with that board as its solution. */
  lemma SolveRouteAcceptsAllOnes()
    ensures SolveRoute(Some(AllOnes)) == Solution(AllOnes) && !IsSolution(AllOnes)
  {
    SolveAcceptsRepeatedGivens();
  }

  // ---------------------------------------------------------------------------
  // The expected solution is a valid Sudoku
  // ---------------------------------------------------------------------------

  /** The expected solution of the tests, row by row. */
  const SolvedRows: seq<string> := [
    "135762984", "946381257", "728459613", "694517832", "812936745",
    "357824196", "473298561", "581673429", "269145378"]

  /** The board laid out row after row. */
  function Flatten(rows: seq<string>): string {
    if rows == [] then [] else Flatten(rows[..|rows| - 1]) + rows[|rows| - 1]
  }

  /** Nine rows of nine characters. */
  predicate Square(rows: seq<string>) {
    |rows| == 9 && forall k :: 0 <= k < 9 ==> |rows[k]| == 9
  }

  lemma {:induction false} FlattenLength(rows: seq<string>)
    requires forall k :: 0 <= k < |rows| ==> |rows[k]| == 9
    ensures |Flatten(rows)| == 9 * |rows|
  {
    if rows != [] {
      FlattenLength(rows[..|rows| - 1]);
    }
  }

  /** Cell (r, c) of the flattened board is character `c` of row `r`. */
  lemma {:induction false} FlattenAt(rows: seq<string>, r: int, c: int)
    requires forall k :: 0 <= k < |rows| ==> |rows[k]| == 9
    requires 0 <= r < |rows| && 0 <= c < 9
    ensures |Flatten(rows)| == 9 * |rows| && Flatten(rows)[Index(r, c)] == rows[r][c]
  {
    var n := |rows| - 1;
    FlattenLength(rows[..n]);
    if r < n {
      FlattenAt(rows[..n], r, c);
    }
  }

  lemma FlattenNine(r0: string, r1: string, r2: string, r3: string, r4: string, r5: string, r6: string, r7: string,
                    r8: string)
    ensures Flatten([r0, r1, r2, r3, r4, r5, r6, r7, r8]) == r0 + r1 + r2 + r3 + r4 + r5 + r6 + r7 + r8
  {
    var rows := [r0, r1, r2, r3, r4, r5, r6, r7, r8];
    assert rows[..0] == [];
    assert rows[..1][..0] == rows[..0];
    assert Flatten(rows[..1]) == [] + r0 == r0;
    assert rows[..2][..1] == rows[..1];
    assert Flatten(rows[..2]) == r0 + r1;
    assert rows[..3][..2] == rows[..2];
    assert Flatten(rows[..3]) == r0 + r1 + r2;
    assert rows[..4][..3] == rows[..3];
    assert Flatten(rows[..4]) == r0 + r1 + r2 + r3;
    assert rows[..5][..4] == rows[..4];
    assert Flatten(rows[..5]) == r0 + r1 + r2 + r3 + r4;
    assert rows[..6][..5] == rows[..5];
    assert Flatten(rows[..6]) == r0 + r1 + r2 + r3 + r4 + r5;
    assert rows[..7][..6] == rows[..6];
    assert Flatten(rows[..7]) == r0 + r1 + r2 + r3 + r4 + r5 + r6;
    assert rows[..8][..7] == rows[..7];
    assert Flatten(rows[..8]) == r0 + r1 + r2 + r3 + r4 + r5 + r6 + r7;
    assert rows[..9][..8] == rows[..8];
    assert Flatten(rows[..9]) == r0 + r1 + r2 + r3 + r4 + r5 + r6 + r7 + r8;
    assert rows[..9] == rows;
  }

  lemma SolvedRowsFlatten()
    ensures Flatten(SolvedRows) == SolvedPuzzle
  {
    FlattenNine(SolvedRows[0], SolvedRows[1], SolvedRows[2], SolvedRows[3], SolvedRows[4], SolvedRows[5],
                SolvedRows[6], SolvedRows[7], SolvedRows[8]);
  }

  predicate Distinct(t: string) {
    forall a, c :: 0 <= a < c < |t| ==> t[a] != t[c]
  }

  /** Unit `u` of the board laid out by `rows` reads, in order, `t`. */
  predicate Spells(rows: seq<string>, u: int, t: string)
    requires Square(rows) && |t| == 9
  {
    forall a :: 0 <= a < 9 ==>
      0 <= UnitRow(u, a) < 9 && 0 <= UnitColumn(u, a) < 9 && rows[UnitRow(u, a)][UnitColumn(u, a)] == t[a]
  }

  /** A unit that reads nine distinct characters repeats none. */
  lemma UnitOfRows(rows: seq<string>, u: int, t: string)
    requires Square(rows) && 0 <= u < 27 && |t| == 9 && Distinct(t) && Spells(rows, u, t)
    ensures |Flatten(rows)| == Cells && UnitDistinct(Flatten(rows), u)
  {
    FlattenLength(rows);
    forall a | 0 <= a < 9 ensures Flatten(rows)[UnitCell(u, a)] == t[a] {
      FlattenAt(rows, UnitRow(u, a), UnitColumn(u, a));
    }
  }

  // One lemma per unit, each evaluating nine literal cells of `SolvedRows`:
  // a single lemma quantified over all 27 units leaves the verifier to
  // evaluate every cell of every unit in one proof, which is far costlier
  // and not stable across solver seeds.

  /** The expected solution's row 1 reads 135762984. */
  lemma SolvedUnit0()
    ensures |Flatten(SolvedRows)| == Cells && UnitDistinct(Flatten(SolvedRows), 0)
  {
    assert Spells(SolvedRows, 0, "135762984") by {
      forall a | 0 <= a < 9
        ensures 0 <= UnitRow(0, a) < 9 && 0 <= UnitColumn(0, a) < 9
        ensures SolvedRows[UnitRow(0, a)][UnitColumn(0, a)] == "135762984"[a]
      {
        if a == 0 {} else if a == 1 {} else if a == 2 {} else if a == 3 {} else if a == 4 {}
        else if a == 5 {} else if a == 6 {} else if a == 7 {} else {}
      }
    }
    assert Distinct("135762984");
    UnitOfRows(SolvedRows, 0, "135762984");
  }

  /** The expected solution's row 2 reads 946381257. */
  lemma SolvedUnit1()
    ensures |Flatten(SolvedRows)| == Cells && UnitDistinct(Flatten(SolvedRows), 1)
  {
    assert Spells(SolvedRows, 1, "946381257") by {
      forall a | 0 <= a < 9
        ensures 0 <= UnitRow(1, a) < 9 && 0 <= UnitColumn(1, a) < 9
        ensures SolvedRows[UnitRow(1, a)][UnitColumn(1, a)] == "946381257"[a]
      {
        if a == 0 {} else if a == 1 {} else if a == 2 {} else if a == 3 {} else if a == 4 {}
        else if a == 5 {} else if a == 6 {} else if a == 7 {} else {}
      }
    }
    assert Distinct("946381257");
    UnitOfRows(SolvedRows, 1, "946381257");
  }

  /** The expected solution's row 3 reads 728459613. */
  lemma SolvedUnit2()
    ensures |Flatten(SolvedRows)| == Cells && UnitDistinct(Flatten(SolvedRows), 2)
  {
    assert Spells(SolvedRows, 2, "728459613") by {
      forall a | 0 <= a < 9
        ensures 0 <= UnitRow(2, a) < 9 && 0 <= UnitColumn(2, a) < 9
        ensures SolvedRows[UnitRow(2, a)][UnitColumn(2, a)] == "728459613"[a]
      {
        if a == 0 {} else if a == 1 {} else if a == 2 {} else if a == 3 {} else if a == 4 {}
        else if a == 5 {} else if a == 6 {} else if a == 7 {} else {}
      }
    }
    assert Distinct("728459613");
    UnitOfRows(SolvedRows, 2, "728459613");
  }

  /** The expected solution's row 4 reads 694517832. */
  lemma SolvedUnit3()
    ensures |Flatten(SolvedRows)| == Cells && UnitDistinct(Flatten(SolvedRows), 3)
  {
    assert Spells(SolvedRows, 3, "694517832") by {
      forall a | 0 <= a < 9
        ensures 0 <= UnitRow(3, a) < 9 && 0 <= UnitColumn(3, a) < 9
        ensures SolvedRows[UnitRow(3, a)][UnitColumn(3, a)] == "694517832"[a]
      {
        if a == 0 {} else if a == 1 {} else if a == 2 {} else if a == 3 {} else if a == 4 {}
        else if a == 5 {} else if a == 6 {} else if a == 7 {} else {}
      }
    }
    assert Distinct("694517832");
    UnitOfRows(SolvedRows, 3, "694517832");
  }

  /** The expected solution's row 5 reads 812936745. */
  lemma SolvedUnit4()
    ensures |Flatten(SolvedRows)| == Cells && UnitDistinct(Flatten(SolvedRows), 4)
  {
    assert Spells(SolvedRows, 4, "812936745") by {
      forall a | 0 <= a < 9
        ensures 0 <= UnitRow(4, a) < 9 && 0 <= UnitColumn(4, a) < 9
        ensures SolvedRows[UnitRow(4, a)][UnitColumn(4, a)] == "812936745"[a]
      {
        if a == 0 {} else if a == 1 {} else if a == 2 {} else if a == 3 {} else if a == 4 {}
        else if a == 5 {} else if a == 6 {} else if a == 7 {} else {}
      }
    }
    assert Distinct("812936745");
    UnitOfRows(SolvedRows, 4, "812936745");
  }

  /** The expected solution's row 6 reads 357824196. */
  lemma SolvedUnit5()
    ensures |Flatten(SolvedRows)| == Cells && UnitDistinct(Flatten(SolvedRows), 5)
  {
    assert Spells(SolvedRows, 5, "357824196") by {
      forall a | 0 <= a < 9
        ensures 0 <= UnitRow(5, a) < 9 && 0 <= UnitColumn(5, a) < 9
        ensures SolvedRows[UnitRow(5, a)][UnitColumn(5, a)] == "357824196"[a]
      {
        if a == 0 {} else if a == 1 {} else if a == 2 {} else if a == 3 {} else if a == 4 {}
        else if a == 5 {} else if a == 6 {} else if a == 7 {} else {}
      }
    }
    assert Distinct("357824196");
    UnitOfRows(SolvedRows, 5, "357824196");
  }

  /** The expected solution's row 7 reads 473298561. */
  lemma SolvedUnit6()
    ensures |Flatten(SolvedRows)| == Cells && UnitDistinct(Flatten(SolvedRows), 6)
  {
    assert Spells(SolvedRows, 6, "473298561") by {
      forall a | 0 <= a < 9
        ensures 0 <= UnitRow(6, a) < 9 && 0 <= UnitColumn(6, a) < 9
        ensures SolvedRows[UnitRow(6, a)][UnitColumn(6, a)] == "473298561"[a]
      {
        if a == 0 {} else if a == 1 {} else if a == 2 {} else if a == 3 {} else if a == 4 {}
        else if a == 5 {} else if a == 6 {} else if a == 7 {} else {}
      }
    }
    assert Distinct("473298561");
    UnitOfRows(SolvedRows, 6, "473298561");
  }

  /** The expected solution's row 8 reads 581673429. */
  lemma SolvedUnit7()
    ensures |Flatten(SolvedRows)| == Cells && UnitDistinct(Flatten(SolvedRows), 7)
  {
    assert Spells(SolvedRows, 7, "581673429") by {
      forall a | 0 <= a < 9
        ensures 0 <= UnitRow(7, a) < 9 && 0 <= UnitColumn(7, a) < 9
        ensures SolvedRows[UnitRow(7, a)][UnitColumn(7, a)] == "581673429"[a]
      {
        if a == 0 {} else if a == 1 {} else if a == 2 {} else if a == 3 {} else if a == 4 {}
        else if a == 5 {} else if a == 6 {} else if a == 7 {} else {}
      }
    }
    assert Distinct("581673429");
    UnitOfRows(SolvedRows, 7, "581673429");
  }

  /** The expected solution's row 9 reads 269145378. */
  lemma SolvedUnit8()
    ensures |Flatten(SolvedRows)| == Cells && UnitDistinct(Flatten(SolvedRows), 8)
  {
    assert Spells(SolvedRows, 8, "269145378") by {
      forall a | 0 <= a < 9
        ensures 0 <= UnitRow(8, a) < 9 && 0 <= UnitColumn(8, a) < 9
        ensures SolvedRows[UnitRow(8, a)][UnitColumn(8, a)] == "269145378"[a]
      {
        if a == 0 {} else if a == 1 {} else if a == 2 {} else if a == 3 {} else if a == 4 {}
        else if a == 5 {} else if a == 6 {} else if a == 7 {} else {}
      }
    }
    assert Distinct("269145378");
    UnitOfRows(SolvedRows, 8, "269145378");
  }

  /** The expected solution's column 1 reads 197683452. */
  lemma SolvedUnit9()
    ensures |Flatten(SolvedRows)| == Cells && UnitDistinct(Flatten(SolvedRows), 9)
  {
    assert Spells(SolvedRows, 9, "197683452") by {
      forall a | 0 <= a < 9
        ensures 0 <= UnitRow(9, a) < 9 && 0 <= UnitColumn(9, a) < 9
        ensures SolvedRows[UnitRow(9, a)][UnitColumn(9, a)] == "197683452"[a]
      {
        if a == 0 {} else if a == 1 {} else if a == 2 {} else if a == 3 {} else if a == 4 {}
        else if a == 5 {} else if a == 6 {} else if a == 7 {} else {}
      }
    }
    assert Distinct("197683452");
    UnitOfRows(SolvedRows, 9, "197683452");
  }

  /** The expected solution's column 2 reads 342915786. */
  lemma SolvedUnit10()
    ensures |Flatten(SolvedRows)| == Cells && UnitDistinct(Flatten(SolvedRows), 10)
  {
    assert Spells(SolvedRows, 10, "342915786") by {
      forall a | 0 <= a < 9
        ensures 0 <= UnitRow(10, a) < 9 && 0 <= UnitColumn(10, a) < 9
        ensures SolvedRows[UnitRow(10, a)][UnitColumn(10, a)] == "342915786"[a]
      {
        if a == 0 {} else if a == 1 {} else if a == 2 {} else if a == 3 {} else if a == 4 {}
        else if a == 5 {} else if a == 6 {} else if a == 7 {} else {}
      }
    }
    assert Distinct("342915786");
    UnitOfRows(SolvedRows, 10, "342915786");
  }

  /** The expected solution's column 3 reads 568427319. */
  lemma SolvedUnit11()
    ensures |Flatten(SolvedRows)| == Cells && UnitDistinct(Flatten(SolvedRows), 11)
  {
    assert Spells(SolvedRows, 11, "568427319") by {
      forall a | 0 <= a < 9
        ensures 0 <= UnitRow(11, a) < 9 && 0 <= UnitColumn(11, a) < 9
        ensures SolvedRows[UnitRow(11, a)][UnitColumn(11, a)] == "568427319"[a]
      {
        if a == 0 {} else if a == 1 {} else if a == 2 {} else if a == 3 {} else if a == 4 {}
        else if a == 5 {} else if a == 6 {} else if a == 7 {} else {}
      }
    }
    assert Distinct("568427319");
    UnitOfRows(SolvedRows, 11, "568427319");
  }

  /** The expected solution's column 4 reads 734598261. */
  lemma SolvedUnit12()
    ensures |Flatten(SolvedRows)| == Cells && UnitDistinct(Flatten(SolvedRows), 12)
  {
    assert Spells(SolvedRows, 12, "734598261") by {
      forall a | 0 <= a < 9
        ensures 0 <= UnitRow(12, a) < 9 && 0 <= UnitColumn(12, a) < 9
        ensures SolvedRows[UnitRow(12, a)][UnitColumn(12, a)] == "734598261"[a]
      {
        if a == 0 {} else if a == 1 {} else if a == 2 {} else if a == 3 {} else if a == 4 {}
        else if a == 5 {} else if a == 6 {} else if a == 7 {} else {}
      }
    }
    assert Distinct("734598261");
    UnitOfRows(SolvedRows, 12, "734598261");
  }

  /** The expected solution's column 5 reads 685132974. */
  lemma SolvedUnit13()
    ensures |Flatten(SolvedRows)| == Cells && UnitDistinct(Flatten(SolvedRows), 13)
  {
    assert Spells(SolvedRows, 13, "685132974") by {
      forall a | 0 <= a < 9
        ensures 0 <= UnitRow(13, a) < 9 && 0 <= UnitColumn(13, a) < 9
        ensures SolvedRows[UnitRow(13, a)][UnitColumn(13, a)] == "685132974"[a]
      {
        if a == 0 {} else if a == 1 {} else if a == 2 {} else if a == 3 {} else if a == 4 {}
        else if a == 5 {} else if a == 6 {} else if a == 7 {} else {}
      }
    }
    assert Distinct("685132974");
    UnitOfRows(SolvedRows, 13, "685132974");
  }

  /** The expected solution's column 6 reads 219764835. */
  lemma SolvedUnit14()
    ensures |Flatten(SolvedRows)| == Cells && UnitDistinct(Flatten(SolvedRows), 14)
  {
    assert Spells(SolvedRows, 14, "219764835") by {
      forall a | 0 <= a < 9
        ensures 0 <= UnitRow(14, a) < 9 && 0 <= UnitColumn(14, a) < 9
        ensures SolvedRows[UnitRow(14, a)][UnitColumn(14, a)] == "219764835"[a]
      {
        if a == 0 {} else if a == 1 {} else if a == 2 {} else if a == 3 {} else if a == 4 {}
        else if a == 5 {} else if a == 6 {} else if a == 7 {} else {}
      }
    }
    assert Distinct("219764835");
    UnitOfRows(SolvedRows, 14, "219764835");
  }

  /** The expected solution's column 7 reads 926871543. */
  lemma SolvedUnit15()
    ensures |Flatten(SolvedRows)| == Cells && UnitDistinct(Flatten(SolvedRows), 15)
  {
    assert Spells(SolvedRows, 15, "926871543") by {
      forall a | 0 <= a < 9
        ensures 0 <= UnitRow(15, a) < 9 && 0 <= UnitColumn(15, a) < 9
        ensures SolvedRows[UnitRow(15, a)][UnitColumn(15, a)] == "926871543"[a]
      {
        if a == 0 {} else if a == 1 {} else if a == 2 {} else if a == 3 {} else if a == 4 {}
        else if a == 5 {} else if a == 6 {} else if a == 7 {} else {}
      }
    }
    assert Distinct("926871543");
    UnitOfRows(SolvedRows, 15, "926871543");
  }

  /** The expected solution's column 8 reads 851349627. */
  lemma SolvedUnit16()
    ensures |Flatten(SolvedRows)| == Cells && UnitDistinct(Flatten(SolvedRows), 16)
  {
    assert Spells(SolvedRows, 16, "851349627") by {
      forall a | 0 <= a < 9
        ensures 0 <= UnitRow(16, a) < 9 && 0 <= UnitColumn(16, a) < 9
        ensures SolvedRows[UnitRow(16, a)][UnitColumn(16, a)] == "851349627"[a]
      {
        if a == 0 {} else if a == 1 {} else if a == 2 {} else if a == 3 {} else if a == 4 {}
        else if a == 5 {} else if a == 6 {} else if a == 7 {} else {}
      }
    }
    assert Distinct("851349627");
    UnitOfRows(SolvedRows, 16, "851349627");
  }

  /** The expected solution's column 9 reads 473256198. */
  lemma SolvedUnit17()
    ensures |Flatten(SolvedRows)| == Cells && UnitDistinct(Flatten(SolvedRows), 17)
  {
    assert Spells(SolvedRows, 17, "473256198") by {
      forall a | 0 <= a < 9
        ensures 0 <= UnitRow(17, a) < 9 && 0 <= UnitColumn(17, a) < 9
        ensures SolvedRows[UnitRow(17, a)][UnitColumn(17, a)] == "473256198"[a]
      {
        if a == 0 {} else if a == 1 {} else if a == 2 {} else if a == 3 {} else if a == 4 {}
        else if a == 5 {} else if a == 6 {} else if a == 7 {} else {}
      }
    }
    assert Distinct("473256198");
    UnitOfRows(SolvedRows, 17, "473256198");
  }

  /** The expected solution's box 1 reads 135946728. */
  lemma SolvedUnit18()
    ensures |Flatten(SolvedRows)| == Cells && UnitDistinct(Flatten(SolvedRows), 18)
  {
    assert Spells(SolvedRows, 18, "135946728") by {
      forall a | 0 <= a < 9
        ensures 0 <= UnitRow(18, a) < 9 && 0 <= UnitColumn(18, a) < 9
        ensures SolvedRows[UnitRow(18, a)][UnitColumn(18, a)] == "135946728"[a]
      {
        if a == 0 {} else if a == 1 {} else if a == 2 {} else if a == 3 {} else if a == 4 {}
        else if a == 5 {} else if a == 6 {} else if a == 7 {} else {}
      }
    }
    assert Distinct("135946728");
    UnitOfRows(SolvedRows, 18, "135946728");
  }

  /** The expected solution's box 2 reads 762381459. */
  lemma SolvedUnit19()
    ensures |Flatten(SolvedRows)| == Cells && UnitDistinct(Flatten(SolvedRows), 19)
  {
    assert Spells(SolvedRows, 19, "762381459") by {
      forall a | 0 <= a < 9
        ensures 0 <= UnitRow(19, a) < 9 && 0 <= UnitColumn(19, a) < 9
        ensures SolvedRows[UnitRow(19, a)][UnitColumn(19, a)] == "762381459"[a]
      {
        if a == 0 {} else if a == 1 {} else if a == 2 {} else if a == 3 {} else if a == 4 {}
        else if a == 5 {} else if a == 6 {} else if a == 7 {} else {}
      }
    }
    assert Distinct("762381459");
    UnitOfRows(SolvedRows, 19, "762381459");
  }

  /** The expected solution's box 3 reads 984257613. */
  lemma SolvedUnit20()
    ensures |Flatten(SolvedRows)| == Cells && UnitDistinct(Flatten(SolvedRows), 20)
  {
    assert Spells(SolvedRows, 20, "984257613") by {
      forall a | 0 <= a < 9
        ensures 0 <= UnitRow(20, a) < 9 && 0 <= UnitColumn(20, a) < 9
        ensures SolvedRows[UnitRow(20, a)][UnitColumn(20, a)] == "984257613"[a]
      {
        if a == 0 {} else if a == 1 {} else if a == 2 {} else if a == 3 {} else if a == 4 {}
        else if a == 5 {} else if a == 6 {} else if a == 7 {} else {}
      }
    }
    assert Distinct("984257613");
    UnitOfRows(SolvedRows, 20, "984257613");
  }

  /** The expected solution's box 4 reads 694812357. */
  lemma SolvedUnit21()
    ensures |Flatten(SolvedRows)| == Cells && UnitDistinct(Flatten(SolvedRows), 21)
  {
    assert Spells(SolvedRows, 21, "694812357") by {
      forall a | 0 <= a < 9
        ensures 0 <= UnitRow(21, a) < 9 && 0 <= UnitColumn(21, a) < 9
        ensures SolvedRows[UnitRow(21, a)][UnitColumn(21, a)] == "694812357"[a]
      {
        if a == 0 {} else if a == 1 {} else if a == 2 {} else if a == 3 {} else if a == 4 {}
        else if a == 5 {} else if a == 6 {} else if a == 7 {} else {}
      }
    }
    assert Distinct("694812357");
    UnitOfRows(SolvedRows, 21, "694812357");
  }

  /** The expected solution's box 5 reads 517936824. */
  lemma SolvedUnit22()
    ensures |Flatten(SolvedRows)| == Cells && UnitDistinct(Flatten(SolvedRows), 22)
  {
    assert Spells(SolvedRows, 22, "517936824") by {
      forall a | 0 <= a < 9
        ensures 0 <= UnitRow(22, a) < 9 && 0 <= UnitColumn(22, a) < 9
        ensures SolvedRows[UnitRow(22, a)][UnitColumn(22, a)] == "517936824"[a]
      {
        if a == 0 {} else if a == 1 {} else if a == 2 {} else if a == 3 {} else if a == 4 {}
        else if a == 5 {} else if a == 6 {} else if a == 7 {} else {}
      }
    }
    assert Distinct("517936824");
    UnitOfRows(SolvedRows, 22, "517936824");
  }

  /** The expected solution's box 6 reads 832745196. */
  lemma SolvedUnit23()
    ensures |Flatten(SolvedRows)| == Cells && UnitDistinct(Flatten(SolvedRows), 23)
  {
    assert Spells(SolvedRows, 23, "832745196") by {
      forall a | 0 <= a < 9
        ensures 0 <= UnitRow(23, a) < 9 && 0 <= UnitColumn(23, a) < 9
        ensures SolvedRows[UnitRow(23, a)][UnitColumn(23, a)] == "832745196"[a]
      {
        if a == 0 {} else if a == 1 {} else if a == 2 {} else if a == 3 {} else if a == 4 {}
        else if a == 5 {} else if a == 6 {} else if a == 7 {} else {}
      }
    }
    assert Distinct("832745196");
    UnitOfRows(SolvedRows, 23, "832745196");
  }

  /** The expected solution's box 7 reads 473581269. */
  lemma SolvedUnit24()
    ensures |Flatten(SolvedRows)| == Cells && UnitDistinct(Flatten(SolvedRows), 24)
  {
    assert Spells(SolvedRows, 24, "473581269") by {
      forall a | 0 <= a < 9
        ensures 0 <= UnitRow(24, a) < 9 && 0 <= UnitColumn(24, a) < 9
        ensures SolvedRows[UnitRow(24, a)][UnitColumn(24, a)] == "473581269"[a]
      {
        if a == 0 {} else if a == 1 {} else if a == 2 {} else if a == 3 {} else if a == 4 {}
        else if a == 5 {} else if a == 6 {} else if a == 7 {} else {}
      }
    }
    assert Distinct("473581269");
    UnitOfRows(SolvedRows, 24, "473581269");
  }

  /** The expected solution's box 8 reads 298673145. */
  lemma SolvedUnit25()
    ensures |Flatten(SolvedRows)| == Cells && UnitDistinct(Flatten(SolvedRows), 25)
  {
    assert Spells(SolvedRows, 25, "298673145") by {
      forall a | 0 <= a < 9
        ensures 0 <= UnitRow(25, a) < 9 && 0 <= UnitColumn(25, a) < 9
        ensures SolvedRows[UnitRow(25, a)][UnitColumn(25, a)] == "298673145"[a]
      {
        if a == 0 {} else if a == 1 {} else if a == 2 {} else if a == 3 {} else if a == 4 {}
        else if a == 5 {} else if a == 6 {} else if a == 7 {} else {}
      }
    }
    assert Distinct("298673145");
    UnitOfRows(SolvedRows, 25, "298673145");
  }

  /** The expected solution's box 9 reads 561429378. */
  lemma SolvedUnit26()
    ensures |Flatten(SolvedRows)| == Cells && UnitDistinct(Flatten(SolvedRows), 26)
  {
    assert Spells(SolvedRows, 26, "561429378") by {
      forall a | 0 <= a < 9
        ensures 0 <= UnitRow(26, a) < 9 && 0 <= UnitColumn(26, a) < 9
        ensures SolvedRows[UnitRow(26, a)][UnitColumn(26, a)] == "561429378"[a]
      {
        if a == 0 {} else if a == 1 {} else if a == 2 {} else if a == 3 {} else if a == 4 {}
        else if a == 5 {} else if a == 6 {} else if a == 7 {} else {}
      }
    }
    assert Distinct("561429378");
    UnitOfRows(SolvedRows, 26, "561429378");
  }

  lemma SolvedPuzzleConsistent()
    ensures Consistent(SolvedPuzzle)
  {
    SolvedRowsFlatten();
    forall u | 0 <= u < 27 ensures UnitDistinct(Flatten(SolvedRows), u) {
      if u == 0 { SolvedUnit0(); }
      else if u == 1 { SolvedUnit1(); }
      else if u == 2 { SolvedUnit2(); }
      else if u == 3 { SolvedUnit3(); }
      else if u == 4 { SolvedUnit4(); }
      else if u == 5 { SolvedUnit5(); }
      else if u == 6 { SolvedUnit6(); }
      else if u == 7 { SolvedUnit7(); }
      else if u == 8 { SolvedUnit8(); }
      else if u == 9 { SolvedUnit9(); }
      else if u == 10 { SolvedUnit10(); }
      else if u == 11 { SolvedUnit11(); }
      else if u == 12 { SolvedUnit12(); }
      else if u == 13 { SolvedUnit13(); }
      else if u == 14 { SolvedUnit14(); }
      else if u == 15 { SolvedUnit15(); }
      else if u == 16 { SolvedUnit16(); }
      else if u == 17 { SolvedUnit17(); }
      else if u == 18 { SolvedUnit18(); }
      else if u == 19 { SolvedUnit19(); }
      else if u == 20 { SolvedUnit20(); }
      else if u == 21 { SolvedUnit21(); }
      else if u == 22 { SolvedUnit22(); }
      else if u == 23 { SolvedUnit23(); }
      else if u == 24 { SolvedUnit24(); }
      else if u == 25 { SolvedUnit25(); }
      else { SolvedUnit26(); }
    }
    ConsistentByUnits(SolvedPuzzle);
  }

  lemma SolvedPuzzleDigits()
    ensures forall k :: 0 <= k < |SolvedPuzzle| ==> IsDigit(SolvedPuzzle[k])
  {
    forall k | 0 <= k < Cells ensures IsDigit(SolvedPuzzle[k]) {
      if k < 27 {} else if k < 54 {} else {}
    }
  }

  lemma SolvedPuzzleKeepsGivens()
    ensures Extends(ValidPuzzle, SolvedPuzzle)
  {
    forall k | 0 <= k < Cells && ValidPuzzle[k] != Empty ensures SolvedPuzzle[k] == ValidPuzzle[k] {
      if k < 9 {} else if k < 18 {} else if k < 27 {} else if k < 36 {} else if k < 45 {}
      else if k < 54 {} else if k < 63 {} else if k < 72 {} else {}
    }
  }

  /** The expected solution is a complete, valid Sudoku that keeps the givens of the valid puzzle. */
  lemma SolvedPuzzleSolvesValidPuzzle()
    ensures IsSolution(SolvedPuzzle) && Extends(ValidPuzzle, SolvedPuzzle)
  {
    SolvedPuzzleConsistent();
    SolvedPuzzleDigits();
    SolvedPuzzleKeepsGivens();
  }

  /**
   * "Valid puzzle strings pass the solver": since a solution keeping its
   * givens exists, the search succeeds on the valid puzzle, and `solve` and
   * `/api/solve` answer with a complete, valid Sudoku that keeps those givens.
   */
  lemma ValidPuzzleSolves()
    ensures SolveOutcome(Some(ValidPuzzle)).Some?
    ensures SolveRoute(Some(ValidPuzzle)) == Solution(SolveOutcome(Some(ValidPuzzle)).value)
    ensures |SolveRoute(Some(ValidPuzzle)).solution| == Cells
    ensures IsSolution(SolveRoute(Some(ValidPuzzle)).solution)
    ensures Extends(ValidPuzzle, SolveRoute(Some(ValidPuzzle)).solution)
  {
    ValidationFixtures();
    SolvedPuzzleSolvesValidPuzzle();
    ExtendedConsistent(ValidPuzzle, SolvedPuzzle);
    SearchComplete(ValidPuzzle, SolvedPuzzle);
    SearchCorrect(ValidPuzzle);
  }
}
