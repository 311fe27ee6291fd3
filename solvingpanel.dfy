/**
 * The solving board (Controls/Panels/PuzzleSolvingPanel.cs): the size of
 * its clue bands, the reset when a solved puzzle is played again, a click
 * that flips a cell and runs the solved check, and the save on success.
 */
module SolvingPanel {
  import opened Clues
  import opened SolvedCheck
  import opened Puzzles
  import opened Storage

  /** The length of the longest list, but at least `floor`. */
  function LongestList(lists: seq<seq<int>>, floor: nat): (n: nat)
    ensures n >= floor
    ensures forall k :: 0 <= k < |lists| ==> |lists[k]| <= n
    ensures n == floor || exists k :: 0 <= k < |lists| && |lists[k]| == n
  {
    if lists == [] then floor
    else
      var rest := LongestList(lists[..|lists| - 1], floor);
      assert forall k :: 0 <= k < |lists| - 1 ==> lists[..|lists| - 1][k] == lists[k];
      if |lists[|lists| - 1]| > rest then |lists[|lists| - 1]| else rest
  }

  /**
   * On clues derived from a picture the bands stay small: a column list has
   * at most (rows + 1) / 2 numbers and a row list at most (cols + 1) / 2,
   * and never fewer than one.
   */
  lemma DerivedBandBound(g: Grid, rows: nat, cols: nat)
    requires IsGrid(g, rows, cols)
    ensures LongestList(Derive(g, rows, cols)[1], 1) <= if rows <= 1 then 1 else (rows + 1) / 2
    ensures LongestList(Derive(g, rows, cols)[0], 1) <= if cols <= 1 then 1 else (cols + 1) / 2
  {
    var d := Derive(g, rows, cols);
    forall j | 0 <= j < cols ensures |d[1][j]| <= if rows <= 1 then 1 else (rows + 1) / 2 {
      DeriveEntry(g, rows, cols, 1, j);
    }
    forall j | 0 <= j < rows ensures |d[0][j]| <= if cols <= 1 then 1 else (cols + 1) / 2 {
      DeriveEntry(g, rows, cols, 0, j);
    }
  }

  /**
   * Line j of part i against its clue list, as the inner loop of
   * CheckIfPuzzleIsSolved does it: a run closed by a 0 is compared with the
   * next entry, the open run with the entry after the last cell, and any
   * entry left over rejects the line. A read past the list, or of a list
   * that is not there, is `Fault`.
   */
  method CheckMatrixLine(m: array2<int>, numbers: seq<seq<seq<int>>>, i: nat, j: nat) returns (v: Verdict)
    requires i < |numbers| && j < Bound(i, m.Length0, m.Length1)
    ensures v == LineVerdict(Snapshot(m), m.Length1, numbers, i, j)
  {
    ghost var line := Line(Snapshot(m), m.Length1, i, j);
    ghost var clue := if j < |numbers[i]| then numbers[i][j] else [];
    var value := 0;
    var index: nat := 0;
    var k := 0;
    while k < (if i > 0 then m.Length0 else m.Length1)
      invariant 0 <= k <= |line|
      invariant CheckScan(line[..k], clue) == Running(value, index)
      invariant line == Line(Snapshot(m), m.Length1, i, j)
    {
      var cell := if i > 0 then m[k, j] else m[j, k];
      LineCell(m, i, j, k);
      assert line[..k + 1][..k] == line[..k];
      if cell == 0 {
        if value != 0 {
          if j >= |numbers[i]| || index >= |numbers[i][j]| {
            CheckScanStopped(line, clue, k + 1);
            return Fault;
          }
          if numbers[i][j][index] != value {
            CheckScanStopped(line, clue, k + 1);
            return Mismatch;
          }
          index := index + 1;
          value := 0;
        }
      } else if cell == 1 {
        value := value + 1;
      }
      k := k + 1;
    }
    assert line[..k] == line;
    if j >= |numbers[i]| {
      return Fault;
    }
    var list := numbers[i][j];
    if index < |list| {
      if list[index] != value {
        return Mismatch;
      }
      index := index + 1;
    }
    if index < |list| {
      return Mismatch;
    }
    return Match;
  }

  class PuzzleSolvingPanel {
    const puzzle: Puzzle
    /** The board's size: the puzzle plus the bands of clue numbers above and to the left. */
    var rows: int
    var cols: int
    var numberedRows: int
    var numberedCols: int

    /** Board rows: the puzzle's rows plus the longest column list (at least one). */
    static method CalculateRows(puzzle: Puzzle) returns (result: int)
      requires |puzzle.puzzleNumbers| >= 2
      ensures result == puzzle.rows + LongestList(puzzle.puzzleNumbers[1], 1)
    {
      result := puzzle.rows;
      var rows := 1;
      var puzzleNumbers := puzzle.puzzleNumbers[1];
      for i := 0 to |puzzleNumbers|
        invariant rows == LongestList(puzzleNumbers[..i], 1)
      {
        assert puzzleNumbers[..i + 1][..i] == puzzleNumbers[..i];
        if |puzzleNumbers[i]| > rows {
          rows := |puzzleNumbers[i]|;
        }
      }
      assert puzzleNumbers[..|puzzleNumbers|] == puzzleNumbers;
      result := result + rows;
    }

    /** Board columns: the puzzle's columns plus the longest row list (at least one). */
    static method CalculateCols(puzzle: Puzzle) returns (result: int)
      requires |puzzle.puzzleNumbers| >= 2
      ensures result == puzzle.cols + LongestList(puzzle.puzzleNumbers[0], 1)
    {
      result := puzzle.cols;
      var cols := 1;
      var puzzleNumbers := puzzle.puzzleNumbers[0];
      for i := 0 to |puzzleNumbers|
        invariant cols == LongestList(puzzleNumbers[..i], 1)
      {
        assert puzzleNumbers[..i + 1][..i] == puzzleNumbers[..i];
        if |puzzleNumbers[i]| > cols {
          cols := |puzzleNumbers[i]|;
        }
      }
      assert puzzleNumbers[..|puzzleNumbers|] == puzzleNumbers;
      result := result + cols;
    }

    /**
     * The board for `puzzle`. A puzzle already solved is played again from
     * scratch: it is marked unsolved and every cell is cleared.
     */
    constructor(puzzle: Puzzle)
      requires puzzle.Valid() && |puzzle.puzzleNumbers| >= 2
      modifies puzzle`isSolved, puzzle.cellMatrix
      ensures this.puzzle == puzzle
      ensures numberedRows == LongestList(puzzle.puzzleNumbers[1], 1) && rows == puzzle.rows + numberedRows
      ensures numberedCols == LongestList(puzzle.puzzleNumbers[0], 1) && cols == puzzle.cols + numberedCols
      ensures !puzzle.isSolved
      ensures old(puzzle.isSolved) ==> puzzle.Cells() == ZeroGrid(puzzle.rows, puzzle.cols)
      ensures !old(puzzle.isSolved) ==> puzzle.Cells() == old(puzzle.Cells())
    {
      this.puzzle := puzzle;
      var rows := CalculateRows(puzzle);
      var cols := CalculateCols(puzzle);
      this.rows := rows;
      this.cols := cols;
      numberedRows := rows - puzzle.rows;
      numberedCols := cols - puzzle.cols;
      new;
      if puzzle.isSolved {
        puzzle.isSolved := false;
        puzzle.FillAllCellsWithZero();
      }
    }

    /**
     * The solved check over every line of every part, in loop order; the
     * first line that does not pass decides. `Match` is C#'s `true`,
     * `Mismatch` its `false`, `Fault` an IndexOutOfRangeException.
     */
    method CheckIfPuzzleIsSolved() returns (verdict: Verdict)
      requires puzzle.Valid()
      ensures verdict == GridVerdict(puzzle.Cells(), puzzle.cols, puzzle.puzzleNumbers)
    {
      var length := puzzle.cols;
      var width := puzzle.rows;
      ghost var g := puzzle.Cells();
      var numbers := puzzle.puzzleNumbers;
      for i := 0 to |numbers|
        invariant PartsVerdict(g, length, numbers, i) == Match
      {
        for j := 0 to (if i > 0 then length else width)
          invariant PartVerdict(g, length, numbers, i, j) == Match
        {
          var v := CheckMatrixLine(puzzle.cellMatrix, numbers, i, j);
          if v != Match {
            FirstFailureDecides(g, length, numbers, i, j);
            return v;
          }
        }
      }
      return Match;
    }

    /**
     * A click on cell (r, c): the cell flips, and when the check then
     * passes the puzzle is marked solved and saved to the store.
     */
    method Click(r: nat, c: nat, file: StoreFile) returns (verdict: Verdict, saved: StoreFile)
      requires puzzle.Valid() && r < puzzle.rows && c < puzzle.cols && Readable(file)
      modifies puzzle.cellMatrix, puzzle`isSolved
      ensures puzzle.Cells() == Toggled(old(puzzle.Cells()), r, c)
      ensures verdict == GridVerdict(puzzle.Cells(), puzzle.cols, puzzle.puzzleNumbers)
      ensures verdict == Match ==> puzzle.isSolved && saved == AfterSave(file, Encode(puzzle))
      ensures verdict != Match ==> puzzle.isSolved == old(puzzle.isSolved) && saved == file
    {
      ToggleCell(puzzle.cellMatrix, r, c);
      verdict := CheckIfPuzzleIsSolved();
      saved := file;
      if verdict == Match {
        puzzle.isSolved := true;
        saved := SavePuzzle(file, puzzle);
      }
    }
  }
}
