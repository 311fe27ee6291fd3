/**
 * The drawing board of the sandbox (Controls/Panels/PuzzleSandboxPanel.cs):
 * it makes sure the edited puzzle has a clue array, flips a cell on each
 * click and then recomputes, into the existing array, the clue list of
 * every line.
 */
module SandboxPanel {
  import opened Clues
  import opened Puzzles

  /** Every part of the clue array has a list for each line the loops visit in it. */
  predicate Shaped(numbers: seq<seq<seq<int>>>, rows: nat, cols: nat) {
    forall i :: 0 <= i < |numbers| ==> |numbers[i]| >= Bound(i, rows, cols)
  }

  /**
   * The runs of every visited line fit the scan buffer, which the C# code
   * sizes from the number of columns, (cols + 1) / 2, for rows and columns
   * alike; a line with more runs writes past its end.
   */
  predicate RunsFit(g: Grid, cols: nat, parts: nat)
    requires IsGrid(g, |g|, cols)
  {
    forall i, j :: 0 <= i < parts && 0 <= j < Bound(i, |g|, cols) ==>
      |Runs(Line(g, cols, i, j))| <= (cols + 1) / 2
  }

  /** Part i after a recalculation: every visited list is the clue of its line, the rest is kept. */
  function RefreshedPart(part: seq<seq<int>>, g: Grid, cols: nat, i: nat): seq<seq<int>>
    requires IsGrid(g, |g|, cols)
  {
    seq(|part|, j requires 0 <= j < |part| =>
      if j < Bound(i, |g|, cols) then LineClue(Line(g, cols, i, j)) else part[j])
  }

  /** The clue array after a recalculation, part by part. */
  function Refreshed(numbers: seq<seq<seq<int>>>, g: Grid, cols: nat): seq<seq<seq<int>>>
    requires IsGrid(g, |g|, cols)
  {
    seq(|numbers|, i requires 0 <= i < |numbers| => RefreshedPart(numbers[i], g, cols, i))
  }

  /** The sandbox's count of used buffer entries: it stops at the first 0. */
  method CountUntilZero(numbers: array<int>, ghost count: nat) returns (n: nat)
    requires count <= numbers.Length
    requires forall t :: 0 <= t < numbers.Length ==> (numbers[t] != 0 <==> t < count)
    ensures n == count
  {
    n := 0;
    var k := 0;
    while k < numbers.Length
      invariant n == k <= count
    {
      if numbers[k] == 0 {
        break;
      }
      n := n + 1;
      k := k + 1;
    }
  }

  /** The clue of line j of part i, with the scan buffer sized from the number of columns. */
  method SandboxLineClue(m: array2<int>, i: nat, j: nat) returns (clue: seq<int>)
    requires j < Bound(i, m.Length0, m.Length1)
    requires |Runs(Line(Snapshot(m), m.Length1, i, j))| <= (m.Length1 + 1) / 2
    ensures clue == LineClue(Line(Snapshot(m), m.Length1, i, j))
  {
    var length := m.Length1;
    ghost var line := Line(Snapshot(m), m.Length1, i, j);
    ghost var runs := Runs(line);
    var numbers, numberIndex, ok := BufferRuns(m, i, j, (length + 1) / 2);
    if !ok {
      assert false;
    }
    assert forall t :: 0 <= t < numberIndex ==> numbers[t] == runs[t] >= 1;
    var numbersCount := CountUntilZero(numbers, numberIndex);
    clue := NumbersToSave(numbers, numbersCount);
    assert line == Line(Snapshot(m), m.Length1, i, j);
  }

  class PuzzleSandboxPanel {
    const puzzle: Puzzle

    /**
     * The board for `puzzle`: when no clue entry equals 1 the clue array is
     * replaced by the all-[0] one, otherwise it is kept.
     */
    constructor(puzzle: Puzzle)
      requires puzzle.Valid()
      requires forall i :: 0 <= i < |puzzle.puzzleNumbers| ==>
        |puzzle.puzzleNumbers[i]| >= Bound(i, puzzle.cols, puzzle.rows)
      modifies puzzle`puzzleNumbers
      ensures this.puzzle == puzzle
      ensures old(ContainsOne(puzzle.puzzleNumbers, puzzle.rows, puzzle.cols)) ==>
        puzzle.puzzleNumbers == old(puzzle.puzzleNumbers)
      ensures !old(ContainsOne(puzzle.puzzleNumbers, puzzle.rows, puzzle.cols)) ==>
        puzzle.puzzleNumbers == BlankClues(puzzle.rows, puzzle.cols)
    {
      this.puzzle := puzzle;
      new;
      var hasNumber := puzzle.HasAtLeastOneNumber();
      if !hasNumber {
        InitializePuzzleNumbers();
      }
    }

    /** A fresh clue array of two parts, every row and column list [0]. */
    method InitializePuzzleNumbers()
      requires puzzle.Valid()
      modifies puzzle`puzzleNumbers
      ensures puzzle.puzzleNumbers == BlankClues(puzzle.rows, puzzle.cols)
    {
      var rows, cols := puzzle.rows, puzzle.cols;
      var numbers: seq<seq<seq<int>>> := [seq(rows, _ => []), seq(cols, _ => [])];
      for i := 0 to rows
        invariant |numbers| == 2 && |numbers[0]| == rows && numbers[1] == seq(cols, _ => [])
        invariant forall k :: 0 <= k < i ==> numbers[0][k] == [0]
      {
        numbers := numbers[0 := numbers[0][i := [0]]];
      }
      for i := 0 to cols
        invariant |numbers| == 2 && |numbers[0]| == rows && |numbers[1]| == cols
        invariant forall k :: 0 <= k < rows ==> numbers[0][k] == [0]
        invariant forall k :: 0 <= k < i ==> numbers[1][k] == [0]
      {
        numbers := numbers[1 := numbers[1][i := [0]]];
      }
      assert numbers[0] == BlankClues(rows, cols)[0];
      assert numbers[1] == BlankClues(rows, cols)[1];
      puzzle.puzzleNumbers := numbers;
    }

    /** The inner loop for part i: every list it visits becomes the clue of its line. */
    method RefreshPart(part: seq<seq<int>>, i: nat) returns (result: seq<seq<int>>)
      requires puzzle.Valid()
      requires |part| >= Bound(i, puzzle.rows, puzzle.cols)
      requires forall j :: 0 <= j < Bound(i, puzzle.rows, puzzle.cols) ==>
        |Runs(Line(puzzle.Cells(), puzzle.cols, i, j))| <= (puzzle.cols + 1) / 2
      ensures result == RefreshedPart(part, puzzle.Cells(), puzzle.cols, i)
    {
      var length := puzzle.cols;
      var width := puzzle.rows;
      ghost var target := RefreshedPart(part, puzzle.Cells(), length, i);
      result := part;
      for j := 0 to (if i > 0 then length else width)
        invariant |result| == |part|
        invariant forall j' :: 0 <= j' < j ==> result[j'] == target[j']
        invariant forall j' :: j <= j' < |part| ==> result[j'] == part[j']
      {
        var clue := SandboxLineClue(puzzle.cellMatrix, i, j);
        result := result[j := clue];
      }
    }

    /**
     * Recomputes, in place, the clue list of every line the loops visit:
     * row j in part 0 and column j in every later part. The array itself
     * is returned as well.
     */
    method CalculatePuzzleNumbers() returns (result: seq<seq<seq<int>>>)
      requires puzzle.Valid()
      requires Shaped(puzzle.puzzleNumbers, puzzle.rows, puzzle.cols)
      requires RunsFit(puzzle.Cells(), puzzle.cols, |puzzle.puzzleNumbers|)
      modifies puzzle`puzzleNumbers
      ensures puzzle.puzzleNumbers == Refreshed(old(puzzle.puzzleNumbers), puzzle.Cells(), puzzle.cols)
      ensures result == puzzle.puzzleNumbers
    {
      ghost var start := puzzle.puzzleNumbers;
      ghost var target := Refreshed(start, puzzle.Cells(), puzzle.cols);
      var puzzleNumbers := puzzle.puzzleNumbers;
      for i := 0 to |puzzleNumbers|
        invariant |puzzleNumbers| == |start|
        invariant forall i' :: 0 <= i' < i ==> puzzleNumbers[i'] == target[i']
        invariant forall i' :: i <= i' < |start| ==> puzzleNumbers[i'] == start[i']
      {
        var part := RefreshPart(puzzleNumbers[i], i);
        puzzleNumbers := puzzleNumbers[i := part];
      }
      puzzle.puzzleNumbers := puzzleNumbers;
      result := puzzleNumbers;
    }

    /** A click on cell (r, c): the cell flips and every visited clue list is recomputed. */
    method Click(r: nat, c: nat)
      requires puzzle.Valid() && r < puzzle.rows && c < puzzle.cols
      requires Shaped(puzzle.puzzleNumbers, puzzle.rows, puzzle.cols)
      requires RunsFit(Toggled(puzzle.Cells(), r, c), puzzle.cols, |puzzle.puzzleNumbers|)
      modifies puzzle.cellMatrix, puzzle`puzzleNumbers
      ensures puzzle.Cells() == Toggled(old(puzzle.Cells()), r, c)
      ensures puzzle.puzzleNumbers == Refreshed(old(puzzle.puzzleNumbers), puzzle.Cells(), puzzle.cols)
    {
      ToggleCell(puzzle.cellMatrix, r, c);
      var _ := CalculatePuzzleNumbers();
    }
  }

  /** On a two-part array with one list per row and per column, a recalculation yields the derived clues. */
  lemma RefreshedIsDerive(numbers: seq<seq<seq<int>>>, g: Grid, rows: nat, cols: nat)
    requires IsGrid(g, rows, cols)
    requires |numbers| == 2 && |numbers[0]| == rows && |numbers[1]| == cols
    ensures Refreshed(numbers, g, cols) == Derive(g, rows, cols)
  {
    var r, d := Refreshed(numbers, g, cols), Derive(g, rows, cols);
    assert r[0] == d[0];
    assert r[1] == d[1];
  }

  /** Recalculating twice over the same picture changes nothing the second time. */
  lemma RefreshedIdempotent(numbers: seq<seq<seq<int>>>, g: Grid, cols: nat)
    requires IsGrid(g, |g|, cols)
    ensures Refreshed(Refreshed(numbers, g, cols), g, cols) == Refreshed(numbers, g, cols)
  {
    var once := Refreshed(numbers, g, cols);
    var twice := Refreshed(once, g, cols);
    forall i | 0 <= i < |numbers| ensures twice[i] == once[i] {
      assert twice[i] == RefreshedPart(once[i], g, cols, i);
    }
  }

  /** A board no taller than it is wide never overflows the scan buffer. */
  lemma ShortBoardFits(g: Grid, rows: nat, cols: nat, parts: nat)
    requires IsGrid(g, rows, cols) && rows <= cols
    ensures RunsFit(g, cols, parts)
  {
    forall i, j | 0 <= i < parts && 0 <= j < Bound(i, rows, cols)
      ensures |Runs(Line(g, cols, i, j))| <= (cols + 1) / 2
    {
      var line := Line(g, cols, i, j);
      assert |Runs(line)| <= (|line| + 1) / 2;
    }
  }

  /** A taller board can overflow it: column 0 of a 3x1 board painted 1,0,1 has two runs and room for one. */
  lemma TallColumnOverflows()
    ensures IsGrid([[1], [0], [1]], 3, 1)
    ensures !RunsFit([[1], [0], [1]], 1, 2)
  {
    var g := [[1], [0], [1]];
    var line := Line(g, 1, 1, 0);
    assert line == [1, 0, 1];
    ScanSnoc([1, 0], 1);
    ScanSnoc([1], 0);
    ScanSnoc([], 1);
    assert [1, 0, 1][..2] == [1, 0];
    assert [1, 0][..1] == [1];
    assert [1][..0] == [];
    assert Runs(line) == [1, 1];
  }
}
