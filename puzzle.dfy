/**
 * The puzzle entity (Classes/Puzzle.cs): its fields, its cell matrix, the
 * two constructors that number a new puzzle after the current maximum id,
 * the jagged-array conversion of the cells, the clue derivation and the
 * "has a 1 somewhere" guard used before saving an authored puzzle.
 *
 * The clue arrays (`int[][][]`) are held as a value; the cell matrix
 * (`int[,]`) is an `array2<int>` that the methods write in place.
 */
module Puzzles {
  import opened Options
  import opened Clues

  /** The cells of a matrix, row by row. */
  function Snapshot(m: array2<int>): (g: Grid)
    reads m
    ensures IsGrid(g, m.Length0, m.Length1)
    ensures forall r, c :: 0 <= r < m.Length0 && 0 <= c < m.Length1 ==> g[r][c] == m[r, c]
  {
    seq(m.Length0, r requires 0 <= r < m.Length0 reads m =>
      seq(m.Length1, c requires 0 <= c < m.Length1 reads m => m[r, c]))
  }

  lemma SnapshotOfZeros(m: array2<int>)
    requires forall r, c :: 0 <= r < m.Length0 && 0 <= c < m.Length1 ==> m[r, c] == 0
    ensures Snapshot(m) == ZeroGrid(m.Length0, m.Length1)
  {
    var g, z := Snapshot(m), ZeroGrid(m.Length0, m.Length1);
    forall r | 0 <= r < m.Length0 ensures g[r] == z[r] {
    }
  }

  /** The rows of a jagged array cut to the length of its first row. */
  function Rectangle(value: seq<seq<int>>): (g: Grid)
    requires |value| >= 1 && forall i :: 0 <= i < |value| ==> |value[i]| >= |value[0]|
    ensures IsGrid(g, |value|, |value[0]|)
    ensures forall r, c :: 0 <= r < |value| && 0 <= c < |value[0]| ==> g[r][c] == value[r][c]
  {
    seq(|value|, i requires 0 <= i < |value| => value[i][..|value[0]|])
  }

  /** C#'s `new int[rows, cols]` followed by the zeroing loop of the constructors. */
  method NewZeroMatrix(rows: nat, cols: nat) returns (m: array2<int>)
    ensures fresh(m) && m.Length0 == rows && m.Length1 == cols
    ensures Snapshot(m) == ZeroGrid(rows, cols)
  {
    m := new int[rows, cols];
    for i := 0 to rows
      invariant forall r, c :: 0 <= r < i && 0 <= c < cols ==> m[r, c] == 0
    {
      for j := 0 to cols
        invariant forall r, c :: 0 <= r < i && 0 <= c < cols ==> m[r, c] == 0
        invariant forall c :: 0 <= c < j ==> m[i, c] == 0
      {
        m[i, j] := 0;
      }
    }
    SnapshotOfZeros(m);
  }

  /** Cell k of line j of part i, read straight from the matrix. */
  lemma LineCell(m: array2<int>, i: nat, j: nat, k: nat)
    requires j < Bound(i, m.Length0, m.Length1) && k < Bound(i, m.Length1, m.Length0)
    ensures Line(Snapshot(m), m.Length1, i, j)[k] == if i > 0 then m[k, j] else m[j, k]
  {
  }

  /** Scanning one more cell of a line is one more scan step. */
  lemma ScanCell(line: seq<int>, k: nat)
    requires k < |line|
    ensures Scan(line[..k + 1]) == Step(Scan(line[..k]), line[k])
  {
    assert line[..k + 1] == line[..k] + [line[k]];
    ScanSnoc(line[..k], line[k]);
  }

  /**
   * The scan loop shared by both clue derivations: every run of line j of
   * part i closed by a 0 is written into the zero-filled buffer `numbers`.
   * The loop reads the cells from the matrix; `line` names them. Writing
   * past the buffer's end is an IndexOutOfRangeException in C#; here the
   * loop stops with `ok == false`.
   */
  method ScanIntoBuffer(m: array2<int>, i: nat, j: nat, numbers: array<int>, ghost line: seq<int>)
    returns (count: nat, value: int, ok: bool)
    requires j < Bound(i, m.Length0, m.Length1) && |line| == Bound(i, m.Length1, m.Length0)
    requires forall k :: 0 <= k < |line| ==> line[k] == if i > 0 then m[k, j] else m[j, k]
    requires forall t :: 0 <= t < numbers.Length ==> numbers[t] == 0
    modifies numbers
    ensures ok ==> count <= numbers.Length && numbers[..count] == Scan(line).closed
    ensures ok ==> value == Scan(line).open
    ensures ok ==> forall t :: count <= t < numbers.Length ==> numbers[t] == 0
    ensures !ok ==> |Runs(line)| > numbers.Length
  {
    value := 0;
    count := 0;
    ghost var st := ScanState([], 0);
    var k := 0;
    while k < (if i > 0 then m.Length0 else m.Length1)
      invariant 0 <= k <= |line|
      invariant 0 <= count <= numbers.Length
      invariant Scan(line[..k]) == st
      invariant st.closed == numbers[..count] && st.open == value
      invariant forall t :: count <= t < numbers.Length ==> numbers[t] == 0
    {
      var cell := if i > 0 then m[k, j] else m[j, k];
      assert cell == line[k];
      ScanCell(line, k);
      st := Step(st, cell);
      if cell == 0 {
        if value != 0 {
          if count == numbers.Length {
            ClosedRunsBound(line, k + 1);
            return count, value, false;
          }
          numbers[count] := value;
          assert numbers[..count + 1] == numbers[..count] + [value];
          count := count + 1;
          value := 0;
        }
      } else if cell == 1 {
        value := value + 1;
      }
      k := k + 1;
    }
    assert line[..k] == line;
    return count, value, true;
  }

  /**
   * The runs of line j of part i in a fresh buffer of `size` zeros,
   * including the run still open after the last cell. `ok == false` stands
   * for the IndexOutOfRangeException of a write past the buffer's end.
   */
  method BufferRuns(m: array2<int>, i: nat, j: nat, size: nat) returns (numbers: array<int>, count: nat, ok: bool)
    requires j < Bound(i, m.Length0, m.Length1)
    ensures fresh(numbers) && numbers.Length == size
    ensures ok <==> |Runs(Line(Snapshot(m), m.Length1, i, j))| <= size
    ensures ok ==> count <= size && numbers[..count] == Runs(Line(Snapshot(m), m.Length1, i, j))
    ensures ok ==> forall t :: count <= t < size ==> numbers[t] == 0
  {
    ghost var line := Line(Snapshot(m), m.Length1, i, j);
    forall k | 0 <= k < |line| ensures line[k] == if i > 0 then m[k, j] else m[j, k] {
      LineCell(m, i, j, k);
    }
    numbers := new int[size](_ => 0);
    var value;
    count, value, ok := ScanIntoBuffer(m, i, j, numbers, line);
    if ok && value != 0 {
      if count == size {
        return numbers, count, false;
      }
      numbers[count] := value;
      assert numbers[..count + 1] == numbers[..count] + [value];
      count := count + 1;
    }
  }

  /** The number of non-zero entries of the whole buffer, which is the number of runs in it. */
  method CountNonZero(numbers: array<int>, ghost count: nat) returns (n: nat)
    requires count <= numbers.Length
    requires forall t :: 0 <= t < numbers.Length ==> (numbers[t] != 0 <==> t < count)
    ensures n == count
  {
    n := 0;
    for k := 0 to numbers.Length
      invariant n == if k <= count then k else count
    {
      if numbers[k] != 0 {
        n := n + 1;
      }
    }
  }

  /** The list saved for a line: [0] when no run was counted, else a fresh copy of the first `n` entries. */
  method NumbersToSave(numbers: array<int>, n: nat) returns (clue: seq<int>)
    requires n <= numbers.Length
    ensures clue == if n == 0 then [0] else numbers[..n]
  {
    if n == 0 {
      return [0];
    }
    var numbersToSave := new int[n];
    for k := 0 to n
      invariant numbersToSave[..k] == numbers[..k]
    {
      numbersToSave[k] := numbers[k];
    }
    assert numbersToSave[..] == numbersToSave[..n];
    return numbersToSave[..];
  }

  /**
   * The clue of line j of part i of a square matrix, computed as
   * Puzzle.CalculatePuzzleNumbers does: runs go into a buffer of
   * (n + 1) / 2 zeros, the non-zero entries of the whole buffer are
   * counted, and that many are copied out, or [0] when there are none.
   */
  method SquareLineClue(m: array2<int>, i: nat, j: nat) returns (clue: seq<int>)
    requires m.Length0 == m.Length1 && j < m.Length0
    ensures clue == LineClue(Line(Snapshot(m), m.Length1, i, j))
  {
    var length := m.Length0;
    ghost var line := Line(Snapshot(m), m.Length1, i, j);
    ghost var runs := Runs(line);
    assert |runs| <= (length + 1) / 2;
    var numbers, numberIndex, ok := BufferRuns(m, i, j, (length + 1) / 2);
    if !ok {
      assert false;
    }
    assert forall t :: 0 <= t < numberIndex ==> numbers[t] == runs[t] >= 1;
    var numbersCount := CountNonZero(numbers, numberIndex);
    clue := NumbersToSave(numbers, numbersCount);
    assert line == Line(Snapshot(m), m.Length1, i, j);
  }

  /**
   * The cell flip of the click handlers on both boards: a cell holding 1
   * becomes 0, any other value becomes 1.
   */
  method ToggleCell(m: array2<int>, r: nat, c: nat)
    requires r < m.Length0 && c < m.Length1
    modifies m
    ensures Snapshot(m) == Toggled(old(Snapshot(m)), r, c)
  {
    ghost var before := Snapshot(m);
    var isPainted := m[r, c] == 1;
    m[r, c] := if isPainted then 0 else 1;
    ghost var after := Snapshot(m);
    ghost var t := Toggled(before, r, c);
    forall r' | 0 <= r' < m.Length0 ensures after[r'] == t[r'] {
    }
  }

  /** Some clue list scanned by HasAtLeastOneNumber holds an entry equal to 1. */
  predicate ContainsOne(numbers: seq<seq<seq<int>>>, length: nat, width: nat)
    requires forall i :: 0 <= i < |numbers| ==> |numbers[i]| >= Bound(i, width, length)
  {
    exists i, j, k :: 0 <= i < |numbers| && 0 <= j < Bound(i, width, length) &&
      0 <= k < |numbers[i][j]| && numbers[i][j][k] == 1
  }

  class Puzzle {
    var id: int
    var name: Option<string>
    var rows: int
    var cols: int
    var difficulty: int
    var isSolved: bool
    /** Part 0 holds one clue list per row, part 1 one per column. */
    var puzzleNumbers: seq<seq<seq<int>>>
    var cellMatrix: array2<int>

    /** The recorded size agrees with the matrix. */
    predicate Valid()
      reads this
    {
      cellMatrix.Length0 == rows && cellMatrix.Length1 == cols
    }

    function Cells(): (g: Grid)
      reads this, cellMatrix
      requires Valid()
      ensures IsGrid(g, rows, cols)
    {
      Snapshot(cellMatrix)
    }

    /** A new, unsolved puzzle for the given target clues, with an all-zero grid and the next free id. */
    constructor WithClues(currentMaxId: int, rows: nat, cols: nat, puzzleNumbers: seq<seq<seq<int>>>,
                          name: Option<string> := None, difficulty: int := 0)
      ensures Valid() && fresh(cellMatrix)
      ensures id == currentMaxId + 1 && this.rows == rows && this.cols == cols
      ensures this.difficulty == difficulty && !isSolved && this.name == name
      ensures this.puzzleNumbers == puzzleNumbers
      ensures Cells() == ZeroGrid(rows, cols)
    {
      id := currentMaxId + 1;
      this.rows := rows;
      this.cols := cols;
      this.difficulty := difficulty;
      isSolved := false;
      this.name := name;
      this.puzzleNumbers := puzzleNumbers;
      var m := NewZeroMatrix(rows, cols);
      cellMatrix := m;
    }

    /**
     * The constructor the JSON reader calls: every property as stored, and
     * the cells through the PuzzleCells setter, so the matrix takes the
     * stored array's height and the width of its first row.
     */
    constructor Deserialized(id: int, rows: int, cols: int, puzzleNumbers: seq<seq<seq<int>>>,
                             name: Option<string>, difficulty: int, isSolved: bool, puzzleCells: seq<seq<int>>)
      requires |puzzleCells| >= 1 && forall i :: 0 <= i < |puzzleCells| ==> |puzzleCells[i]| >= |puzzleCells[0]|
      ensures fresh(cellMatrix)
      ensures this.id == id && this.rows == rows && this.cols == cols && this.puzzleNumbers == puzzleNumbers
      ensures this.name == name && this.difficulty == difficulty && this.isSolved == isSolved
      ensures cellMatrix.Length0 == |puzzleCells| && cellMatrix.Length1 == |puzzleCells[0]|
      ensures Snapshot(cellMatrix) == Rectangle(puzzleCells)
    {
      this.id := id;
      this.rows := rows;
      this.cols := cols;
      this.puzzleNumbers := puzzleNumbers;
      this.name := name;
      this.difficulty := difficulty;
      this.isSolved := isSolved;
      cellMatrix := new int[0, 0];
      new;
      SetPuzzleCells(puzzleCells);
    }

    /**
     * A new puzzle to draw in the sandbox (the constructor without cells):
     * the next free id, marked solved, an all-zero grid and the clues derived
     * from it, which are all [0].
     */
    constructor Authoring(currentMaxId: int, rows: nat, cols: nat,
                          name: Option<string> := None, difficulty: int := 0)
      requires rows == cols
      ensures Valid() && fresh(cellMatrix)
      ensures id == currentMaxId + 1 && this.rows == rows && this.cols == cols
      ensures this.difficulty == difficulty && isSolved && this.name == name
      ensures Cells() == ZeroGrid(rows, cols)
      ensures puzzleNumbers == BlankClues(rows, cols)
    {
      id := currentMaxId + 1;
      this.rows := rows;
      this.cols := cols;
      this.difficulty := difficulty;
      isSolved := true;
      this.name := name;
      cellMatrix := new int[rows, cols];
      new;
      FillAllCellsWithZero();
      puzzleNumbers := CalculatePuzzleNumbers();
      DeriveZeroGrid(rows, cols);
    }

    /** Every cell becomes 0; no field changes. */
    method FillAllCellsWithZero()
      requires Valid()
      modifies cellMatrix
      ensures Valid() && Cells() == ZeroGrid(rows, cols)
    {
      for i := 0 to rows
        invariant forall r, c :: 0 <= r < i && 0 <= c < cols ==> cellMatrix[r, c] == 0
      {
        for j := 0 to cols
          invariant forall r, c :: 0 <= r < i && 0 <= c < cols ==> cellMatrix[r, c] == 0
          invariant forall c :: 0 <= c < j ==> cellMatrix[i, c] == 0
        {
          cellMatrix[i, j] := 0;
        }
      }
      SnapshotOfZeros(cellMatrix);
    }

    method MarkAsSolved(isSolved: bool := true)
      modifies this`isSolved
      ensures this.isSolved == isSolved
    {
      this.isSolved := isSolved;
    }

    method SetName(name: Option<string>)
      modifies this`name
      ensures this.name == name
    {
      this.name := name;
    }

    /** The PuzzleCells getter: a jagged copy of the matrix. */
    method GetPuzzleCells() returns (jagged: seq<seq<int>>)
      ensures IsGrid(jagged, cellMatrix.Length0, cellMatrix.Length1)
      ensures forall r, c :: 0 <= r < cellMatrix.Length0 && 0 <= c < cellMatrix.Length1 ==>
        jagged[r][c] == cellMatrix[r, c]
      ensures jagged == Snapshot(cellMatrix)
    {
      var rows := cellMatrix.Length0;
      var cols := cellMatrix.Length1;
      jagged := [];
      for i := 0 to rows
        invariant |jagged| == i
        invariant forall r :: 0 <= r < i ==> |jagged[r]| == cols
        invariant forall r, c :: 0 <= r < i && 0 <= c < cols ==> jagged[r][c] == cellMatrix[r, c]
      {
        var row := new int[cols];
        for j := 0 to cols
          invariant forall c :: 0 <= c < j ==> row[c] == cellMatrix[i, c]
        {
          row[j] := cellMatrix[i, j];
        }
        jagged := jagged + [row[..]];
      }
      ghost var g := Snapshot(cellMatrix);
      forall r | 0 <= r < rows ensures jagged[r] == g[r] {
      }
    }

    /**
     * The PuzzleCells setter: a new matrix as tall as `value` and as wide as
     * its first row. A shorter later row would be an index error, and an
     * empty array has no first row; the recorded Rows and Cols do not change.
     */
    method SetPuzzleCells(value: seq<seq<int>>)
      requires |value| >= 1 && forall i :: 0 <= i < |value| ==> |value[i]| >= |value[0]|
      modifies this`cellMatrix
      ensures fresh(cellMatrix)
      ensures cellMatrix.Length0 == |value| && cellMatrix.Length1 == |value[0]|
      ensures Snapshot(cellMatrix) == Rectangle(value)
      ensures IsGrid(value, |value|, |value[0]|) ==> Snapshot(cellMatrix) == value
    {
      var rows := |value|;
      var cols := |value[0]|;
      var m := new int[rows, cols];
      for i := 0 to rows
        invariant forall r, c :: 0 <= r < i && 0 <= c < cols ==> m[r, c] == value[r][c]
      {
        for j := 0 to cols
          invariant forall r, c :: 0 <= r < i && 0 <= c < cols ==> m[r, c] == value[r][c]
          invariant forall c :: 0 <= c < j ==> m[i, c] == value[i][c]
        {
          m[i, j] := value[i][j];
        }
      }
      cellMatrix := m;
      var g := Snapshot(cellMatrix);
      forall r | 0 <= r < rows ensures g[r] == Rectangle(value)[r] {
      }
      if IsGrid(value, rows, cols) {
        forall r | 0 <= r < rows ensures g[r] == value[r] {
        }
      }
    }

    /**
     * The clue set of the current grid: one list per row in part 0 and one
     * per column in part 1. Only a square matrix gets through the C# loops,
     * whose bounds mix up the two dimensions.
     */
    method CalculatePuzzleNumbers() returns (result: seq<seq<seq<int>>>)
      requires Valid() && rows == cols
      ensures result == Derive(Cells(), rows, cols)
    {
      var length := cellMatrix.Length0;
      var width := cellMatrix.Length1;
      ghost var d := Derive(Cells(), rows, cols);
      var parts: seq<seq<seq<int>>> := [seq(length, _ => []), seq(width, _ => [])];
      for i := 0 to |parts|
        invariant |parts| == 2 && |parts[0]| == length && |parts[1]| == width
        invariant forall i' :: 0 <= i' < i ==> parts[i'] == d[i']
      {
        for j := 0 to (if i > 0 then length else width)
          invariant |parts| == 2 && |parts[0]| == length && |parts[1]| == width
          invariant forall i' :: 0 <= i' < i ==> parts[i'] == d[i']
          invariant forall j' :: 0 <= j' < j ==> parts[i][j'] == d[i][j']
        {
          var clue := SquareLineClue(cellMatrix, i, j);
          parts := parts[i := parts[i][j := clue]];
        }
      }
      result := parts;
    }

    /**
     * Whether some clue list holds an entry equal to 1 (not merely a
     * non-zero entry). The loops index part 0 by the matrix width and the
     * other parts by its height, so each part must be at least that long.
     */
    method HasAtLeastOneNumber() returns (r: bool)
      requires forall i :: 0 <= i < |puzzleNumbers| ==>
        |puzzleNumbers[i]| >= Bound(i, cellMatrix.Length1, cellMatrix.Length0)
      ensures r <==> ContainsOne(puzzleNumbers, cellMatrix.Length0, cellMatrix.Length1)
    {
      var length := cellMatrix.Length0;
      var width := cellMatrix.Length1;
      for i := 0 to |puzzleNumbers|
        invariant forall i', j, k ::
          0 <= i' < i && 0 <= j < Bound(i', width, length) && 0 <= k < |puzzleNumbers[i'][j]| ==>
          puzzleNumbers[i'][j][k] != 1
      {
        for j := 0 to (if i > 0 then length else width)
          invariant forall i', j', k ::
            0 <= i' < i && 0 <= j' < Bound(i', width, length) && 0 <= k < |puzzleNumbers[i'][j']| ==>
            puzzleNumbers[i'][j'][k] != 1
          invariant forall j', k :: 0 <= j' < j && 0 <= k < |puzzleNumbers[i][j']| ==>
            puzzleNumbers[i][j'][k] != 1
        {
          for k := 0 to |puzzleNumbers[i][j]|
            invariant forall k' :: 0 <= k' < k ==> puzzleNumbers[i][j][k'] != 1
          {
            if puzzleNumbers[i][j][k] == 1 {
              return true;
            }
          }
        }
      }
      return false;
    }
  }

  /** The all-[0] clue set has no entry equal to 1. */
  lemma BlankCluesHaveNoOne(rows: nat, cols: nat)
    requires rows == cols
    ensures !ContainsOne(BlankClues(rows, cols), rows, cols)
  {
  }

  /** A fully painted n x n board. */
  function Filled(n: nat): (g: Grid)
    ensures IsGrid(g, n, n)
  {
    seq(n, _ => Ones(n))
  }

  /** Every line of a fully painted n x n board has the single clue [n]. */
  lemma FilledSquareClues(n: nat)
    requires n >= 1
    ensures Derive(Filled(n), n, n) == [seq(n, _ => [n]), seq(n, _ => [n])]
  {
    var g := Filled(n);
    SingleRunLine(0, n, 0);
    assert Zeros(0) + Ones(n) + Zeros(0) == Ones(n);
    var d := Derive(g, n, n);
    DeriveShape(g, n, n);
    forall i, j | 0 <= i < 2 && 0 <= j < n ensures d[i][j] == [n] {
      DeriveEntry(g, n, n, i, j);
      FilledLine(n, i, j);
    }
    assert d[0] == seq(n, _ => [n]);
    assert d[1] == seq(n, _ => [n]);
  }

  /** Every row and every column of a fully painted board is fully painted. */
  lemma FilledLine(n: nat, i: nat, j: nat)
    requires j < n
    ensures Line(Filled(n), n, i, j) == Ones(n)
  {
    OnesArePainted(n);
  }

  /**
   * A drawn picture that the guard still rejects: a fully painted board of
   * side 2 or more has painted cells, yet no clue entry equal to 1.
   */
  lemma FilledSquareHasNoOne(n: nat)
    requires n >= 2
    ensures !NoPainted(Row(Filled(n), 0))
    ensures !ContainsOne(Derive(Filled(n), n, n), n, n)
  {
    FilledSquareClues(n);
    OnesArePainted(n);
    assert Row(Filled(n), 0)[0] == 1;
  }

  /** The guard passes only a drawn picture: a clue entry equal to 1 needs a painted cell. */
  lemma ContainsOneNeedsPaintedCell(g: Grid, n: nat)
    requires IsGrid(g, n, n)
    requires ContainsOne(Derive(g, n, n), n, n)
    ensures exists r, c :: 0 <= r < n && 0 <= c < n && g[r][c] == 1
  {
    var d := Derive(g, n, n);
    var i, j, k :| 0 <= i < |d| && 0 <= j < Bound(i, n, n) && 0 <= k < |d[i][j]| && d[i][j][k] == 1;
    DeriveEntry(g, n, n, i, j);
    OneNeedsPaintedCell(g, n, i, j, k);
  }

  /** A line whose clue holds a 1 has a painted cell. */
  lemma OneNeedsPaintedCell(g: Grid, n: nat, i: nat, j: nat, k: nat)
    requires IsGrid(g, n, n) && j < n
    requires k < |LineClue(Line(g, n, i, j))| && LineClue(Line(g, n, i, j))[k] == 1
    ensures exists r, c :: 0 <= r < n && 0 <= c < n && g[r][c] == 1
  {
    var line := Line(g, n, i, j);
    LineClueBlank(line);
    var t :| 0 <= t < |line| && line[t] == 1;
    if i > 0 {
      assert g[t][j] == 1;
    } else {
      assert g[j][t] == 1;
    }
  }
}
