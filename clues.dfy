/**
 * Run-length clues of nonogram lines (the clue derivation shared by
 * Puzzle.CalculatePuzzleNumbers and PuzzleSandboxPanel.CalculatePuzzleNumbers).
 *
 * A cell is an int. Scanning a line, a 1 extends the open run, a 0 closes it,
 * and any other value neither extends nor closes it: the C# `switch` has no
 * default branch.
 */
module Clues {

  /** A snapshot of a cell matrix, row by row. */
  type Grid = seq<seq<int>>

  predicate IsGrid(g: Grid, rows: nat, cols: nat) {
    |g| == rows && forall r :: 0 <= r < |g| ==> |g[r]| == cols
  }

  function Row(g: Grid, r: nat): seq<int>
    requires r < |g|
  {
    g[r]
  }

  function Col(g: Grid, c: nat): (col: seq<int>)
    requires forall r :: 0 <= r < |g| ==> c < |g[r]|
    ensures |col| == |g|
  {
    seq(|g|, r requires 0 <= r < |g| => g[r][c])
  }

  /** How many lines clue part `i` describes: part 0 the rows, any later part the columns. */
  function Bound(i: nat, rows: nat, cols: nat): nat {
    if i > 0 then cols else rows
  }

  /** Line `j` of clue part `i`: row `j` for part 0, column `j` for any later part. */
  function Line(g: Grid, cols: nat, i: nat, j: nat): (line: seq<int>)
    requires IsGrid(g, |g|, cols)
    requires j < Bound(i, |g|, cols)
    ensures |line| == if i > 0 then |g| else cols
  {
    if i > 0 then Col(g, j) else Row(g, j)
  }

  /** The state of a left-to-right scan: the runs closed so far and the open run (0: none). */
  datatype ScanState = ScanState(closed: seq<int>, open: int)

  /** One cell of the scan. */
  function Step(st: ScanState, cell: int): ScanState {
    if cell == 0 then
      if st.open != 0 then ScanState(st.closed + [st.open], 0) else st
    else if cell == 1 then
      ScanState(st.closed, st.open + 1)
    else
      st
  }

  predicate NoPainted(line: seq<int>) {
    forall k :: 0 <= k < |line| ==> line[k] != 1
  }

  /**
   * The scan of a whole line. Closed runs are positive, and a line of n
   * cells holds at most n/2 closed runs plus the open one, because every
   * closed run is followed by a 0.
   */
  function Scan(line: seq<int>): (st: ScanState)
    ensures st.open >= 0
    ensures forall k :: 0 <= k < |st.closed| ==> st.closed[k] >= 1
    ensures 2 * |st.closed| + (if st.open > 0 then 1 else 0) <= |line|
    decreases |line|
  {
    if line == [] then ScanState([], 0)
    else Step(Scan(line[..|line| - 1]), line[|line| - 1])
  }

  /** A scan ends with no run at all exactly when no cell is painted. */
  lemma {:induction false} ScanBlank(line: seq<int>)
    ensures Scan(line).closed == [] && Scan(line).open == 0 <==> NoPainted(line)
    decreases |line|
  {
    if line != [] {
      var prefix := line[..|line| - 1];
      ScanBlank(prefix);
      assert forall k :: 0 <= k < |prefix| ==> prefix[k] == line[k];
    }
  }

  lemma ScanSnoc(s: seq<int>, x: int)
    ensures Scan(s + [x]) == Step(Scan(s), x)
  {
    assert (s + [x])[..|s|] == s;
  }

  /** The runs closed while scanning a prefix are never more than the runs of the whole line. */
  lemma {:induction false} ClosedRunsBound(line: seq<int>, k: nat)
    requires k <= |line|
    ensures |Scan(line[..k]).closed| + (if Scan(line[..k]).open != 0 then 1 else 0) <= |Runs(line)|
    decreases |line| - k
  {
    if k == |line| {
      assert line[..k] == line;
    } else {
      ClosedRunsBound(line, k + 1);
      assert line[..k + 1] == line[..k] + [line[k]];
      ScanSnoc(line[..k], line[k]);
    }
  }

  /** The maximal runs of 1s of a line, in scan order. */
  function Runs(line: seq<int>): (runs: seq<int>)
    ensures forall k :: 0 <= k < |runs| ==> runs[k] >= 1
    ensures |runs| <= (|line| + 1) / 2
  {
    var st := Scan(line);
    if st.open != 0 then st.closed + [st.open] else st.closed
  }

  /** A line has no run exactly when none of its cells is painted. */
  lemma RunsBlank(line: seq<int>)
    ensures Runs(line) == [] <==> NoPainted(line)
  {
    ScanBlank(line);
  }

  /** A clue list as the game stores it: the sentinel [0], or positive run lengths. */
  predicate IsCanonicalClue(clue: seq<int>) {
    clue == [0] || (|clue| >= 1 && forall k :: 0 <= k < |clue| ==> clue[k] >= 1)
  }

  /** The clue of one line: its runs, or the sentinel [0] when it has no painted cell. */
  function LineClue(line: seq<int>): (clue: seq<int>)
    ensures |clue| >= 1 && IsCanonicalClue(clue)
    ensures |clue| <= (|line| + 1) / 2 || clue == [0]
  {
    var runs := Runs(line);
    if runs == [] then [0] else assert runs[0] >= 1; runs
  }

  /** The sentinel [0] stands exactly for a line with no painted cell. */
  lemma LineClueBlank(line: seq<int>)
    ensures LineClue(line) == [0] <==> NoPainted(line)
  {
    RunsBlank(line);
    var runs := Runs(line);
    if runs != [] {
      assert runs[0] >= 1;
    }
  }

  /** Clues of a whole grid: part 0 one list per row, part 1 one list per column. */
  function Derive(g: Grid, rows: nat, cols: nat): (clues: seq<seq<seq<int>>>)
    requires IsGrid(g, rows, cols)
  {
    [seq(rows, j requires 0 <= j < rows => LineClue(Line(g, cols, 0, j))),
     seq(cols, j requires 0 <= j < cols => LineClue(Line(g, cols, 1, j)))]
  }

  /** Entry j of part i of the derived clues is the clue of line j of part i. */
  lemma DeriveEntry(g: Grid, rows: nat, cols: nat, i: nat, j: nat)
    requires IsGrid(g, rows, cols) && i < 2 && j < Bound(i, rows, cols)
    ensures |Derive(g, rows, cols)| == 2 && j < |Derive(g, rows, cols)[i]|
    ensures Derive(g, rows, cols)[i][j] == LineClue(Line(g, cols, i, j))
  {
  }

  /** The clue set of an empty picture: every row and every column is [0]. */
  function BlankClues(rows: nat, cols: nat): seq<seq<seq<int>>> {
    [seq(rows, _ => [0]), seq(cols, _ => [0])]
  }

  function ZeroGrid(rows: nat, cols: nat): (g: Grid)
    ensures IsGrid(g, rows, cols)
  {
    seq(rows, _ => seq(cols, _ => 0))
  }

  /** The derived clue set has one non-empty canonical list per row and per column. */
  lemma DeriveShape(g: Grid, rows: nat, cols: nat)
    requires IsGrid(g, rows, cols)
    ensures var d := Derive(g, rows, cols);
      |d| == 2 && |d[0]| == rows && |d[1]| == cols &&
      (forall j :: 0 <= j < rows ==> IsCanonicalClue(d[0][j]) && (d[0][j] == [0] <==> NoPainted(Row(g, j)))) &&
      (forall j :: 0 <= j < cols ==> IsCanonicalClue(d[1][j]) && (d[1][j] == [0] <==> NoPainted(Col(g, j))))
  {
    forall j | 0 <= j < rows ensures Derive(g, rows, cols)[0][j] == [0] <==> NoPainted(Row(g, j)) {
      LineClueBlank(Row(g, j));
    }
    forall j | 0 <= j < cols ensures Derive(g, rows, cols)[1][j] == [0] <==> NoPainted(Col(g, j)) {
      LineClueBlank(Col(g, j));
    }
  }

  /** An all-zero grid derives the all-[0] clue set. */
  lemma DeriveZeroGrid(rows: nat, cols: nat)
    ensures Derive(ZeroGrid(rows, cols), rows, cols) == BlankClues(rows, cols)
  {
    var g := ZeroGrid(rows, cols);
    var d := Derive(g, rows, cols);
    forall j | 0 <= j < rows ensures d[0][j] == [0] {
      assert NoPainted(Line(g, cols, 0, j));
      LineClueBlank(Line(g, cols, 0, j));
    }
    forall j | 0 <= j < cols ensures d[1][j] == [0] {
      assert NoPainted(Line(g, cols, 1, j));
      LineClueBlank(Line(g, cols, 1, j));
    }
    assert d[0] == BlankClues(rows, cols)[0];
    assert d[1] == BlankClues(rows, cols)[1];
  }

  // ---------------------------------------------------------------------
  // The scan counts painted cells.

  /** The sum of the first n entries. */
  function SumTo(s: seq<int>, n: nat): int
    requires n <= |s|
  {
    if n == 0 then 0 else SumTo(s, n - 1) + s[n - 1]
  }

  function Sum(s: seq<int>): int {
    SumTo(s, |s|)
  }

  lemma {:induction false} SumToAgree(a: seq<int>, b: seq<int>, n: nat)
    requires n <= |a| && n <= |b| && a[..n] == b[..n]
    ensures SumTo(a, n) == SumTo(b, n)
  {
    if n > 0 {
      assert a[n - 1] == a[..n][n - 1] == b[n - 1];
      assert a[..n - 1] == a[..n][..n - 1] == b[..n - 1];
      SumToAgree(a, b, n - 1);
    }
  }

  function CountPainted(line: seq<int>): nat
    decreases |line|
  {
    if line == [] then 0
    else CountPainted(line[..|line| - 1]) + (if line[|line| - 1] == 1 then 1 else 0)
  }

  lemma SumSnoc(s: seq<int>, x: int)
    ensures Sum(s + [x]) == Sum(s) + x
  {
    assert (s + [x])[..|s|] == s[..|s|];
    SumToAgree(s + [x], s, |s|);
  }

  /** The run lengths of a line add up to the number of its painted cells. */
  lemma {:induction false} RunsSumIsPaintedCount(line: seq<int>)
    ensures Sum(Runs(line)) == CountPainted(line)
    decreases |line|
  {
    ScanSumIsPaintedCount(line);
    var st := Scan(line);
    if st.open != 0 {
      SumSnoc(st.closed, st.open);
    }
  }

  lemma {:induction false} ScanSumIsPaintedCount(line: seq<int>)
    ensures Sum(Scan(line).closed) + Scan(line).open == CountPainted(line)
    decreases |line|
  {
    if line != [] {
      var prefix := line[..|line| - 1];
      ScanSumIsPaintedCount(prefix);
      var st := Scan(prefix);
      if line[|line| - 1] == 0 && st.open != 0 {
        SumSnoc(st.closed, st.open);
      }
    }
  }

  /** The sentinel adds nothing: the entries of a line's clue add up to its painted cells. */
  lemma LineClueSum(line: seq<int>)
    ensures Sum(LineClue(line)) == CountPainted(line)
  {
    RunsSumIsPaintedCount(line);
    assert SumTo([0], 1) == SumTo([0], 0) + 0;
  }

  // ---------------------------------------------------------------------
  // The row clues and the column clues of a picture describe the same cells.

  /** The entries of the first n clue lists, added up. */
  function TotalTo(lists: seq<seq<int>>, n: nat): int
    requires n <= |lists|
  {
    if n == 0 then 0 else TotalTo(lists, n - 1) + Sum(lists[n - 1])
  }

  function Total(lists: seq<seq<int>>): int {
    TotalTo(lists, |lists|)
  }

  /** Painted cells of the first n rows. */
  function RowsPainted(g: Grid, n: nat): nat
    requires n <= |g|
  {
    if n == 0 then 0 else RowsPainted(g, n - 1) + CountPainted(g[n - 1])
  }

  /** Painted cells of the first n columns. */
  function ColsPainted(g: Grid, n: nat): nat
    requires forall r :: 0 <= r < |g| ==> n <= |g[r]|
  {
    if n == 0 then 0 else ColsPainted(g, n - 1) + CountPainted(Col(g, n - 1))
  }

  lemma {:induction false} RowsPaintedAgree(g: Grid, h: Grid, n: nat)
    requires n <= |g| && n <= |h| && g[..n] == h[..n]
    ensures RowsPainted(g, n) == RowsPainted(h, n)
  {
    if n > 0 {
      assert g[n - 1] == g[..n][n - 1] == h[n - 1];
      assert g[..n - 1] == g[..n][..n - 1] == h[..n - 1];
      RowsPaintedAgree(g, h, n - 1);
    }
  }

  lemma {:induction false} ColsPaintedOfNoRows(n: nat)
    ensures ColsPainted([], n) == 0
  {
    if n > 0 {
      ColsPaintedOfNoRows(n - 1);
      assert Col([], n - 1) == [];
    }
  }

  lemma CountPaintedSnoc(s: seq<int>, x: int)
    ensures CountPainted(s + [x]) == CountPainted(s) + (if x == 1 then 1 else 0)
  {
    assert (s + [x])[..|s|] == s;
  }

  /** Adding a row adds the painted cells of its first n entries to the first n columns. */
  lemma {:induction false} ColsPaintedSnocRow(g: Grid, row: seq<int>, cols: nat, n: nat)
    requires IsGrid(g, |g|, cols) && |row| == cols && n <= cols
    ensures IsGrid(g + [row], |g| + 1, cols)
    ensures ColsPainted(g + [row], n) == ColsPainted(g, n) + CountPainted(row[..n])
  {
    var h := g + [row];
    assert IsGrid(h, |g| + 1, cols) by {
      assert forall r :: 0 <= r < |g| ==> h[r] == g[r];
    }
    if n > 0 {
      ColsPaintedSnocRow(g, row, cols, n - 1);
      assert Col(h, n - 1) == Col(g, n - 1) + [row[n - 1]];
      CountPaintedSnoc(Col(g, n - 1), row[n - 1]);
      assert row[..n] == row[..n - 1] + [row[n - 1]];
      CountPaintedSnoc(row[..n - 1], row[n - 1]);
    }
  }

  /** Counting a picture's painted cells by rows or by columns gives the same number. */
  lemma {:induction false} PaintedByRowsAndColumns(g: Grid, cols: nat)
    requires IsGrid(g, |g|, cols)
    ensures RowsPainted(g, |g|) == ColsPainted(g, cols)
    decreases |g|
  {
    if g == [] {
      ColsPaintedOfNoRows(cols);
    } else {
      var front, row := g[..|g| - 1], g[|g| - 1];
      assert g == front + [row];
      PaintedByRowsAndColumns(front, cols);
      RowsPaintedAgree(g, front, |front|);
      ColsPaintedSnocRow(front, row, cols, cols);
      assert row[..cols] == row;
    }
  }

  /** Clue lists that add up to the painted cells of the first n rows, each, add up to those rows' cells. */
  lemma {:induction false} RowCluesTotal(g: Grid, part: seq<seq<int>>, n: nat)
    requires n <= |g| && n <= |part|
    requires forall j :: 0 <= j < n ==> Sum(part[j]) == CountPainted(g[j])
    ensures TotalTo(part, n) == RowsPainted(g, n)
  {
    if n > 0 {
      RowCluesTotal(g, part, n - 1);
    }
  }

  /** Clue lists that add up to the painted cells of the first n columns, each, add up to those columns' cells. */
  lemma {:induction false} ColCluesTotal(g: Grid, cols: nat, part: seq<seq<int>>, n: nat)
    requires IsGrid(g, |g|, cols) && n <= cols && n <= |part|
    requires forall j :: 0 <= j < n ==> Sum(part[j]) == CountPainted(Col(g, j))
    ensures TotalTo(part, n) == ColsPainted(g, n)
  {
    if n > 0 {
      ColCluesTotal(g, cols, part, n - 1);
    }
  }

  /**
   * The row clues and the column clues of any picture add up to the same
   * total, its number of painted cells: a clue set whose two totals differ
   * is derived from no picture.
   */
  lemma DerivedTotalsAgree(g: Grid, rows: nat, cols: nat)
    requires IsGrid(g, rows, cols)
    ensures Total(Derive(g, rows, cols)[0]) == RowsPainted(g, rows)
    ensures Total(Derive(g, rows, cols)[1]) == RowsPainted(g, rows)
  {
    var d := Derive(g, rows, cols);
    forall j | 0 <= j < rows ensures Sum(d[0][j]) == CountPainted(g[j]) {
      DeriveEntry(g, rows, cols, 0, j);
      LineClueSum(g[j]);
    }
    forall j | 0 <= j < cols ensures Sum(d[1][j]) == CountPainted(Col(g, j)) {
      DeriveEntry(g, rows, cols, 1, j);
      LineClueSum(Col(g, j));
    }
    RowCluesTotal(g, d[0], rows);
    ColCluesTotal(g, cols, d[1], cols);
    PaintedByRowsAndColumns(g, cols);
  }

  // ---------------------------------------------------------------------
  // Painting a line from blocks and scanning it gives the blocks back.

  function Zeros(n: nat): (s: seq<int>)
    ensures |s| == n
  {
    if n == 0 then [] else Zeros(n - 1) + [0]
  }

  function Ones(n: nat): (s: seq<int>)
    ensures |s| == n
  {
    if n == 0 then [] else Ones(n - 1) + [1]
  }

  lemma {:induction false} OnesArePainted(n: nat)
    ensures forall k :: 0 <= k < n ==> Ones(n)[k] == 1
  {
    if n > 0 {
      OnesArePainted(n - 1);
    }
  }

  /** A run of `run` painted cells after `gap` empty ones. */
  datatype Block = Block(gap: nat, run: nat)

  function Paint(blocks: seq<Block>): seq<int>
    decreases |blocks|
  {
    if blocks == [] then []
    else
      var last := blocks[|blocks| - 1];
      Paint(blocks[..|blocks| - 1]) + Zeros(last.gap) + Ones(last.run)
  }

  /** Every run is painted, and every block after the first is separated from the previous one. */
  predicate WellSeparated(blocks: seq<Block>) {
    forall k :: 0 <= k < |blocks| ==> blocks[k].run >= 1 && (k > 0 ==> blocks[k].gap >= 1)
  }

  function RunLengths(blocks: seq<Block>): (runs: seq<int>)
    ensures |runs| == |blocks|
  {
    seq(|blocks|, k requires 0 <= k < |blocks| => blocks[k].run)
  }

  function Close(st: ScanState): ScanState {
    if st.open != 0 then ScanState(st.closed + [st.open], 0) else st
  }

  lemma {:induction false} ScanZeros(s: seq<int>, n: nat)
    ensures Scan(s + Zeros(n)) == if n == 0 then Scan(s) else Close(Scan(s))
    decreases n
  {
    if n > 0 {
      ScanZeros(s, n - 1);
      assert s + Zeros(n) == (s + Zeros(n - 1)) + [0];
      ScanSnoc(s + Zeros(n - 1), 0);
    } else {
      assert s + Zeros(n) == s;
    }
  }

  lemma {:induction false} ScanOnes(s: seq<int>, n: nat)
    ensures Scan(s + Ones(n)) == ScanState(Scan(s).closed, Scan(s).open + n)
    decreases n
  {
    if n > 0 {
      var t := s + Ones(n - 1);
      ScanOnes(s, n - 1);
      assert s + Ones(n) == t + [1];
      ScanSnoc(t, 1);
    } else {
      assert s + Ones(n) == s;
    }
  }

  lemma {:induction false} ScanPaint(blocks: seq<Block>)
    requires WellSeparated(blocks)
    ensures blocks == [] ==> Scan(Paint(blocks)) == ScanState([], 0)
    ensures blocks != [] ==>
      Scan(Paint(blocks)) == ScanState(RunLengths(blocks[..|blocks| - 1]), blocks[|blocks| - 1].run)
    decreases |blocks|
  {
    if blocks != [] {
      var n := |blocks|;
      var front := blocks[..n - 1];
      var last := blocks[n - 1];
      assert WellSeparated(front);
      assert Paint(blocks) == (Paint(front) + Zeros(last.gap)) + Ones(last.run);
      ScanPaint(front);
      ScanZeros(Paint(front), last.gap);
      ScanOnes(Paint(front) + Zeros(last.gap), last.run);
      if front != [] {
        RunLengthsSnoc(front);
      }
    }
  }

  lemma RunLengthsSnoc(blocks: seq<Block>)
    requires blocks != []
    ensures RunLengths(blocks) == RunLengths(blocks[..|blocks| - 1]) + [blocks[|blocks| - 1].run]
  {
  }

  /** Scanning a painted line, with any number of empty cells after it, recovers the run lengths. */
  lemma PaintThenRuns(blocks: seq<Block>, tail: nat)
    requires WellSeparated(blocks)
    ensures Runs(Paint(blocks) + Zeros(tail)) == RunLengths(blocks)
  {
    var line := Paint(blocks) + Zeros(tail);
    ScanPaint(blocks);
    ScanZeros(Paint(blocks), tail);
    if blocks != [] {
      RunLengthsSnoc(blocks);
      assert blocks[|blocks| - 1].run >= 1;
    }
  }

  // ---------------------------------------------------------------------
  // A single-cell toggle.

  /** Cell (r, c) after a click: a 1 becomes 0 and anything else becomes 1. */
  function Toggled(g: Grid, r: nat, c: nat): (t: Grid)
    requires r < |g| && c < |g[r]|
    ensures |t| == |g| && |t[r]| == |g[r]|
  {
    g[r := g[r][c := if g[r][c] == 1 then 0 else 1]]
  }

  /** A toggle flips exactly one cell; every other cell keeps its value. */
  lemma ToggleFlipsOneCell(g: Grid, rows: nat, cols: nat, r: nat, c: nat)
    requires IsGrid(g, rows, cols) && r < rows && c < cols
    ensures IsGrid(Toggled(g, r, c), rows, cols)
    ensures Toggled(g, r, c)[r][c] == if g[r][c] == 1 then 0 else 1
    ensures forall r', c' :: 0 <= r' < rows && 0 <= c' < cols && (r', c') != (r, c) ==>
      Toggled(g, r, c)[r'][c'] == g[r'][c']
  {
  }

  /** Toggling a 0/1 cell twice restores the grid, and so the derived clues. */
  lemma ToggleTwice(g: Grid, rows: nat, cols: nat, r: nat, c: nat)
    requires IsGrid(g, rows, cols) && r < rows && c < cols
    requires g[r][c] == 0 || g[r][c] == 1
    ensures Toggled(Toggled(g, r, c), r, c) == g
    ensures Derive(Toggled(Toggled(g, r, c), r, c), rows, cols) == Derive(g, rows, cols)
  {
    var t := Toggled(Toggled(g, r, c), r, c);
    assert t[r] == g[r];
    assert t == g;
  }

  /** After toggling (r, c) only the clues of row r and of column c can change. */
  lemma ToggleChangesOneRowAndOneColumn(g: Grid, rows: nat, cols: nat, r: nat, c: nat)
    requires IsGrid(g, rows, cols) && r < rows && c < cols
    ensures IsGrid(Toggled(g, r, c), rows, cols)
    ensures forall j :: 0 <= j < rows && j != r ==>
      Derive(Toggled(g, r, c), rows, cols)[0][j] == Derive(g, rows, cols)[0][j]
    ensures forall j :: 0 <= j < cols && j != c ==>
      Derive(Toggled(g, r, c), rows, cols)[1][j] == Derive(g, rows, cols)[1][j]
  {
    var t := Toggled(g, r, c);
    forall j | 0 <= j < cols && j != c ensures Col(t, j) == Col(g, j) {
      assert forall k :: 0 <= k < rows ==> t[k][j] == g[k][j];
    }
  }

  // ---------------------------------------------------------------------
  // Worked examples.

  /** A line with a single block of painted cells has that block's length as its only clue. */
  lemma SingleRunLine(lead: nat, run: nat, tail: nat)
    requires run >= 1
    ensures LineClue(Zeros(lead) + Ones(run) + Zeros(tail)) == [run]
  {
    var blocks := [Block(lead, run)];
    var z, o := Zeros(lead), Ones(run);
    assert blocks[..0] == [];
    assert [] + z == z;
    assert Paint(blocks) == z + o;
    assert WellSeparated(blocks);
    PaintThenRuns(blocks, tail);
    assert RunLengths(blocks) == [run];
  }
}
