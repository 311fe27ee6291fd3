/**
 * The solved check of the solving screen (PuzzleSolvingPanel.CheckIfPuzzleIsSolved)
 * as a specification: a streaming comparison of each line's runs with its
 * target clue list.
 *
 * The comparison follows the C# code, quirks included:
 *  - a line whose runs are the clue list followed by one more run that is
 *    still open at the last cell is accepted (the final comparison is
 *    skipped once the clue index has reached the end of the list);
 *  - a line with one run more than its clue list, closed by a 0, reads past
 *    the end of the clue array: an IndexOutOfRangeException, here `Fault`.
 */
module SolvedCheck {
  import opened Clues

  /** The outcome for one line or for the whole grid: accepted, rejected, or an exception. */
  datatype Verdict = Match | Mismatch | Fault

  /** The streaming state: the open run's length and the clue index, or a decided line. */
  datatype CheckState = Running(value: int, index: nat) | Stopped(verdict: Verdict)

  /** One cell: a 0 closes an open run and compares it with the next clue entry. */
  function CheckStep(st: CheckState, cell: int, clue: seq<int>): CheckState {
    match st
    case Stopped(_) => st
    case Running(value, index) =>
      if cell == 0 then
        if value != 0 then
          if index >= |clue| then Stopped(Fault)
          else if clue[index] != value then Stopped(Mismatch)
          else Running(0, index + 1)
        else st
      else if cell == 1 then Running(value + 1, index)
      else st
  }

  function CheckScan(line: seq<int>, clue: seq<int>): CheckState
    decreases |line|
  {
    if line == [] then Running(0, 0)
    else CheckStep(CheckScan(line[..|line| - 1], clue), line[|line| - 1], clue)
  }

  /** After the last cell: the open run (possibly 0) against the next entry, then the length test. */
  function Finish(st: CheckState, clue: seq<int>): Verdict {
    match st
    case Stopped(v) => v
    case Running(value, index) =>
      if index < |clue| then
        if clue[index] != value then Mismatch
        else if index + 1 < |clue| then Mismatch
        else Match
      else Match
  }

  function CheckLine(line: seq<int>, clue: seq<int>): Verdict {
    Finish(CheckScan(line, clue), clue)
  }

  predicate IsPrefix(a: seq<int>, b: seq<int>) {
    |a| <= |b| && b[..|a|] == a
  }

  /** The streaming state predicted from the scan of the same cells. */
  function Expected(st: ScanState, clue: seq<int>): CheckState {
    if IsPrefix(st.closed, clue) then Running(st.open, |st.closed|)
    else if IsPrefix(clue, st.closed) then Stopped(Fault)
    else Stopped(Mismatch)
  }

  lemma PrefixSnoc(a: seq<int>, x: int, b: seq<int>)
    requires IsPrefix(a, b)
    ensures IsPrefix(a + [x], b) <==> |a| < |b| && b[|a|] == x
  {
    if |a| < |b| && b[|a|] == x {
      assert b[..|a| + 1] == b[..|a|] + [b[|a|]];
    }
    if IsPrefix(a + [x], b) {
      assert (a + [x])[|a|] == x;
    }
  }

  /** Neither sequence being a prefix of the other survives extending the first. */
  lemma NotPrefixSnoc(a: seq<int>, x: int, b: seq<int>)
    requires !IsPrefix(a, b) && !IsPrefix(b, a)
    ensures !IsPrefix(a + [x], b) && !IsPrefix(b, a + [x])
  {
    if |a| + 1 <= |b| {
      assert b[..|a| + 1][..|a|] == b[..|a|];
      assert (a + [x])[..|a|] == a;
    }
    if |b| <= |a| {
      assert (a + [x])[..|b|] == a[..|b|];
    } else if |b| == |a| + 1 {
      assert (a + [x])[..|b|] == a + [x];
      assert (a + [x])[..|a|] == a;
    }
  }

  /** A prefix of the first stays a prefix of its extension. */
  lemma PrefixOfSnoc(b: seq<int>, a: seq<int>, x: int)
    requires IsPrefix(b, a)
    ensures IsPrefix(b, a + [x])
  {
    assert (a + [x])[..|b|] == a[..|b|];
  }

  /** The streaming check is the run scan followed by a prefix comparison with the clue list. */
  lemma {:induction false} CheckScanFollowsScan(line: seq<int>, clue: seq<int>)
    ensures CheckScan(line, clue) == Expected(Scan(line), clue)
    decreases |line|
  {
    if line != [] {
      var prefix := line[..|line| - 1];
      var cell := line[|line| - 1];
      CheckScanFollowsScan(prefix, clue);
      var st := Scan(prefix);
      if IsPrefix(st.closed, clue) {
        if cell == 0 && st.open != 0 {
          PrefixSnoc(st.closed, st.open, clue);
          if |st.closed| >= |clue| {
            assert clue == st.closed;
            PrefixOfSnoc(clue, st.closed, st.open);
          }
        }
      } else if IsPrefix(clue, st.closed) {
        if cell == 0 && st.open != 0 {
          PrefixOfSnoc(clue, st.closed, st.open);
        }
      } else {
        if cell == 0 && st.open != 0 {
          NotPrefixSnoc(st.closed, st.open, clue);
        }
      }
    }
  }

  /** Once a line is decided, the cells after it do not change the outcome. */
  lemma {:induction false} CheckScanStopped(line: seq<int>, clue: seq<int>, k: nat)
    requires k <= |line| && CheckScan(line[..k], clue).Stopped?
    ensures CheckScan(line, clue) == CheckScan(line[..k], clue)
    decreases |line|
  {
    if k < |line| {
      var prefix := line[..|line| - 1];
      assert prefix[..k] == line[..k];
      CheckScanStopped(prefix, clue, k);
    } else {
      assert line[..k] == line;
    }
  }

  /**
   * The line check accepts exactly the clue lists equal to the closed runs,
   * with or without the final (possibly 0) open run, and throws exactly when
   * the clue list is a proper prefix of the closed runs.
   */
  lemma CheckLineExact(line: seq<int>, clue: seq<int>)
    ensures var st := Scan(line);
      (CheckLine(line, clue) == Match <==> clue == st.closed || clue == st.closed + [st.open]) &&
      (CheckLine(line, clue) == Fault <==> |clue| < |st.closed| && IsPrefix(clue, st.closed))
  {
    var st := Scan(line);
    CheckScanFollowsScan(line, clue);
    if IsPrefix(st.closed, clue) {
      if |st.closed| < |clue| {
        if clue[|st.closed|] == st.open && |st.closed| + 1 == |clue| {
          assert clue == clue[..|st.closed|] + [clue[|st.closed|]];
        }
        if clue == st.closed + [st.open] {
          assert clue[|st.closed|] == st.open;
        }
      }
    }
  }

  /** Every line passes against its own derived clue list. */
  lemma AcceptsOwnClue(line: seq<int>)
    ensures CheckLine(line, LineClue(line)) == Match
  {
    CheckLineExact(line, LineClue(line));
    LineClueBlank(line);
    ScanBlank(line);
  }

  /**
   * Against a clue list in the stored form, a line passes exactly when the
   * list is the line's own clue, or its own runs with the last one dropped
   * while that run is still open at the end of the line.
   */
  lemma CanonicalMatch(line: seq<int>, clue: seq<int>)
    requires IsCanonicalClue(clue)
    ensures CheckLine(line, clue) == Match <==>
      clue == LineClue(line) ||
      (Scan(line).open > 0 && |Runs(line)| >= 2 && clue == Runs(line)[..|Runs(line)| - 1])
  {
    var st := Scan(line);
    CheckLineExact(line, clue);
    LineClueBlank(line);
    ScanBlank(line);
    var runs := Runs(line);
    if st.open > 0 {
      assert runs[..|runs| - 1] == st.closed;
    }
    if clue == st.closed + [st.open] && st.open == 0 {
      assert clue[|clue| - 1] == 0;
      assert clue == [0];
    }
    if clue == st.closed && st.open == 0 {
      assert clue != [];
    }
  }

  /** A completed run that differs from the clue entry at its position fails the line. */
  lemma CompletedRunMismatch(line: seq<int>, clue: seq<int>, k: nat)
    requires k < |Scan(line).closed| && k < |clue|
    requires Scan(line).closed[..k] == clue[..k] && Scan(line).closed[k] != clue[k]
    ensures CheckLine(line, clue) == Mismatch
  {
    var st := Scan(line);
    CheckScanFollowsScan(line, clue);
    assert st.closed[..k + 1][k] == st.closed[k];
    assert !IsPrefix(st.closed, clue) && !IsPrefix(clue, st.closed);
  }

  /** With every closed run matched, a final run unequal to the next entry fails the line. */
  lemma FinalRunMismatch(line: seq<int>, clue: seq<int>)
    requires IsPrefix(Scan(line).closed, clue)
    requires |Scan(line).closed| < |clue| && clue[|Scan(line).closed|] != Scan(line).open
    ensures CheckLine(line, clue) == Mismatch
  {
    CheckScanFollowsScan(line, clue);
  }

  /** A blank line fails against any stored clue list other than [0]. */
  lemma BlankLineMismatch(line: seq<int>, clue: seq<int>)
    requires NoPainted(line)
    requires IsCanonicalClue(clue) && clue != [0]
    ensures CheckLine(line, clue) == Mismatch
  {
    ScanBlank(line);
    FinalRunMismatch(line, clue);
  }

  /** With every closed run matched, a clue list longer by two or more fails the line. */
  lemma TooFewRuns(line: seq<int>, clue: seq<int>)
    requires IsPrefix(Scan(line).closed, clue)
    requires |Scan(line).closed| + 1 < |clue|
    ensures CheckLine(line, clue) == Mismatch
  {
    CheckScanFollowsScan(line, clue);
  }

  /** A stored clue list with more entries than the line's own clue fails the line. */
  lemma LongerClueMismatch(line: seq<int>, clue: seq<int>)
    requires IsCanonicalClue(clue)
    requires |LineClue(line)| < |clue|
    ensures CheckLine(line, clue) == Mismatch
  {
    CheckLineExact(line, clue);
    CheckScanFollowsScan(line, clue);
    ScanBlank(line);
  }

  /** A second run ending on the last cell is accepted against a one-entry list. */
  lemma ExtraOpenRunAccepted()
    ensures CheckLine([1, 0, 1], [1]) == Match
    ensures LineClue([1, 0, 1]) == [1, 1]
  {
    assert [1, 0, 1][..2] == [1, 0];
    assert [1, 0][..1] == [1];
    assert [1][..0] == [];
  }

  /** A second run closed by a 0 reads past a one-entry list. */
  lemma ExtraClosedRunFaults()
    ensures CheckLine([1, 0, 1, 0], [1]) == Fault
  {
    assert [1, 0, 1, 0][..3] == [1, 0, 1];
    assert [1, 0, 1][..2] == [1, 0];
    assert [1, 0][..1] == [1];
    assert [1][..0] == [];
  }

  // ---------------------------------------------------------------------
  // The whole grid, in the loop order of the C# method.

  /** Line j of part i against its clue list; a missing list throws on first access. */
  function LineVerdict(g: Grid, cols: nat, numbers: seq<seq<seq<int>>>, i: nat, j: nat): Verdict
    requires IsGrid(g, |g|, cols) && i < |numbers| && j < Bound(i, |g|, cols)
  {
    if j < |numbers[i]| then CheckLine(Line(g, cols, i, j), numbers[i][j]) else Fault
  }

  /** The first failing verdict among the first n lines of part i, or Match. */
  function PartVerdict(g: Grid, cols: nat, numbers: seq<seq<seq<int>>>, i: nat, n: nat): Verdict
    requires IsGrid(g, |g|, cols) && i < |numbers| && n <= Bound(i, |g|, cols)
    decreases n
  {
    if n == 0 then Match
    else
      var p := PartVerdict(g, cols, numbers, i, n - 1);
      if p != Match then p else LineVerdict(g, cols, numbers, i, n - 1)
  }

  /** The first failing verdict among the first m parts, or Match. */
  function PartsVerdict(g: Grid, cols: nat, numbers: seq<seq<seq<int>>>, m: nat): Verdict
    requires IsGrid(g, |g|, cols) && m <= |numbers|
    decreases m
  {
    if m == 0 then Match
    else
      var p := PartsVerdict(g, cols, numbers, m - 1);
      if p != Match then p else PartVerdict(g, cols, numbers, m - 1, Bound(m - 1, |g|, cols))
  }

  function GridVerdict(g: Grid, cols: nat, numbers: seq<seq<seq<int>>>): Verdict
    requires IsGrid(g, |g|, cols)
  {
    PartsVerdict(g, cols, numbers, |numbers|)
  }

  /** Every line of every part passes. */
  predicate AllLinesMatch(g: Grid, cols: nat, numbers: seq<seq<seq<int>>>)
    requires IsGrid(g, |g|, cols)
  {
    forall i, j :: 0 <= i < |numbers| && 0 <= j < Bound(i, |g|, cols) ==>
      LineVerdict(g, cols, numbers, i, j) == Match
  }

  lemma {:induction false} PartVerdictMatch(g: Grid, cols: nat, numbers: seq<seq<seq<int>>>, i: nat, n: nat)
    requires IsGrid(g, |g|, cols) && i < |numbers| && n <= Bound(i, |g|, cols)
    ensures PartVerdict(g, cols, numbers, i, n) == Match <==>
      forall j :: 0 <= j < n ==> LineVerdict(g, cols, numbers, i, j) == Match
    ensures PartVerdict(g, cols, numbers, i, n) == Fault ==>
      exists j :: 0 <= j < n && LineVerdict(g, cols, numbers, i, j) == Fault
    decreases n
  {
    if n > 0 {
      PartVerdictMatch(g, cols, numbers, i, n - 1);
    }
  }

  lemma {:induction false} PartsVerdictMatch(g: Grid, cols: nat, numbers: seq<seq<seq<int>>>, m: nat)
    requires IsGrid(g, |g|, cols) && m <= |numbers|
    ensures PartsVerdict(g, cols, numbers, m) == Match <==>
      forall i, j :: 0 <= i < m && 0 <= j < Bound(i, |g|, cols) ==>
        LineVerdict(g, cols, numbers, i, j) == Match
    ensures PartsVerdict(g, cols, numbers, m) == Fault ==>
      exists i, j :: 0 <= i < m && 0 <= j < Bound(i, |g|, cols) &&
        LineVerdict(g, cols, numbers, i, j) == Fault
    decreases m
  {
    if m > 0 {
      PartsVerdictMatch(g, cols, numbers, m - 1);
      PartVerdictMatch(g, cols, numbers, m - 1, Bound(m - 1, |g|, cols));
    }
  }

  /** A failing verdict among the first j lines of a part stands for the first n >= j. */
  lemma {:induction false} PartVerdictStays(g: Grid, cols: nat, numbers: seq<seq<seq<int>>>, i: nat, j: nat, n: nat)
    requires IsGrid(g, |g|, cols) && i < |numbers| && j <= n <= Bound(i, |g|, cols)
    requires PartVerdict(g, cols, numbers, i, j) != Match
    ensures PartVerdict(g, cols, numbers, i, n) == PartVerdict(g, cols, numbers, i, j)
    decreases n
  {
    if n > j {
      PartVerdictStays(g, cols, numbers, i, j, n - 1);
    }
  }

  /** A failing verdict among the first a parts stands for the first m >= a. */
  lemma {:induction false} PartsVerdictStays(g: Grid, cols: nat, numbers: seq<seq<seq<int>>>, a: nat, m: nat)
    requires IsGrid(g, |g|, cols) && a <= m <= |numbers|
    requires PartsVerdict(g, cols, numbers, a) != Match
    ensures PartsVerdict(g, cols, numbers, m) == PartsVerdict(g, cols, numbers, a)
    decreases m
  {
    if m > a {
      PartsVerdictStays(g, cols, numbers, a, m - 1);
    }
  }

  /** The first line that does not pass, in loop order, decides the whole grid. */
  lemma FirstFailureDecides(g: Grid, cols: nat, numbers: seq<seq<seq<int>>>, i: nat, j: nat)
    requires IsGrid(g, |g|, cols) && i < |numbers| && j < Bound(i, |g|, cols)
    requires PartsVerdict(g, cols, numbers, i) == Match
    requires PartVerdict(g, cols, numbers, i, j) == Match
    requires LineVerdict(g, cols, numbers, i, j) != Match
    ensures GridVerdict(g, cols, numbers) == LineVerdict(g, cols, numbers, i, j)
  {
    PartVerdictStays(g, cols, numbers, i, j + 1, Bound(i, |g|, cols));
    PartsVerdictStays(g, cols, numbers, i + 1, |numbers|);
  }

  /**
   * The grid is solved exactly when every line passes, and the check only
   * throws when some line throws; so without a throwing line, "not solved"
   * means some line was rejected.
   */
  lemma GridVerdictMeaning(g: Grid, cols: nat, numbers: seq<seq<seq<int>>>)
    requires IsGrid(g, |g|, cols)
    ensures GridVerdict(g, cols, numbers) == Match <==> AllLinesMatch(g, cols, numbers)
    ensures GridVerdict(g, cols, numbers) == Fault ==>
      exists i, j :: 0 <= i < |numbers| && 0 <= j < Bound(i, |g|, cols) &&
        LineVerdict(g, cols, numbers, i, j) == Fault
  {
    PartsVerdictMatch(g, cols, numbers, |numbers|);
  }

  /** A grid is solved against the clues derived from it. */
  lemma SolvedAgainstOwnClues(g: Grid, rows: nat, cols: nat)
    requires IsGrid(g, rows, cols)
    ensures GridVerdict(g, cols, Derive(g, rows, cols)) == Match
  {
    var d := Derive(g, rows, cols);
    forall i, j | 0 <= i < |d| && 0 <= j < Bound(i, |g|, cols)
      ensures LineVerdict(g, cols, d, i, j) == Match
    {
      AcceptsOwnClue(Line(g, cols, i, j));
    }
    GridVerdictMeaning(g, cols, d);
  }

  /** With clue lists for every line, one rejected line and no throwing line, the grid is not solved. */
  lemma OneMismatchNotSolved(g: Grid, cols: nat, numbers: seq<seq<seq<int>>>, i: nat, j: nat)
    requires IsGrid(g, |g|, cols)
    requires i < |numbers| && j < Bound(i, |g|, cols)
    requires LineVerdict(g, cols, numbers, i, j) == Mismatch
    requires forall i', j' :: 0 <= i' < |numbers| && 0 <= j' < Bound(i', |g|, cols) ==>
      LineVerdict(g, cols, numbers, i', j') != Fault
    ensures GridVerdict(g, cols, numbers) == Mismatch
  {
    GridVerdictMeaning(g, cols, numbers);
  }
}
