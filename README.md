# Nonogram puzzles: clues, solved check, catalog and screens

This project models the logic core of a Windows Forms nonogram game. A
puzzle is a grid of cells, where 1 means painted. Its clues give, for every
row and every column, the lengths of the maximal runs of painted cells in
order. A line with no painted cell has the clue `[0]`.

The model covers:

- the puzzle entity: its constructors, the cell matrix, the jagged-array
  conversion, clue derivation and the "has a 1" guard;
- the built-in catalog of ten puzzles;
- the store's upsert;
- the drawing board of the sandbox, which recomputes clues on every click;
- the solving board, which checks the grid against the target clues and
  saves on success;
- the level list with its filter, order and slide navigation;
- the sandbox's save gate and the naming screen.

The clue array is `int[][][]`. Part `[0]` holds one list per row and part
`[1]` one per column. Every part after the first is read as columns.

Module layout:

- `Clues` (clues.dfy) is the specification. It defines the left-to-right
  scan of a line (`Scan`), its runs (`Runs`) and clue (`LineClue`), and the
  clue set of a grid (`Derive`).
- `SolvedCheck` (solvedcheck.dfy) defines the streaming line check
  (`CheckLine`) and the grid verdict (`GridVerdict`). The outcome is
  `Match` for true, `Mismatch` for false, or `Fault` when the C# code would
  throw IndexOutOfRangeException.
- `Puzzles`, `SandboxPanel`, `SolvingPanel`, `Storage`, `PuzzleList`,
  `Sandbox` and `SavingControl` follow the C# classes and carry their loops.
  Each is proved against the functions above.
- `HardcodedPuzzles` holds the catalog data.

Cells are `int`, as in the source. The scan's `switch` has no default: a 0
closes an open run, a 1 extends it, and any other value is skipped.

A puzzle is a `class`. Its cell matrix is an `array2<int>` written in place.
Its clue array is a value field that the methods reassign.

Things the model shows about the source as written:

- `HasAtLeastOneNumber` looks for a clue entry equal to 1, not for any
  non-zero entry. A fully painted n x n board with n at least 2 has the clue [n]
  on every line, so the save gate rejects it (`Puzzles.FilledSquareHasNoOne`).
- The solved check accepts a line whose runs are the clue list plus one
  more run that reaches the last cell: [1,0,1] passes against [1].
- An extra run closed by a 0 reads past the clue array, so the check
  throws (`SolvedCheck.ExtraOpenRunAccepted`, `SolvedCheck.ExtraClosedRunFaults`).
- The sandbox sizes its run buffer from the number of columns, for columns
  too. A board taller than it is wide can overflow it
  (`SandboxPanel.TallColumnOverflows`). Only 5x5 puzzles reach the sandbox.
  On those boards, and on any board no taller than it is wide, the buffer
  always fits (`SandboxPanel.ShortBoardFits`).
- The built-in "Pelican" puzzle (id 9, the last entry) is inconsistent. Its row clues add
  up to 113 painted cells and its column clues to 112. No picture derives
  them, so the puzzle cannot be solved (`HardcodedPuzzles.PelicanHasNoPicture`).
  The other nine entries pass this count check (`HardcodedPuzzles.CatalogTotals`).
  "Heart" has an explicit solution (`HardcodedPuzzles.HeartIsSolvable`).
- The loops of `Puzzle.CalculatePuzzleNumbers` and `HasAtLeastOneNumber`
  mix up the two dimensions. They are only consistent on square grids.

The model keeps the source's quirks; no corrected version of the code is
given.

Outside inputs:

- The store file is a value (`Storage.StoreFile`) passed in and returned. It holds
  `Storage.PuzzleRecord` values, copies of each puzzle's properties and cells taken
  when the list is written, so changing a puzzle later does not change the file.
  Loading builds fresh `Puzzle` objects from the records.
- The maximum id is a parameter.
- A keystroke in the name box is `SavingControl.PuzzleSavingControl.Type`.
- A timer tick is a call to `PuzzleList.PuzzleListControl.SlideTimerTick`.

## Model

| member | source | states |
|---|---|---|
| Clues.Scan | Classes/Puzzle.cs:229-243 | the scan's closed runs are all at least 1 and its open run is never negative; each run costs at least one cell plus a separating 0, so 2·closed + open ≤ line length |
| Clues.ScanBlank | Classes/Puzzle.cs:229-248 | the scan ends with no closed and no open run exactly when no cell of the line is 1 |
| Clues.ClosedRunsBound | Classes/Puzzle.cs:225-248 | the runs counted after any prefix of a line never exceed the runs of the whole line, so a buffer that holds all runs is never overrun mid-scan |
| Clues.Runs | Classes/Puzzle.cs:225-248 | every run length is at least 1 and a line of n cells has at most (n+1)/2 runs |
| Clues.RunsBlank | Classes/Puzzle.cs:244-262 | a line has no run exactly when none of its cells is painted |
| Clues.LineClue | Classes/Puzzle.cs:250-270 | a line's clue list is never empty, is either [0] or a list of lengths ≥ 1, and is no longer than (n+1)/2 unless it is [0] |
| Clues.LineClueBlank | Classes/Puzzle.cs:259-262 | the clue is the sentinel [0] exactly when the line has no painted cell |
| Clues.DeriveEntry | Controls/Panels/PuzzleSandboxPanel.cs:272-325 | entry [0][j] of the clue set is the clue of row j (cells [j,k]) and entry [1][j] is the clue of column j (cells [k,j]) |
| Clues.DeriveShape | Classes/Puzzle.cs:214-218 | the clue set has two parts, one list per row and one per column, each canonical, and [0] exactly for the blank lines |
| Clues.DeriveZeroGrid | Classes/Puzzle.cs:181-186 | an all-zero grid derives the all-[0] clue set |
| Clues.LineClueSum | Classes/Puzzle.cs:229-270 | the numbers of a line's clue add up to the number of painted cells in the line |
| Clues.RunsSumIsPaintedCount | Classes/Puzzle.cs:229-248 | the run lengths of a line add up to the number of its 1 cells |
| Clues.ScanSumIsPaintedCount | Classes/Puzzle.cs:229-243 | after any prefix, the closed runs plus the open run add up to the 1 cells seen so far |
| Clues.PaintedByRowsAndColumns | Classes/Puzzle.cs:229-243 | counting painted cells row by row or column by column gives the same total |
| Clues.RowCluesTotal | Classes/Puzzle.cs:220-271 | when each row's clue list adds up to that row's painted cells, the lists of the first n rows add up to the painted cells of those rows |
| Clues.ColCluesTotal | Classes/Puzzle.cs:220-271 | when each column's clue list adds up to that column's painted cells, the lists of the first n columns add up to the painted cells of those columns |
| Clues.DerivedTotalsAgree | Classes/Puzzle.cs:209-275 | in any derived clue set, the row clues and the column clues both add up to the grid's painted cells |
| Clues.ScanZeros | Classes/Puzzle.cs:233-239 | appending empty cells closes the open run once and changes nothing more |
| Clues.ScanOnes | Classes/Puzzle.cs:240-242 | appending n painted cells lengthens the open run by n and closes nothing |
| Clues.ScanPaint | Classes/Puzzle.cs:229-243 | scanning a line painted from well-separated blocks yields the blocks' lengths, the last one still open |
| Clues.PaintThenRuns | Classes/Puzzle.cs:229-248 | round trip: painting runs separated by gaps, then deriving the runs, gives back the run lengths |
| Clues.SingleRunLine | Classes/Puzzle.cs:229-270 | a line with one painted run of length r, anywhere, has the clue [r] |
| Clues.ToggleFlipsOneCell | Controls/Panels/PuzzleSandboxPanel.cs:189-192 | a click sets its cell to 0 if it held 1 and to 1 otherwise; every other cell keeps its value |
| Clues.ToggleTwice | Controls/Panels/PuzzleSandboxPanel.cs:189-195 | toggling the same 0/1 cell twice restores the grid, and so the recomputed clues |
| Clues.ToggleChangesOneRowAndOneColumn | Controls/Panels/PuzzleSandboxPanel.cs:189-195 | after a toggle of (r, c) only the clues of row r and column c can differ |
| SolvedCheck.CheckScanFollowsScan | Controls/Panels/PuzzleSolvingPanel.cs:257-281 | the streaming check is the run scan compared as a prefix of the clue list: it is still running while the closed runs are a prefix of the clues, throws once the clues are a proper prefix of the runs, and otherwise has rejected |
| SolvedCheck.CheckScanStopped | Controls/Panels/PuzzleSolvingPanel.cs:271-274 | once a line is rejected or has thrown, the remaining cells do not change the outcome |
| SolvedCheck.CheckLineExact | Controls/Panels/PuzzleSolvingPanel.cs:257-293 | a line is accepted exactly when its clue list equals its closed runs, with or without the final (possibly empty) open run; it throws exactly when the clue list is a proper prefix of the closed runs |
| SolvedCheck.AcceptsOwnClue | Controls/Panels/PuzzleSolvingPanel.cs:252-297 | a line is always accepted against its own derived clue, blank lines against [0] |
| SolvedCheck.CanonicalMatch | Controls/Panels/PuzzleSolvingPanel.cs:257-293 | against a canonical clue list, a line is accepted exactly when the list is its derived clue or, when the line ends on a run, its runs without the last one |
| SolvedCheck.CompletedRunMismatch | Controls/Panels/PuzzleSolvingPanel.cs:271-274 | a completed run that differs from the clue entry at its position rejects the line |
| SolvedCheck.FinalRunMismatch | Controls/Panels/PuzzleSolvingPanel.cs:283-289 | a final run that differs from the next clue entry rejects the line |
| SolvedCheck.BlankLineMismatch | Controls/Panels/PuzzleSolvingPanel.cs:283-289 | a blank line is rejected against any canonical clue list other than [0] |
| SolvedCheck.TooFewRuns | Controls/Panels/PuzzleSolvingPanel.cs:290-293 | a line whose completed runs match the start of the clue list, but number at least two fewer than its entries, is rejected |
| SolvedCheck.LongerClueMismatch | Controls/Panels/PuzzleSolvingPanel.cs:283-293 | a canonical clue list longer than the line's derived clue rejects the line |
| SolvedCheck.ExtraOpenRunAccepted | Controls/Panels/PuzzleSolvingPanel.cs:283-293 | [1,0,1] is accepted against [1] although its clue is [1,1], because the final comparison is skipped once the clue list is used up |
| SolvedCheck.ExtraClosedRunFaults | Controls/Panels/PuzzleSolvingPanel.cs:271 | [1,0,1,0] against [1] reads past the clue array |
| SolvedCheck.PartVerdictMatch | Controls/Panels/PuzzleSolvingPanel.cs:259-295 | a part passes exactly when each of its lines passes, and it throws only if some line throws |
| SolvedCheck.PartsVerdictMatch | Controls/Panels/PuzzleSolvingPanel.cs:257-296 | the first m parts pass exactly when every line in them passes, and they throw only if some line throws |
| SolvedCheck.PartVerdictStays | Controls/Panels/PuzzleSolvingPanel.cs:259-295 | the first failing line of a part decides the part, whatever follows |
| SolvedCheck.PartsVerdictStays | Controls/Panels/PuzzleSolvingPanel.cs:257-296 | the first failing part decides the grid, whatever follows |
| SolvedCheck.FirstFailureDecides | Controls/Panels/PuzzleSolvingPanel.cs:257-296 | the first line in loop order that does not pass gives the grid's verdict (an early return) |
| SolvedCheck.GridVerdictMeaning | Controls/Panels/PuzzleSolvingPanel.cs:252-297 | the grid is solved exactly when every line of every part passes, and the check throws only when some line throws |
| SolvedCheck.SolvedAgainstOwnClues | Controls/Panels/PuzzleSolvingPanel.cs:252-297 | a grid is solved against the clues derived from it |
| SolvedCheck.OneMismatchNotSolved | Controls/Panels/PuzzleSolvingPanel.cs:252-297 | if every line has a clue list, none throws and one line is rejected, the grid is not solved |
| Puzzles.Snapshot | Classes/Puzzle.cs:118-122 | the matrix read as a grid has its dimensions and agrees with it cell by cell |
| Puzzles.NewZeroMatrix | Classes/Puzzle.cs:157-165 | a fresh rows×cols matrix holding only zeros |
| Puzzles.ScanIntoBuffer | Classes/Puzzle.cs:224-243 | the scan loop writes exactly the closed runs of the line into the zero buffer, front first; it leaves the open run in `value` and the rest of the buffer zero, and it overruns only when the line has more runs than the buffer has room |
| Puzzles.BufferRuns | Classes/Puzzle.cs:224-248 | the buffer holds exactly the line's runs followed by zeros; the writes fail exactly when the runs do not fit |
| Puzzles.CountNonZero | Classes/Puzzle.cs:250-257 | counting the buffer's non-zero entries gives the number of runs |
| Puzzles.NumbersToSave | Classes/Puzzle.cs:259-270 | the saved list is [0] when no run was counted, else a copy of the first n buffer entries |
| Puzzles.SquareLineClue | Classes/Puzzle.cs:222-270 | on a square matrix, the list computed for line j of part i is the clue of that line |
| Puzzles.ToggleCell | Controls/Panels/PuzzleSolvingPanel.cs:229-230 | a click's cell flip: the new matrix is the old one with that cell toggled |
| Puzzles.Puzzle.WithClues | Classes/Puzzle.cs:146-166 | id is currentMaxId + 1, the puzzle is unsolved, the given clues are kept and the grid is all zeros |
| Puzzles.Puzzle.Authoring | Classes/Puzzle.cs:167-186 | id is currentMaxId + 1, the puzzle is marked solved, the grid is all zeros and the clues are all [0] |
| Puzzles.Puzzle.FillAllCellsWithZero | Classes/Puzzle.cs:188-197 | every cell becomes 0; only the matrix is written |
| Puzzles.Puzzle.MarkAsSolved | Classes/Puzzle.cs:199-202 | the solved flag takes the given value (true by default); nothing else changes |
| Puzzles.Puzzle.SetName | Classes/Puzzle.cs:204-207 | the name takes the given value; nothing else changes |
| Puzzles.Puzzle.GetPuzzleCells | Classes/Puzzle.cs:83-99 | the jagged copy has the matrix's dimensions and equals it cell by cell |
| Puzzles.Puzzle.Deserialized | Classes/Puzzle.cs:126-139 | a fresh matrix, every property as given, and the cells through the PuzzleCells setter: as tall as the array, as wide as its first row, cut to that width |
| Puzzles.Puzzle.SetPuzzleCells | Classes/Puzzle.cs:100-114 | a new matrix as tall as the array and as wide as its first row; for a rectangular array it equals the array, so reading the cells back returns it |
| Puzzles.Puzzle.CalculatePuzzleNumbers | Classes/Puzzle.cs:209-275 | on a square grid the result is the derived clue set: one list per row in [0] and one per column in [1] |
| Puzzles.Puzzle.HasAtLeastOneNumber | Classes/Puzzle.cs:277-296 | true exactly when some scanned clue entry equals 1 |
| Puzzles.BlankCluesHaveNoOne | Classes/Puzzle.cs:277-296 | on a square board, read with the bounds `HasAtLeastOneNumber` uses, the all-[0] clue array of a fresh authoring puzzle holds no 1 |
| Puzzles.FilledLine | Classes/Puzzle.cs:220-243 | every row and every column of a fully painted n x n board is n painted cells |
| Puzzles.FilledSquareClues | Classes/Puzzle.cs:209-275 | a fully painted n x n board (n at least 1) derives the clue [n] for every row and every column |
| Puzzles.FilledSquareHasNoOne | Classes/Puzzle.cs:277-296 | for n at least 2 such a board has painted cells, yet no clue entry equals 1, so the save gate refuses it |
| Puzzles.ContainsOneNeedsPaintedCell | Classes/Puzzle.cs:277-296 | if a derived clue set holds a 1, the grid has a painted cell |
| Puzzles.OneNeedsPaintedCell | Classes/Puzzle.cs:277-296 | a 1 at position k of the derived clue of one line implies a painted cell somewhere in the grid |
| HardcodedPuzzles.CreateHardcodedPuzzles | Classes/Puzzle.cs:298-643 | ten fresh unsolved puzzles with ids 0 to 9 in order, each with its entry's size, clues, name and difficulty and an all-zero grid |
| HardcodedPuzzles.EntriesWellShaped | Classes/Puzzle.cs:302-640 | every built-in entry has two clue parts, one list per row and one per column |
| HardcodedPuzzles.AtTotals | Classes/Puzzle.cs:303-343 | the row and the column clues of "At" both describe 68 cells |
| HardcodedPuzzles.HeartTotals | Classes/Puzzle.cs:345-369 | the row and the column clues of "Heart" both describe 16 cells |
| HardcodedPuzzles.ChessTotals | Classes/Puzzle.cs:371-395 | the row and the column clues of "Chess" both describe 13 cells |
| HardcodedPuzzles.BoatTotals | Classes/Puzzle.cs:397-421 | the row and the column clues of "Boat" both describe 12 cells |
| HardcodedPuzzles.FishTotals | Classes/Puzzle.cs:423-447 | the row and the column clues of "Fish" both describe 12 cells |
| HardcodedPuzzles.TetrisTotals | Classes/Puzzle.cs:449-473 | the row and the column clues of "Tetris" both describe 14 cells |
| HardcodedPuzzles.HouseTotals | Classes/Puzzle.cs:475-509 | the row and the column clues of "House" both describe 44 cells |
| HardcodedPuzzles.UmbrellaTotals | Classes/Puzzle.cs:511-544 | the row and the column clues of "Umbrella" both describe 34 cells |
| HardcodedPuzzles.BigFishTotals | Classes/Puzzle.cs:546-591 | the row and the column clues of "Big fish" both describe 110 cells |
| HardcodedPuzzles.BigFishRowTotal | Classes/Puzzle.cs:546-591 | the row clues of "Big fish" describe 110 cells |
| HardcodedPuzzles.BigFishColumnTotal | Classes/Puzzle.cs:546-591 | the column clues of "Big fish" describe 110 cells |
| HardcodedPuzzles.PelicanTotals | Classes/Puzzle.cs:593-640 | the row clues of "Pelican" describe 113 cells and its column clues 112 |
| HardcodedPuzzles.PelicanRowTotal | Classes/Puzzle.cs:593-640 | the row clues of "Pelican" describe 113 cells |
| HardcodedPuzzles.PelicanColumnTotal | Classes/Puzzle.cs:593-640 | the column clues of "Pelican" describe 112 cells |
| HardcodedPuzzles.PelicanColumnsHead | Classes/Puzzle.cs:593-640 | the first nine column clues of "Pelican" describe 52 cells |
| HardcodedPuzzles.PelicanColumnsTail | Classes/Puzzle.cs:593-640 | the last nine column clues of "Pelican" describe 60 more, 112 in all |
| HardcodedPuzzles.CatalogTotals | Classes/Puzzle.cs:302-640 | the row clues and column clues of an entry add up to the same count for every entry except the tenth ("Pelican") |
| HardcodedPuzzles.PelicanHasNoPicture | Classes/Puzzle.cs:593-640 | no 15x18 picture derives the "Pelican" clues |
| HardcodedPuzzles.HeartTopRow | Classes/Puzzle.cs:345-369 | the top row of the heart picture, 0,1,0,1,0, has the clue [1,1] |
| HardcodedPuzzles.HeartRow | Classes/Puzzle.cs:345-369 | row j of the heart picture has the row clue j of "Heart" |
| HardcodedPuzzles.HeartColumn | Classes/Puzzle.cs:345-369 | column j of the heart picture has the column clue j of "Heart" |
| HardcodedPuzzles.HeartRowClues | Classes/Puzzle.cs:345-369 | the heart picture derives the row clues of "Heart" |
| HardcodedPuzzles.HeartColumnClues | Classes/Puzzle.cs:345-369 | the heart picture derives the column clues of "Heart" |
| HardcodedPuzzles.HeartIsSolvable | Classes/Puzzle.cs:345-369 | a heart picture derives exactly the "Heart" clues and passes the solved check against them |
| Storage.StoredRecords | Classes/PuzzleStorage.cs:26-38 | a missing file and a null payload hold no records; otherwise the stored list |
| Storage.LoadPuzzles | Classes/PuzzleStorage.cs:26-38 | one fresh puzzle, with a fresh matrix, per stored record, in order, whose record is the stored one read back; none for a missing file or a null payload |
| Storage.SavePuzzles | Classes/PuzzleStorage.cs:15-21 | the file afterwards holds the records of the whole list, in order, as the puzzles are at that moment |
| Storage.ReloadedRectangle | Classes/Puzzle.cs:100-114 | a record with rectangular cells is read back unchanged |
| Storage.SaveThenLoad | Classes/PuzzleStorage.cs:15-38 | when every matrix has a row, the saved file can be read back, and each record read back equals the saved puzzle's record |
| Storage.FindIndex | Classes/PuzzleStorage.cs:48 | the first position holding a puzzle with that id, or -1 when none does |
| Storage.Upsert | Classes/PuzzleStorage.cs:48-59 | the list after a save is as long as before or is the old list plus the new record |
| Storage.UpsertReplaces | Classes/PuzzleStorage.cs:50-54 | when some record has the id, the first such record is replaced and every other record keeps its place |
| Storage.UpsertAppends | Classes/PuzzleStorage.cs:55-59 | when no record has the id, the new record is appended |
| Storage.FirstIdExists | Classes/PuzzleStorage.cs:48 | a list holding the id at some position has a first position holding it |
| Storage.UpsertFindsRecord | Classes/PuzzleStorage.cs:43-63 | after a save, the first stored record with that id is the saved puzzle's record |
| Storage.UpsertIdempotent | Classes/PuzzleStorage.cs:43-63 | saving the same record twice gives the same list as saving it once |
| Storage.ReplaceIsUpsert | Classes/PuzzleStorage.cs:45-62 | the C# search and replace (or append) on the loaded objects writes back the upsert of their records |
| Storage.SavePuzzle | Classes/PuzzleStorage.cs:43-63 | the file after a save holds the stored records as read back, with the puzzle's current record upserted |
| SandboxPanel.CountUntilZero | Controls/Panels/PuzzleSandboxPanel.cs:302-310 | counting buffer entries up to the first 0 gives the number of runs, because the runs are stored contiguously and are ≥ 1 |
| SandboxPanel.SandboxLineClue | Controls/Panels/PuzzleSandboxPanel.cs:272-323 | when the runs fit the (Cols+1)/2 buffer, the list computed for line j of part i is that line's clue |
| SandboxPanel.PuzzleSandboxPanel.constructor | Controls/Panels/PuzzleSandboxPanel.cs:59-92 | the clue array is replaced by the all-[0] one exactly when no clue entry equals 1; otherwise it is kept |
| SandboxPanel.PuzzleSandboxPanel.InitializePuzzleNumbers | Controls/Panels/PuzzleSandboxPanel.cs:97-110 | a two-part clue array with one [0] list per row and one per column |
| SandboxPanel.PuzzleSandboxPanel.RefreshPart | Controls/Panels/PuzzleSandboxPanel.cs:280-325 | every list of the part that the inner loop visits becomes the clue of its line; the rest is kept |
| SandboxPanel.PuzzleSandboxPanel.CalculatePuzzleNumbers | Controls/Panels/PuzzleSandboxPanel.cs:265-329 | the puzzle's own clue array now holds, for each visited line, the runs of that line or [0]; unvisited lists are kept; the array is also returned |
| SandboxPanel.PuzzleSandboxPanel.Click | Controls/Panels/PuzzleSandboxPanel.cs:189-195 | the clicked cell flips and the clue array is recomputed from the new grid |
| SandboxPanel.RefreshedIsDerive | Controls/Panels/PuzzleSandboxPanel.cs:270-325 | on a two-part array with one list per row and per column, the recomputed array is the derived clue set, the same result as Puzzle.CalculatePuzzleNumbers |
| SandboxPanel.RefreshedIdempotent | Controls/Panels/PuzzleSandboxPanel.cs:265-329 | recomputing twice over the same picture changes nothing the second time |
| SandboxPanel.ShortBoardFits | Controls/Panels/PuzzleSandboxPanel.cs:277 | on a board no taller than it is wide, every line's runs fit the buffer of (Cols+1)/2 entries |
| SandboxPanel.TallColumnOverflows | Controls/Panels/PuzzleSandboxPanel.cs:277-285 | on a 3x1 board painted 1,0,1 the column has two runs and the buffer room for one |
| SolvingPanel.LongestList | Controls/Panels/PuzzleSolvingPanel.cs:88-99 | the value is at least the floor and at least every list's length, and is the floor or the length of some list |
| SolvingPanel.DerivedBandBound | Controls/Panels/PuzzleSolvingPanel.cs:86-120 | on derived clues, the band above the grid needs at most max(1, (Rows+1)/2) rows and the band to its left at most max(1, (Cols+1)/2) columns |
| SolvingPanel.CheckMatrixLine | Controls/Panels/PuzzleSolvingPanel.cs:262-293 | the per-line loop returns the line's verdict, including the throw on a missing or exhausted clue list |
| SolvingPanel.PuzzleSolvingPanel.CalculateRows | Controls/Panels/PuzzleSolvingPanel.cs:86-102 | the board has Rows plus max(1, longest column list) rows |
| SolvingPanel.PuzzleSolvingPanel.CalculateCols | Controls/Panels/PuzzleSolvingPanel.cs:104-120 | the board has Cols plus max(1, longest row list) columns |
| SolvingPanel.PuzzleSolvingPanel.constructor | Controls/Panels/PuzzleSolvingPanel.cs:53-84 | a solved puzzle is marked unsolved and all its cells are cleared; an unsolved one keeps its grid; the board size comes from CalculateRows and CalculateCols |
| SolvingPanel.PuzzleSolvingPanel.CheckIfPuzzleIsSolved | Controls/Panels/PuzzleSolvingPanel.cs:252-297 | reads grid and clues only and returns the grid verdict, in which the first line that does not pass decides |
| SolvingPanel.PuzzleSolvingPanel.Click | Controls/Panels/PuzzleSolvingPanel.cs:227-239 | exactly one cell flips; when the check then passes, the puzzle is marked solved and its record, taken after that, upserted into the store; otherwise the solved flag and the store are unchanged, so a click never clears the flag |
| PuzzleList.FindAll | Controls/PuzzleListControl.cs:72-73 | every kept puzzle is from the catalog and has the chosen difficulty |
| PuzzleList.FindAllCounts | Controls/PuzzleListControl.cs:72-73 | a catalog puzzle of the chosen difficulty is kept exactly as often as it occurs in the catalog, and one of another difficulty is never kept |
| PuzzleList.Keep | Controls/PuzzleListControl.cs:75-77 | every kept puzzle is in the input and has the chosen solved flag |
| PuzzleList.KeepCounts | Controls/PuzzleListControl.cs:75-77 | each puzzle of the chosen group is kept as often as it occurs, the others not at all |
| PuzzleList.Reversed | Controls/PuzzleListControl.cs:74 | the list in reverse order |
| PuzzleList.OrderBySolved | Controls/PuzzleListControl.cs:75-77 | every unsolved puzzle comes before every solved one |
| PuzzleList.KeepSplit | Controls/PuzzleListControl.cs:75-77 | the unsolved and solved groups together hold exactly the input's puzzles |
| PuzzleList.KeepAppend | Controls/PuzzleListControl.cs:75-77 | selecting a group from a concatenation concatenates the selections |
| PuzzleList.KeepOfKeep | Controls/PuzzleListControl.cs:75-77 | selecting a group twice is selecting it once, and the other group of a group is empty |
| PuzzleList.KeepReversed | Controls/PuzzleListControl.cs:74-77 | selecting a group commutes with reversal |
| PuzzleList.ReversedPermutes | Controls/PuzzleListControl.cs:74 | reversal is a permutation |
| PuzzleList.OrderBySolvedStable | Controls/PuzzleListControl.cs:75-77 | the ordering is a permutation and keeps the input order inside the unsolved and inside the solved group (OrderBy is stable) |
| PuzzleList.ShownIsTheLevel | Controls/PuzzleListControl.cs:72-77 | the shown list holds exactly the catalog puzzles of the chosen difficulty, each as often as in the catalog |
| PuzzleList.ShownGroupsNewestFirst | Controls/PuzzleListControl.cs:72-77 | within the unsolved group and within the solved group, the shown order is the reverse of catalog order |
| PuzzleList.LoadCatalog | Controls/PuzzleListControl.cs:62-69 | a non-empty store is loaded into fresh puzzles whose records are the stored ones read back, and the file stays; an empty one gives the ten built-in puzzles, each built from its entry (size, clues, name, level, unsolved, all-zero grid) with ids 0 to 9, which are then saved |
| PuzzleList.PuzzleListControl.constructor | Controls/PuzzleListControl.cs:48-153 | the shown list is the catalog filtered by difficulty, reversed and ordered unsolved first; no slide runs; index, arrows and name label are consistent |
| PuzzleList.PuzzleListControl.UpdateArrows | Controls/PuzzleListControl.cs:285-289 | the left arrow is visible exactly when index > 0, the right one exactly when index < Count-1 |
| PuzzleList.PuzzleListControl.StartSlide | Controls/PuzzleListControl.cs:187-223 | a slide starts at step 0 in the given direction with the name label hidden, and the arrows are updated |
| PuzzleList.PuzzleListControl.ArrowLeft | Controls/PuzzleListControl.cs:160-167 | the index moves one back and a slide starts only when no slide runs and the index is above 0, with the name label hidden and its text kept; otherwise no field of the control changes; the index stays in [0, Count-1] |
| PuzzleList.PuzzleListControl.ArrowRight | Controls/PuzzleListControl.cs:174-181 | the index moves one on and a slide starts only when no slide runs and the index is below Count-1, with the name label hidden and its text kept; otherwise no field of the control changes; the index stays in [0, Count-1] |
| PuzzleList.PuzzleListControl.SlideTimerTick | Controls/PuzzleListControl.cs:230-267 | each tick increments the step, and the slide ends, showing the current puzzle's name, once the step reaches MAX_STEPS (30); before that the name label keeps its text and stays hidden |
| SavingControl.PlaceholderIsNotBlank | Controls/PuzzleSavingControl.cs:94-114 | the placeholder is not blank, so leaving the box never replaces it |
| SavingControl.EnterThenLeaveRestoresPlaceholder | Controls/PuzzleSavingControl.cs:99-114 | entering an untouched box clears it, and leaving it blank brings the placeholder back |
| SavingControl.EnterThenLeaveKeepsName | Controls/PuzzleSavingControl.cs:99-114 | entering and leaving keep a typed name; leaving changes the text exactly when it is blank and not the placeholder |
| SavingControl.LeftBoxIsPlaceholderOrName | Controls/PuzzleSavingControl.cs:108-114 | after leaving, the box holds the placeholder or a name that confirm accepts, and it holds an accepted name exactly when it did before |
| SavingControl.PuzzleSavingControl.constructor | Controls/PuzzleSavingControl.cs:94-96 | the name box starts out holding the placeholder |
| SavingControl.PuzzleSavingControl.Enter | Controls/PuzzleSavingControl.cs:99-105 | the text is cleared exactly when it equals the placeholder |
| SavingControl.PuzzleSavingControl.Leave | Controls/PuzzleSavingControl.cs:108-114 | the placeholder is restored exactly when the text is empty or white space |
| SavingControl.PuzzleSavingControl.ConfirmButtonClick | Controls/PuzzleSavingControl.cs:148-162 | a blank text or the placeholder is rejected with no field changed; otherwise the name becomes the text and the puzzle becomes unsolved, and nothing else in the puzzle changes |
| Sandbox.SandboxControl.constructor | Controls/SandboxControl.cs:28-47 | with no puzzle given, a fresh 5x5 authoring puzzle with id maxId + 1, all-zero grid and all-[0] clues; otherwise the given puzzle, whose clues are kept when some entry equals 1 and become all-[0] otherwise, and of which nothing else may change; the board holds that puzzle |
| Sandbox.SandboxControl.SaveButtonClick | Controls/SandboxControl.cs:97-110 | the clues are first recomputed from the grid and stored; the naming screen opens on the same puzzle exactly when some clue entry equals 1, otherwise saving stops |

## Left out

- Drawing, layout and styling are not modelled. This covers `DrawPuzzle`, the label placement in `UpdatePuzzleNumbers`, `ArrangeLayout`, `GetPanelCenterX/Y`, cell sizes, the boards' header sizes in the sandbox, colours, buttons and labels. It is presentation only.
- The pixel movement of the slide and the petal animation are not modelled: they are geometry, floating point and randomness.
- JSON text and file access: the store is the value `Storage.StoreFile` holding `Storage.PuzzleRecord` values. A JSON null for the clues or the cells is not modelled.
- Puzzles.Puzzle.SetPuzzleCells: requires at least one row and no later row shorter than the first, because the C# setter throws an IndexOutOfRangeException otherwise. `Puzzles.Puzzle.Deserialized` has the same requires.
- Storage.LoadPuzzles: requires every stored record to meet that condition (`Storage.Readable`), so the reader's exception on an empty or ragged cell array is not modelled. `Storage.SavePuzzle`, `PuzzleList.LoadCatalog` and `SolvingPanel.PuzzleSolvingPanel.Click` have the same requires. A puzzle with no rows is written as an empty array, which cannot be read back; `Storage.SaveThenLoad` says every other list can.
- Storage.SavePuzzle: the loaded objects are local to the call, so the model states only the records that they and the saved puzzle write back.
- `PuzzleStorage.GetMaxId` is not part of this model: its result is the parameter `maxId`.
- Message boxes, screen switching, `SendWin`, the back arrows and `PuzzlePannel_Click` are navigation only.
- The 25-character limit of the name box is enforced by the widget, so `SavingControl.PuzzleSavingControl.Type` accepts any text. A text box's text is never null, so the null case of `string.IsNullOrWhiteSpace` does not arise.
- Puzzles.Puzzle.Authoring: models only the branch without given cells. The other branch computes clues before the matrix exists, which is a null dereference in C#.
- Puzzles.Puzzle.CalculatePuzzleNumbers: requires a square grid, because its loop bounds overrun the arrays otherwise.
- Puzzles.Puzzle.HasAtLeastOneNumber: requires every part to be long enough for the bounds the loops use, because they overrun otherwise.
- SandboxPanel.PuzzleSandboxPanel.CalculatePuzzleNumbers: requires every part to be long enough and every line's runs to fit the buffer. Those are its IndexOutOfRangeException cases; `SandboxPanel.ShortBoardFits` and `SandboxPanel.TallColumnOverflows` say when the second one holds.
- SandboxPanel.PuzzleSandboxPanel.CalculatePuzzleNumbers: writes the recomputed lists into the shared jagged arrays in place. The model assigns a new value to the puzzle's field, so aliasing through other references to those arrays is not modelled.
- PuzzleList.Reversed: `List.Reverse` reverses in place; the model works on the value of the list.
- PuzzleList.PuzzleListControl.constructor: the C# constructor loads the catalog, which is `PuzzleList.LoadCatalog` here, then filters it. It requires the starting index to be on the shown list, since C# throws otherwise.
- PuzzleList.PuzzleListControl.SlideTimerTick: requires a running slide, because the timer is stopped otherwise.
- SolvingPanel.PuzzleSolvingPanel.CalculateRows: requires at least two clue parts, because C# throws otherwise; the same holds for `CalculateCols`.
- SolvingPanel.PuzzleSolvingPanel.CheckIfPuzzleIsSolved: returns a three-valued verdict, not a bool. `Fault` stands for the exception, which C# does not catch.
- Puzzles.Puzzle.WithClues: does not model 32-bit wrap-around of `currentMaxId + 1`, because ids stay small. The same holds for `Puzzles.Puzzle.Authoring`. All other counters are unbounded integers as well.
