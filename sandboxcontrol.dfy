/**
 * The sandbox screen (Controls/SandboxControl.cs): the puzzle being drawn,
 * a new 5x5 one unless an existing puzzle is handed back, and the save
 * button that freezes the clues and moves on only when the guard passes.
 */
module Sandbox {
  import opened Options
  import opened Clues
  import opened Puzzles
  import opened SandboxPanel
  import opened SavingControl

  /** Side of a new sandbox puzzle. */
  const NewPuzzleSize := 5

  class SandboxControl {
    const puzzle: Puzzle
    const panel: PuzzleSandboxPanel

    /**
     * With no puzzle given, a new 5x5 authoring puzzle numbered after
     * `maxId` (the store's current maximum id); otherwise the given one.
     * The board then keeps the given clues when some entry equals 1 and
     * blanks them otherwise; nothing else of the given puzzle changes.
     */
    constructor(given: Option<Puzzle>, maxId: int)
      requires given.Some? ==>
        (given.value.Valid() &&
         forall i :: 0 <= i < |given.value.puzzleNumbers| ==>
           |given.value.puzzleNumbers[i]| >= Bound(i, given.value.cols, given.value.rows))
      modifies (if given.Some? then {given.value} else {})`puzzleNumbers
      ensures panel.puzzle == puzzle && puzzle.Valid()
      ensures given.Some? ==> puzzle == given.value
      ensures given.Some? && old(ContainsOne(given.value.puzzleNumbers, given.value.rows, given.value.cols)) ==>
        puzzle.puzzleNumbers == old(given.value.puzzleNumbers)
      ensures given.Some? && !old(ContainsOne(given.value.puzzleNumbers, given.value.rows, given.value.cols)) ==>
        puzzle.puzzleNumbers == BlankClues(puzzle.rows, puzzle.cols)
      ensures given.None? ==>
        fresh(puzzle) && puzzle.id == maxId + 1 &&
        puzzle.rows == NewPuzzleSize && puzzle.cols == NewPuzzleSize && puzzle.isSolved &&
        puzzle.Cells() == ZeroGrid(NewPuzzleSize, NewPuzzleSize) &&
        puzzle.puzzleNumbers == BlankClues(NewPuzzleSize, NewPuzzleSize)
    {
      var p: Puzzle;
      if given.None? {
        p := new Puzzle.Authoring(maxId, NewPuzzleSize, NewPuzzleSize);
        BlankCluesHaveNoOne(NewPuzzleSize, NewPuzzleSize);
      } else {
        p := given.value;
      }
      var board := new PuzzleSandboxPanel(p);
      puzzle := p;
      panel := board;
    }

    /**
     * Save: the clues are recomputed from the grid and kept in the puzzle;
     * when no clue entry equals 1 the save stops, otherwise the naming
     * screen opens on the same puzzle.
     */
    method SaveButtonClick() returns (next: Option<PuzzleSavingControl>)
      requires puzzle.Valid() && puzzle.rows == puzzle.cols
      modifies puzzle`puzzleNumbers
      ensures puzzle.puzzleNumbers == Derive(puzzle.Cells(), puzzle.rows, puzzle.cols)
      ensures next.Some? <==> ContainsOne(puzzle.puzzleNumbers, puzzle.rows, puzzle.cols)
      ensures next.Some? ==> fresh(next.value) && next.value.puzzle == puzzle && next.value.text == Placeholder
    {
      var numbers := puzzle.CalculatePuzzleNumbers();
      puzzle.puzzleNumbers := numbers;
      DeriveShape(puzzle.Cells(), puzzle.rows, puzzle.cols);
      var hasNumber := puzzle.HasAtLeastOneNumber();
      if !hasNumber {
        return None;
      }
      var saving := new PuzzleSavingControl(puzzle);
      return Some(saving);
    }
  }
}
