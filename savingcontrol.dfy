/**
 * The naming screen shown before an authored puzzle is stored
 * (Controls/PuzzleSavingControl.cs): a text box with a placeholder that
 * disappears on entry and comes back when the box is left blank, and a
 * confirm button that accepts only a real name.
 */
module SavingControl {
  import opened Options
  import opened Puzzles

  const Placeholder: string := "Type name of your puzzle..."

  /**
   * Char.IsWhiteSpace: the Unicode space, line and paragraph separators and
   * the control characters U+0009 to U+000D and U+0085.
   */
  predicate IsWhiteSpace(c: char) {
    var n := c as int;
    (0x09 <= n <= 0x0D) || n == 0x20 || n == 0x85 || n == 0xA0 || n == 0x1680 ||
    (0x2000 <= n <= 0x200A) || n == 0x2028 || n == 0x2029 || n == 0x202F ||
    n == 0x205F || n == 0x3000
  }

  /** string.IsNullOrWhiteSpace on a text box's text, which is never null: empty or all white space. */
  predicate IsNullOrWhiteSpace(s: string) {
    forall k :: 0 <= k < |s| ==> IsWhiteSpace(s[k])
  }

  /** Entering the box clears it when it still shows the placeholder. */
  function AfterEnter(text: string): string {
    if text == Placeholder then "" else text
  }

  /** Leaving the box restores the placeholder when it was left blank. */
  function AfterLeave(text: string): string {
    if IsNullOrWhiteSpace(text) then Placeholder else text
  }

  /** What the confirm button accepts as a name. */
  predicate NameIsValid(text: string) {
    !IsNullOrWhiteSpace(text) && text != Placeholder
  }

  /** The placeholder is not blank, so leaving the box never replaces it by itself... */
  lemma PlaceholderIsNotBlank()
    ensures !IsNullOrWhiteSpace(Placeholder)
    ensures AfterLeave(Placeholder) == Placeholder
  {
    assert !IsWhiteSpace(Placeholder[0]);
  }

  /** ...and focusing and leaving an untouched box shows the placeholder again. */
  lemma EnterThenLeaveRestoresPlaceholder()
    ensures AfterEnter(Placeholder) == ""
    ensures AfterLeave(AfterEnter(Placeholder)) == Placeholder
  {
  }

  /** Entering and leaving keep a typed name, and leave every other text unchanged unless it is blank. */
  lemma EnterThenLeaveKeepsName(text: string)
    ensures NameIsValid(text) ==> AfterLeave(AfterEnter(text)) == text
    ensures AfterLeave(text) == text <==> !IsNullOrWhiteSpace(text) || text == Placeholder
  {
    PlaceholderIsNotBlank();
  }

  /** After leaving the box it holds either the placeholder or a name the confirm button accepts. */
  lemma LeftBoxIsPlaceholderOrName(text: string)
    ensures AfterLeave(text) == Placeholder || NameIsValid(AfterLeave(text))
    ensures NameIsValid(AfterLeave(text)) <==> NameIsValid(text)
  {
    PlaceholderIsNotBlank();
  }

  class PuzzleSavingControl {
    const puzzle: Puzzle
    /** The name box's text. */
    var text: string

    constructor(puzzle: Puzzle)
      ensures this.puzzle == puzzle && text == Placeholder
    {
      this.puzzle := puzzle;
      text := Placeholder;
    }

    method Enter()
      modifies this`text
      ensures text == AfterEnter(old(text))
    {
      if text == Placeholder {
        text := "";
      }
    }

    method Leave()
      modifies this`text
      ensures text == AfterLeave(old(text))
    {
      if IsNullOrWhiteSpace(text) {
        text := Placeholder;
      }
    }

    /** The user's typing replaces the text. */
    method Type(newText: string)
      modifies this`text
      ensures text == newText
    {
      text := newText;
    }

    /**
     * Confirm: a blank text or the placeholder is rejected and nothing
     * changes; otherwise the puzzle takes the text as its name and becomes
     * unsolved.
     */
    method ConfirmButtonClick() returns (accepted: bool)
      modifies puzzle`name, puzzle`isSolved
      ensures accepted <==> NameIsValid(text)
      ensures accepted ==> puzzle.name == Some(text) && !puzzle.isSolved
      ensures !accepted ==> puzzle.name == old(puzzle.name) && puzzle.isSolved == old(puzzle.isSolved)
    {
      if IsNullOrWhiteSpace(text) || text == Placeholder {
        return false;
      }
      puzzle.name := Some(text);
      puzzle.isSolved := false;
      return true;
    }
  }
}
