/**
 * The level's puzzle list (Controls/PuzzleListControl.cs): the catalog
 * with its built-in fallback, the puzzles of one difficulty shown newest
 * first with the unsolved ones ahead, and the left/right navigation that
 * is locked while the slide animation runs.
 */
module PuzzleList {
  import opened Options
  import opened Puzzles
  import opened Storage
  import HardcodedPuzzles

  /** Ticks of one slide. */
  const MaxSteps := 30

  /** List.FindAll on the difficulty: the puzzles of one level, in catalog order. */
  function FindAll(puzzles: seq<Puzzle>, difficulty: int): (shown: seq<Puzzle>)
    reads puzzles
    ensures forall k :: 0 <= k < |shown| ==> shown[k] in puzzles && shown[k].difficulty == difficulty
    decreases |puzzles|
  {
    if puzzles == [] then []
    else
      var prefix, last := puzzles[..|puzzles| - 1], puzzles[|puzzles| - 1];
      assert puzzles == prefix + [last];
      var rest := FindAll(prefix, difficulty);
      if last.difficulty == difficulty then rest + [last] else rest
  }

  /** The puzzles whose IsSolved flag equals `solved`, in order. */
  function Keep(puzzles: seq<Puzzle>, solved: bool): (kept: seq<Puzzle>)
    reads puzzles
    ensures forall k :: 0 <= k < |kept| ==> kept[k] in puzzles && kept[k].isSolved == solved
    decreases |puzzles|
  {
    if puzzles == [] then []
    else
      var prefix, last := puzzles[..|puzzles| - 1], puzzles[|puzzles| - 1];
      assert puzzles == prefix + [last];
      var rest := Keep(prefix, solved);
      if last.isSolved == solved then rest + [last] else rest
  }

  /** List.Reverse. */
  function Reversed(puzzles: seq<Puzzle>): (r: seq<Puzzle>)
    ensures |r| == |puzzles|
    ensures forall k :: 0 <= k < |r| ==> r[k] == puzzles[|puzzles| - 1 - k]
    decreases |puzzles|
  {
    if puzzles == [] then []
    else [puzzles[|puzzles| - 1]] + Reversed(puzzles[..|puzzles| - 1])
  }

  /**
   * OrderBy(x => x.IsSolved), a stable sort on a boolean key: the unsolved
   * puzzles first and then the solved ones, each group in its input order.
   */
  function OrderBySolved(puzzles: seq<Puzzle>): (sorted: seq<Puzzle>)
    reads puzzles
    ensures forall i, j :: 0 <= i < j < |sorted| && !sorted[j].isSolved ==> !sorted[i].isSolved
  {
    Keep(puzzles, false) + Keep(puzzles, true)
  }

  /** The list the control shows for one difficulty. */
  function Shown(catalog: seq<Puzzle>, difficulty: int): seq<Puzzle>
    reads catalog
  {
    OrderBySolved(Reversed(FindAll(catalog, difficulty)))
  }

  /** Each puzzle of the level is kept as often as it occurs; the others not at all. */
  lemma {:induction false} FindAllCounts(puzzles: seq<Puzzle>, difficulty: int)
    ensures forall p :: p in puzzles ==>
      multiset(FindAll(puzzles, difficulty))[p] == if p.difficulty == difficulty then multiset(puzzles)[p] else 0
    decreases |puzzles|
  {
    if puzzles != [] {
      var prefix, last := puzzles[..|puzzles| - 1], puzzles[|puzzles| - 1];
      assert puzzles == prefix + [last];
      FindAllCounts(prefix, difficulty);
    }
  }

  /** Each puzzle of the group is kept as often as it occurs; the others not at all. */
  lemma {:induction false} KeepCounts(puzzles: seq<Puzzle>, solved: bool)
    ensures forall p :: p in puzzles ==>
      multiset(Keep(puzzles, solved))[p] == if p.isSolved == solved then multiset(puzzles)[p] else 0
    decreases |puzzles|
  {
    if puzzles != [] {
      var prefix, last := puzzles[..|puzzles| - 1], puzzles[|puzzles| - 1];
      assert puzzles == prefix + [last];
      KeepCounts(prefix, solved);
    }
  }

  lemma {:induction false} KeepAppend(a: seq<Puzzle>, b: seq<Puzzle>, solved: bool)
    ensures Keep(a + b, solved) == Keep(a, solved) + Keep(b, solved)
    decreases |b|
  {
    if b == [] {
      assert a + b == a;
    } else {
      var prefix, last := b[..|b| - 1], b[|b| - 1];
      assert a + b == (a + prefix) + [last];
      assert (a + b)[..|a + b| - 1] == a + prefix;
      KeepAppend(a, prefix, solved);
    }
  }

  /** Splitting by the flag and joining the groups loses and adds nothing. */
  lemma {:induction false} KeepSplit(puzzles: seq<Puzzle>)
    ensures multiset(Keep(puzzles, false)) + multiset(Keep(puzzles, true)) == multiset(puzzles)
    decreases |puzzles|
  {
    if puzzles != [] {
      var prefix, last := puzzles[..|puzzles| - 1], puzzles[|puzzles| - 1];
      assert puzzles == prefix + [last];
      KeepSplit(prefix);
    }
  }

  /** Selecting a group twice, or selecting the other group from it. */
  lemma {:induction false} KeepOfKeep(puzzles: seq<Puzzle>, solved: bool)
    ensures Keep(Keep(puzzles, solved), solved) == Keep(puzzles, solved)
    ensures Keep(Keep(puzzles, solved), !solved) == []
    decreases |puzzles|
  {
    if puzzles != [] {
      var prefix, last := puzzles[..|puzzles| - 1], puzzles[|puzzles| - 1];
      KeepOfKeep(prefix, solved);
      if last.isSolved == solved {
        KeepAppend(Keep(prefix, solved), [last], solved);
        KeepAppend(Keep(prefix, solved), [last], !solved);
      }
    }
  }

  lemma {:induction false} KeepReversed(puzzles: seq<Puzzle>, solved: bool)
    ensures Keep(Reversed(puzzles), solved) == Reversed(Keep(puzzles, solved))
    decreases |puzzles|
  {
    if puzzles != [] {
      var prefix, last := puzzles[..|puzzles| - 1], puzzles[|puzzles| - 1];
      var reversedPrefix, kept := Reversed(prefix), Keep(prefix, solved);
      KeepReversed(prefix, solved);
      assert Reversed(puzzles) == [last] + reversedPrefix;
      KeepAppend([last], reversedPrefix, solved);
      KeepOne(last, solved);
      if last.isSolved == solved {
        assert Keep(puzzles, solved) == kept + [last];
        assert (kept + [last])[..|kept|] == kept;
        assert Reversed(kept + [last]) == [last] + Reversed(kept);
      } else {
        assert Keep(puzzles, solved) == kept;
      }
    }
  }

  lemma KeepOne(puzzle: Puzzle, solved: bool)
    ensures Keep([puzzle], solved) == if puzzle.isSolved == solved then [puzzle] else []
  {
    assert [puzzle][..0] == [];
  }

  lemma ReversedPermutes(puzzles: seq<Puzzle>)
    ensures multiset(Reversed(puzzles)) == multiset(puzzles)
  {
    var r := Reversed(puzzles);
    if puzzles != [] {
      var prefix, last := puzzles[..|puzzles| - 1], puzzles[|puzzles| - 1];
      assert puzzles == prefix + [last];
      ReversedPermutes(prefix);
    }
  }

  /** The sort is a permutation, and it keeps the order inside each group. */
  lemma OrderBySolvedStable(puzzles: seq<Puzzle>)
    ensures multiset(OrderBySolved(puzzles)) == multiset(puzzles)
    ensures Keep(OrderBySolved(puzzles), false) == Keep(puzzles, false)
    ensures Keep(OrderBySolved(puzzles), true) == Keep(puzzles, true)
  {
    KeepSplit(puzzles);
    KeepAppend(Keep(puzzles, false), Keep(puzzles, true), false);
    KeepAppend(Keep(puzzles, false), Keep(puzzles, true), true);
    KeepOfKeep(puzzles, false);
    KeepOfKeep(puzzles, true);
  }

  /**
   * The shown list holds exactly the catalog's puzzles of that difficulty,
   * each as often as in the catalog, and nothing else.
   */
  lemma ShownIsTheLevel(catalog: seq<Puzzle>, difficulty: int)
    ensures forall p :: p in Shown(catalog, difficulty) ==> p in catalog && p.difficulty == difficulty
    ensures forall p :: p in catalog ==>
      multiset(Shown(catalog, difficulty))[p] == if p.difficulty == difficulty then multiset(catalog)[p] else 0
  {
    var level := FindAll(catalog, difficulty);
    FindAllCounts(catalog, difficulty);
    ReversedPermutes(level);
    OrderBySolvedStable(Reversed(level));
    forall p | p in Shown(catalog, difficulty) ensures p in catalog && p.difficulty == difficulty {
      assert p in multiset(level);
    }
  }

  /** Within the unsolved group and within the solved group, the newest catalog entry comes first. */
  lemma ShownGroupsNewestFirst(catalog: seq<Puzzle>, difficulty: int, solved: bool)
    ensures Keep(Shown(catalog, difficulty), solved) == Reversed(Keep(FindAll(catalog, difficulty), solved))
  {
    var level := FindAll(catalog, difficulty);
    OrderBySolvedStable(Reversed(level));
    KeepReversed(level, solved);
  }

  /**
   * The first half of the constructor: the stored catalog, or, when it is
   * empty, the built-in puzzles, which are then written to the store.
   */
  method LoadCatalog(file: StoreFile) returns (catalog: seq<Puzzle>, saved: StoreFile)
    requires Readable(file)
    ensures |StoredRecords(file)| > 0 ==>
      saved == file && |catalog| == |StoredRecords(file)| &&
      forall k :: 0 <= k < |catalog| ==>
        fresh(catalog[k]) && fresh(catalog[k].cellMatrix) && Encode(catalog[k]) == Reloaded(StoredRecords(file)[k])
    ensures |StoredRecords(file)| == 0 ==>
      |catalog| == |HardcodedPuzzles.Entries| && saved == SavePuzzles(catalog) &&
      forall k :: 0 <= k < |catalog| ==>
        fresh(catalog[k]) && fresh(catalog[k].cellMatrix) &&
        HardcodedPuzzles.BuiltFrom(catalog[k], HardcodedPuzzles.Entries[k]) && catalog[k].id == k
  {
    catalog := LoadPuzzles(file);
    saved := file;
    if |catalog| == 0 {
      catalog := HardcodedPuzzles.CreateHardcodedPuzzles();
      saved := SavePuzzles(catalog);
    }
  }

  /** What the name label shows: C# interpolation prints a null name as "". */
  function NameText(name: Option<string>): string {
    match name
    case None => ""
    case Some(s) => s
  }

  class PuzzleListControl {
    const difficulty: int
    var puzzles: seq<Puzzle>
    var currentIndex: int
    var isSliding: bool
    var slideStep: int
    /** +1: towards the next puzzle, -1: towards the previous one. */
    var slideDirection: int
    var leftArrowVisible: bool
    var rightArrowVisible: bool
    var nameText: string
    var nameVisible: bool

    /**
     * The index stays on the list, the arrows show whether there is a
     * neighbour, the step counter stays within one slide, and the name label
     * shows the current puzzle's name whenever no slide is running.
     */
    predicate Valid()
      reads this, puzzles
    {
      0 <= currentIndex < |puzzles| &&
      leftArrowVisible == (currentIndex > 0) &&
      rightArrowVisible == (currentIndex < |puzzles| - 1) &&
      0 <= slideStep <= MaxSteps &&
      (isSliding ==> slideStep < MaxSteps && !nameVisible) &&
      (!isSliding ==> nameVisible && nameText == NameText(puzzles[currentIndex].name)) &&
      -1 <= slideDirection <= 1
    }

    /**
     * The second half of the constructor: filter the catalog by the level,
     * reverse it, order the unsolved first, and show the puzzle at
     * `currentIndex`, which must be on the list.
     */
    constructor(difficulty: int, catalog: seq<Puzzle>, currentIndex: int := 0)
      requires 0 <= currentIndex < |Shown(catalog, difficulty)|
      ensures Valid()
      ensures this.difficulty == difficulty && this.currentIndex == currentIndex
      ensures puzzles == Shown(catalog, difficulty)
      ensures !isSliding && slideStep == 0 && slideDirection == 0
    {
      this.difficulty := difficulty;
      this.currentIndex := currentIndex;
      var shown := FindAll(catalog, difficulty);
      shown := Reversed(shown);
      shown := OrderBySolved(shown);
      puzzles := shown;
      nameText := NameText(shown[currentIndex].name);
      nameVisible := true;
      isSliding := false;
      slideStep := 0;
      slideDirection := 0;
      leftArrowVisible := false;
      rightArrowVisible := false;
      new;
      UpdateArrows();
    }

    /** An arrow is shown exactly when there is a puzzle on that side. */
    method UpdateArrows()
      modifies this`leftArrowVisible, this`rightArrowVisible
      ensures leftArrowVisible == (currentIndex > 0)
      ensures rightArrowVisible == (currentIndex < |puzzles| - 1)
    {
      leftArrowVisible := currentIndex > 0;
      rightArrowVisible := currentIndex < |puzzles| - 1;
    }

    /** Begins a slide towards the current puzzle: step 0, the name label hidden. */
    method StartSlide(direction: int)
      requires 0 <= currentIndex < |puzzles| && -1 <= direction <= 1
      modifies this
      ensures Valid()
      ensures isSliding && slideStep == 0 && slideDirection == direction && !nameVisible
      ensures puzzles == old(puzzles) && currentIndex == old(currentIndex) && nameText == old(nameText)
    {
      isSliding := true;
      slideStep := 0;
      slideDirection := direction;
      nameVisible := false;
      UpdateArrows();
    }

    /** The left arrow: one puzzle back, unless a slide runs or this is the first. */
    method ArrowLeft()
      requires Valid()
      modifies this
      ensures Valid()
      ensures puzzles == old(puzzles)
      ensures if old(isSliding) || old(currentIndex) <= 0 then
          unchanged(this)
        else
          currentIndex == old(currentIndex) - 1 && isSliding && slideStep == 0 && slideDirection == -1 &&
          nameText == old(nameText) && !nameVisible
    {
      if isSliding || currentIndex <= 0 {
        return;
      }
      currentIndex := currentIndex - 1;
      StartSlide(-1);
    }

    /** The right arrow: one puzzle on, unless a slide runs or this is the last. */
    method ArrowRight()
      requires Valid()
      modifies this
      ensures Valid()
      ensures puzzles == old(puzzles)
      ensures if old(isSliding) || old(currentIndex) >= |old(puzzles)| - 1 then
          unchanged(this)
        else
          currentIndex == old(currentIndex) + 1 && isSliding && slideStep == 0 && slideDirection == 1 &&
          nameText == old(nameText) && !nameVisible
    {
      if isSliding || currentIndex >= |puzzles| - 1 {
        return;
      }
      currentIndex := currentIndex + 1;
      StartSlide(1);
    }

    /**
     * One timer tick of a running slide: the step advances, and at the
     * last step the slide ends and the current puzzle's name is shown.
     */
    method SlideTimerTick()
      requires Valid() && isSliding
      modifies this`slideStep, this`isSliding, this`nameText, this`nameVisible
      ensures Valid()
      ensures slideStep == old(slideStep) + 1
      ensures isSliding <==> slideStep < MaxSteps
      ensures slideStep < MaxSteps ==> nameText == old(nameText) && nameVisible == old(nameVisible)
    {
      slideStep := slideStep + 1;
      if slideStep >= MaxSteps {
        isSliding := false;
        nameText := NameText(puzzles[currentIndex].name);
        nameVisible := true;
      }
    }
  }
}
