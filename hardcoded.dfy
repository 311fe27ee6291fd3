/**
 * The built-in catalog (Puzzle.CreateHardcodedPuzzles): ten puzzles given
 * by their target clues, numbered 0 to 9 through the "current maximum id"
 * argument of the target-clue constructor.
 */
module HardcodedPuzzles {
  import opened Options
  import opened Clues
  import opened Puzzles
  import opened SolvedCheck

  const AtClues: seq<seq<seq<int>>> :=
    [[[8], [2, 2], [2, 2], [1, 4, 1], [1, 2, 2, 1], [1, 1, 1, 1], [1, 1, 1, 1], [1, 1, 1, 1], [1, 2, 2, 2], [2, 3, 3], [2], [2, 2], [7]],
     [[8], [2, 2], [2, 2], [1, 5, 2], [1, 2, 2, 1], [1, 1, 1, 1], [1, 1, 1, 1], [1, 2, 1, 1], [1, 6, 1], [2, 1, 2], [2, 2, 1], [7]]]

  const HeartClues: seq<seq<seq<int>>> :=
    [[[1, 1], [5], [5], [3], [1]],
     [[2], [4], [4], [4], [2]]]

  const ChessClues: seq<seq<seq<int>>> :=
    [[[1, 1, 1], [1, 1], [1, 1, 1], [1, 1], [1, 1, 1]],
     [[1, 1, 1], [1, 1], [1, 1, 1], [1, 1], [1, 1, 1]]]

  const BoatClues: seq<seq<seq<int>>> :=
    [[[1], [2], [1], [5], [3]],
     [[1], [2], [5], [1, 2], [1]]]

  const FishClues: seq<seq<seq<int>>> :=
    [[[1], [2, 1], [4], [2, 1], [1]],
     [[1], [3], [5], [1], [1, 1]]]

  const TetrisClues: seq<seq<seq<int>>> :=
    [[[2, 1], [2], [2, 2], [2], [3]],
     [[1, 2], [1, 2], [1, 1], [2, 1], [1, 1, 1]]]

  const HouseClues: seq<seq<seq<int>>> :=
    [[[1], [3], [2, 2], [2, 2], [9], [7], [1, 1, 1], [1, 1, 1], [4, 1], [4, 1]],
     [[1], [7], [4, 2], [2, 2, 2], [2, 6], [2, 2], [4], [7], [1]]]

  const UmbrellaClues: seq<seq<seq<int>>> :=
    [[[1], [5], [7], [9], [1, 1, 1, 1, 1], [1], [1], [1, 1], [3]],
     [[2], [2], [4, 2], [3, 1], [9], [3], [4], [2], [2]]]

  const BigFishClues: seq<seq<seq<int>>> :=
    [[[3], [3, 1], [3, 1], [5, 2], [6, 3], [2, 6, 2], [4, 8], [2, 2, 8], [5, 5, 2], [3, 5, 2], [7, 2], [5, 1], [4, 1], [4], [3]],
     [[2], [4], [2, 2], [7], [1, 3, 2], [3, 3], [10], [12], [13], [4, 6, 3], [2, 4, 2], [1, 2, 1], [4], [8], [4, 5]]]

  const PelicanClues: seq<seq<seq<int>>> :=
    [[[3, 4], [1, 6], [1, 1, 1, 1, 1, 6], [3, 1, 6], [5, 2, 1, 2], [2, 6, 1, 2, 1], [1, 2, 3, 2, 1], [3, 1], [2, 2], [3, 3], [3, 3], [3, 5], [3, 5], [1, 1, 1], [8]],
     [[1, 6], [3, 4], [3, 2, 2], [4, 3], [1, 2, 2, 1], [1, 3], [1, 1], [1, 3], [3, 2, 2, 1], [1, 1, 1, 4], [1, 1, 3, 2, 1], [1, 3, 1], [5, 3], [4, 2, 3], [4, 4], [4], [5], [6]]]

  /** The arguments of one constructor call of the catalog. */
  datatype Entry = Entry(currentMaxId: int, rows: nat, cols: nat, clues: seq<seq<seq<int>>>,
                         name: string, difficulty: int)

  const Entries: seq<Entry> :=
    [
     Entry(-1, 13, 12, AtClues, "At", 1),
     Entry(0, 5, 5, HeartClues, "Heart", 0),
     Entry(1, 5, 5, ChessClues, "Chess", 0),
     Entry(2, 5, 5, BoatClues, "Boat", 0),
     Entry(3, 5, 5, FishClues, "Fish", 0),
     Entry(4, 5, 5, TetrisClues, "Tetris", 0),
     Entry(5, 10, 9, HouseClues, "House", 1),
     Entry(6, 9, 9, UmbrellaClues, "Umbrella", 1),
     Entry(7, 15, 15, BigFishClues, "Big fish", 2),
     Entry(8, 15, 18, PelicanClues, "Pelican", 2)
    ]

  /** Puzzle `p` is the one built from entry `e`: its size, clues, name and level, unsolved, all cells empty. */
  predicate BuiltFrom(p: Puzzle, e: Entry)
    reads p, p.cellMatrix
  {
    p.Valid() && p.id == e.currentMaxId + 1 && p.rows == e.rows && p.cols == e.cols &&
    p.puzzleNumbers == e.clues && p.name == Some(e.name) && p.difficulty == e.difficulty &&
    !p.isSolved && p.Cells() == ZeroGrid(e.rows, e.cols)
  }

  /** The catalog: one new, unsolved, all-zero puzzle per entry, with ids 0 to 9 in order. */
  method CreateHardcodedPuzzles() returns (puzzles: seq<Puzzle>)
    ensures |puzzles| == |Entries| == 10
    ensures forall k :: 0 <= k < |puzzles| ==>
      fresh(puzzles[k]) && fresh(puzzles[k].cellMatrix) && BuiltFrom(puzzles[k], Entries[k])
    ensures forall k :: 0 <= k < |puzzles| ==> puzzles[k].id == k
  {
    puzzles := [];
    for t := 0 to |Entries|
      invariant |puzzles| == t
      invariant forall k :: 0 <= k < t ==>
        fresh(puzzles[k]) && fresh(puzzles[k].cellMatrix) && BuiltFrom(puzzles[k], Entries[k])
    {
      var e := Entries[t];
      var p := new Puzzle.WithClues(e.currentMaxId, e.rows, e.cols, e.clues, Some(e.name), e.difficulty);
      puzzles := puzzles + [p];
    }
    EntryIds();
  }

  /** The entries take the ids 0 to 9 in order. */
  lemma EntryIds()
    ensures forall k :: 0 <= k < |Entries| ==> Entries[k].currentMaxId + 1 == k
  {
  }

  /** Every built-in entry has two clue parts: one list per row and one per column. */
  lemma EntriesWellShaped()
    ensures forall k :: 0 <= k < |Entries| ==>
      |Entries[k].clues| == 2 &&
      |Entries[k].clues[0]| == Entries[k].rows && |Entries[k].clues[1]| == Entries[k].cols
  {
  }

  /** The row clues and the column clues of "At" both add up to 68 cells. */
  lemma AtTotals()
    ensures Total(AtClues[0]) == 68 && Total(AtClues[1]) == 68
  {
    assert TotalTo(AtClues[0], 1) == 8;
    assert TotalTo(AtClues[0], 2) == 12;
    assert TotalTo(AtClues[0], 3) == 16;
    assert TotalTo(AtClues[0], 4) == 22;
    assert TotalTo(AtClues[0], 5) == 28;
    assert TotalTo(AtClues[0], 6) == 32;
    assert TotalTo(AtClues[0], 7) == 36;
    assert TotalTo(AtClues[0], 8) == 40;
    assert TotalTo(AtClues[0], 9) == 47;
    assert TotalTo(AtClues[0], 10) == 55;
    assert TotalTo(AtClues[0], 11) == 57;
    assert TotalTo(AtClues[0], 12) == 61;
    assert TotalTo(AtClues[0], 13) == 68;
    assert TotalTo(AtClues[1], 1) == 8;
    assert TotalTo(AtClues[1], 2) == 12;
    assert TotalTo(AtClues[1], 3) == 16;
    assert TotalTo(AtClues[1], 4) == 24;
    assert TotalTo(AtClues[1], 5) == 30;
    assert TotalTo(AtClues[1], 6) == 34;
    assert TotalTo(AtClues[1], 7) == 38;
    assert TotalTo(AtClues[1], 8) == 43;
    assert TotalTo(AtClues[1], 9) == 51;
    assert TotalTo(AtClues[1], 10) == 56;
    assert TotalTo(AtClues[1], 11) == 61;
    assert TotalTo(AtClues[1], 12) == 68;
  }

  /** The row clues and the column clues of "Heart" both add up to 16 cells. */
  lemma HeartTotals()
    ensures Total(HeartClues[0]) == 16 && Total(HeartClues[1]) == 16
  {
    assert TotalTo(HeartClues[0], 1) == 2;
    assert TotalTo(HeartClues[0], 2) == 7;
    assert TotalTo(HeartClues[0], 3) == 12;
    assert TotalTo(HeartClues[0], 4) == 15;
    assert TotalTo(HeartClues[0], 5) == 16;
    assert TotalTo(HeartClues[1], 1) == 2;
    assert TotalTo(HeartClues[1], 2) == 6;
    assert TotalTo(HeartClues[1], 3) == 10;
    assert TotalTo(HeartClues[1], 4) == 14;
    assert TotalTo(HeartClues[1], 5) == 16;
  }

  /** The row clues and the column clues of "Chess" both add up to 13 cells. */
  lemma ChessTotals()
    ensures Total(ChessClues[0]) == 13 && Total(ChessClues[1]) == 13
  {
    assert TotalTo(ChessClues[0], 1) == 3;
    assert TotalTo(ChessClues[0], 2) == 5;
    assert TotalTo(ChessClues[0], 3) == 8;
    assert TotalTo(ChessClues[0], 4) == 10;
    assert TotalTo(ChessClues[0], 5) == 13;
    assert TotalTo(ChessClues[1], 1) == 3;
    assert TotalTo(ChessClues[1], 2) == 5;
    assert TotalTo(ChessClues[1], 3) == 8;
    assert TotalTo(ChessClues[1], 4) == 10;
    assert TotalTo(ChessClues[1], 5) == 13;
  }

  /** The row clues and the column clues of "Boat" both add up to 12 cells. */
  lemma BoatTotals()
    ensures Total(BoatClues[0]) == 12 && Total(BoatClues[1]) == 12
  {
    assert TotalTo(BoatClues[0], 1) == 1;
    assert TotalTo(BoatClues[0], 2) == 3;
    assert TotalTo(BoatClues[0], 3) == 4;
    assert TotalTo(BoatClues[0], 4) == 9;
    assert TotalTo(BoatClues[0], 5) == 12;
    assert TotalTo(BoatClues[1], 1) == 1;
    assert TotalTo(BoatClues[1], 2) == 3;
    assert TotalTo(BoatClues[1], 3) == 8;
    assert TotalTo(BoatClues[1], 4) == 11;
    assert TotalTo(BoatClues[1], 5) == 12;
  }

  /** The row clues and the column clues of "Fish" both add up to 12 cells. */
  lemma FishTotals()
    ensures Total(FishClues[0]) == 12 && Total(FishClues[1]) == 12
  {
    assert TotalTo(FishClues[0], 1) == 1;
    assert TotalTo(FishClues[0], 2) == 4;
    assert TotalTo(FishClues[0], 3) == 8;
    assert TotalTo(FishClues[0], 4) == 11;
    assert TotalTo(FishClues[0], 5) == 12;
    assert TotalTo(FishClues[1], 1) == 1;
    assert TotalTo(FishClues[1], 2) == 4;
    assert TotalTo(FishClues[1], 3) == 9;
    assert TotalTo(FishClues[1], 4) == 10;
    assert TotalTo(FishClues[1], 5) == 12;
  }

  /** The row clues and the column clues of "Tetris" both add up to 14 cells. */
  lemma TetrisTotals()
    ensures Total(TetrisClues[0]) == 14 && Total(TetrisClues[1]) == 14
  {
    assert TotalTo(TetrisClues[0], 1) == 3;
    assert TotalTo(TetrisClues[0], 2) == 5;
    assert TotalTo(TetrisClues[0], 3) == 9;
    assert TotalTo(TetrisClues[0], 4) == 11;
    assert TotalTo(TetrisClues[0], 5) == 14;
    assert TotalTo(TetrisClues[1], 1) == 3;
    assert TotalTo(TetrisClues[1], 2) == 6;
    assert TotalTo(TetrisClues[1], 3) == 8;
    assert TotalTo(TetrisClues[1], 4) == 11;
    assert TotalTo(TetrisClues[1], 5) == 14;
  }

  /** The row clues and the column clues of "House" both add up to 44 cells. */
  lemma HouseTotals()
    ensures Total(HouseClues[0]) == 44 && Total(HouseClues[1]) == 44
  {
    assert TotalTo(HouseClues[0], 1) == 1;
    assert TotalTo(HouseClues[0], 2) == 4;
    assert TotalTo(HouseClues[0], 3) == 8;
    assert TotalTo(HouseClues[0], 4) == 12;
    assert TotalTo(HouseClues[0], 5) == 21;
    assert TotalTo(HouseClues[0], 6) == 28;
    assert TotalTo(HouseClues[0], 7) == 31;
    assert TotalTo(HouseClues[0], 8) == 34;
    assert TotalTo(HouseClues[0], 9) == 39;
    assert TotalTo(HouseClues[0], 10) == 44;
    assert TotalTo(HouseClues[1], 1) == 1;
    assert TotalTo(HouseClues[1], 2) == 8;
    assert TotalTo(HouseClues[1], 3) == 14;
    assert TotalTo(HouseClues[1], 4) == 20;
    assert TotalTo(HouseClues[1], 5) == 28;
    assert TotalTo(HouseClues[1], 6) == 32;
    assert TotalTo(HouseClues[1], 7) == 36;
    assert TotalTo(HouseClues[1], 8) == 43;
    assert TotalTo(HouseClues[1], 9) == 44;
  }

  /** The row clues and the column clues of "Umbrella" both add up to 34 cells. */
  lemma UmbrellaTotals()
    ensures Total(UmbrellaClues[0]) == 34 && Total(UmbrellaClues[1]) == 34
  {
    assert TotalTo(UmbrellaClues[0], 1) == 1;
    assert TotalTo(UmbrellaClues[0], 2) == 6;
    assert TotalTo(UmbrellaClues[0], 3) == 13;
    assert TotalTo(UmbrellaClues[0], 4) == 22;
    assert TotalTo(UmbrellaClues[0], 5) == 27;
    assert TotalTo(UmbrellaClues[0], 6) == 28;
    assert TotalTo(UmbrellaClues[0], 7) == 29;
    assert TotalTo(UmbrellaClues[0], 8) == 31;
    assert TotalTo(UmbrellaClues[0], 9) == 34;
    assert TotalTo(UmbrellaClues[1], 1) == 2;
    assert TotalTo(UmbrellaClues[1], 2) == 4;
    assert TotalTo(UmbrellaClues[1], 3) == 10;
    assert TotalTo(UmbrellaClues[1], 4) == 14;
    assert TotalTo(UmbrellaClues[1], 5) == 23;
    assert TotalTo(UmbrellaClues[1], 6) == 26;
    assert TotalTo(UmbrellaClues[1], 7) == 30;
    assert TotalTo(UmbrellaClues[1], 8) == 32;
    assert TotalTo(UmbrellaClues[1], 9) == 34;
  }

  /** The row clues and the column clues of "Big fish" both add up to 110 cells. */
  lemma BigFishTotals()
    ensures Total(BigFishClues[0]) == 110 && Total(BigFishClues[1]) == 110
  {
    BigFishRowTotal();
    BigFishColumnTotal();
  }

  lemma BigFishRowTotal()
    ensures Total(BigFishClues[0]) == 110
  {
    assert TotalTo(BigFishClues[0], 1) == 3;
    assert TotalTo(BigFishClues[0], 2) == 7;
    assert TotalTo(BigFishClues[0], 3) == 11;
    assert TotalTo(BigFishClues[0], 4) == 18;
    assert TotalTo(BigFishClues[0], 5) == 27;
    assert TotalTo(BigFishClues[0], 6) == 37;
    assert TotalTo(BigFishClues[0], 7) == 49;
    assert TotalTo(BigFishClues[0], 8) == 61;
    assert TotalTo(BigFishClues[0], 9) == 73;
    assert TotalTo(BigFishClues[0], 10) == 83;
    assert TotalTo(BigFishClues[0], 11) == 92;
    assert TotalTo(BigFishClues[0], 12) == 98;
    assert TotalTo(BigFishClues[0], 13) == 103;
    assert TotalTo(BigFishClues[0], 14) == 107;
    assert TotalTo(BigFishClues[0], 15) == 110;
  }

  lemma BigFishColumnTotal()
    ensures Total(BigFishClues[1]) == 110
  {
    assert TotalTo(BigFishClues[1], 1) == 2;
    assert TotalTo(BigFishClues[1], 2) == 6;
    assert TotalTo(BigFishClues[1], 3) == 10;
    assert TotalTo(BigFishClues[1], 4) == 17;
    assert TotalTo(BigFishClues[1], 5) == 23;
    assert TotalTo(BigFishClues[1], 6) == 29;
    assert TotalTo(BigFishClues[1], 7) == 39;
    assert TotalTo(BigFishClues[1], 8) == 51;
    assert TotalTo(BigFishClues[1], 9) == 64;
    assert TotalTo(BigFishClues[1], 10) == 77;
    assert TotalTo(BigFishClues[1], 11) == 85;
    assert TotalTo(BigFishClues[1], 12) == 89;
    assert TotalTo(BigFishClues[1], 13) == 93;
    assert TotalTo(BigFishClues[1], 14) == 101;
    assert TotalTo(BigFishClues[1], 15) == 110;
  }


  /** The row clues of "Pelican" add up to 113 cells but its column clues to 112. */
  lemma PelicanTotals()
    ensures Total(PelicanClues[0]) == 113 && Total(PelicanClues[1]) == 112
  {
    PelicanRowTotal();
    PelicanColumnTotal();
  }

  lemma PelicanRowTotal()
    ensures Total(PelicanClues[0]) == 113
  {
    assert TotalTo(PelicanClues[0], 1) == 7;
    assert TotalTo(PelicanClues[0], 2) == 14;
    assert TotalTo(PelicanClues[0], 3) == 25;
    assert TotalTo(PelicanClues[0], 4) == 35;
    assert TotalTo(PelicanClues[0], 5) == 45;
    assert TotalTo(PelicanClues[0], 6) == 57;
    assert TotalTo(PelicanClues[0], 7) == 66;
    assert TotalTo(PelicanClues[0], 8) == 70;
    assert TotalTo(PelicanClues[0], 9) == 74;
    assert TotalTo(PelicanClues[0], 10) == 80;
    assert TotalTo(PelicanClues[0], 11) == 86;
    assert TotalTo(PelicanClues[0], 12) == 94;
    assert TotalTo(PelicanClues[0], 13) == 102;
    assert TotalTo(PelicanClues[0], 14) == 105;
    assert TotalTo(PelicanClues[0], 15) == 113;
  }

  lemma PelicanColumnTotal()
    ensures Total(PelicanClues[1]) == 112
  {
    PelicanColumnsHead();
    PelicanColumnsTail();
  }

  lemma PelicanColumnsHead()
    ensures TotalTo(PelicanClues[1], 9) == 52
  {
    assert TotalTo(PelicanClues[1], 1) == 7;
    assert TotalTo(PelicanClues[1], 2) == 14;
    assert TotalTo(PelicanClues[1], 3) == 21;
    assert TotalTo(PelicanClues[1], 4) == 28;
    assert TotalTo(PelicanClues[1], 5) == 34;
    assert TotalTo(PelicanClues[1], 6) == 38;
    assert TotalTo(PelicanClues[1], 7) == 40;
    assert TotalTo(PelicanClues[1], 8) == 44;
  }

  lemma PelicanColumnsTail()
    requires TotalTo(PelicanClues[1], 9) == 52
    ensures TotalTo(PelicanClues[1], 18) == 112
  {
    assert TotalTo(PelicanClues[1], 10) == 59;
    assert TotalTo(PelicanClues[1], 11) == 67;
    assert TotalTo(PelicanClues[1], 12) == 72;
    assert TotalTo(PelicanClues[1], 13) == 80;
    assert TotalTo(PelicanClues[1], 14) == 89;
    assert TotalTo(PelicanClues[1], 15) == 97;
    assert TotalTo(PelicanClues[1], 16) == 101;
    assert TotalTo(PelicanClues[1], 17) == 106;
  }

  /** Apart from "Pelican", every entry's row and column clues describe the same number of cells. */
  lemma CatalogTotals()
    ensures forall k :: 0 <= k < |Entries| ==>
      (Total(Entries[k].clues[0]) == Total(Entries[k].clues[1]) <==> k != 9)
  {
    forall k | 0 <= k < |Entries|
      ensures Total(Entries[k].clues[0]) == Total(Entries[k].clues[1]) <==> k != 9
    {
      if k == 0 {
        assert Entries[k].clues == AtClues;
        AtTotals();
      } else if k == 1 {
        assert Entries[k].clues == HeartClues;
        HeartTotals();
      } else if k == 2 {
        assert Entries[k].clues == ChessClues;
        ChessTotals();
      } else if k == 3 {
        assert Entries[k].clues == BoatClues;
        BoatTotals();
      } else if k == 4 {
        assert Entries[k].clues == FishClues;
        FishTotals();
      } else if k == 5 {
        assert Entries[k].clues == TetrisClues;
        TetrisTotals();
      } else if k == 6 {
        assert Entries[k].clues == HouseClues;
        HouseTotals();
      } else if k == 7 {
        assert Entries[k].clues == UmbrellaClues;
        UmbrellaTotals();
      } else if k == 8 {
        assert Entries[k].clues == BigFishClues;
        BigFishTotals();
      } else {
        assert Entries[k].clues == PelicanClues;
        PelicanTotals();
      }
    }
  }

  /**
   * No picture derives the clues of "Pelican": by rows it would have 113
   * painted cells and by columns 112.
   */
  lemma PelicanHasNoPicture(g: Grid)
    requires IsGrid(g, 15, 18)
    ensures Derive(g, 15, 18) != PelicanClues
  {
    PelicanTotals();
    DerivedTotalsAgree(g, 15, 18);
  }

  /** A picture for "Heart". */
  const HeartPicture: Grid :=
    [[0, 1, 0, 1, 0],
     [1, 1, 1, 1, 1],
     [1, 1, 1, 1, 1],
     [0, 1, 1, 1, 0],
     [0, 0, 1, 0, 0]]

  /** The top row of "Heart", two single cells apart. */
  lemma HeartTopRow()
    ensures LineClue([0, 1, 0, 1, 0]) == [1, 1]
  {
    var blocks := [Block(1, 1), Block(1, 1)];
    assert blocks[..1] == [Block(1, 1)] && [Block(1, 1)][..0] == [];
    assert Paint(blocks) + Zeros(1) == [0, 1, 0, 1, 0];
    assert WellSeparated(blocks);
    PaintThenRuns(blocks, 1);
    assert RunLengths(blocks) == [1, 1];
  }

  /** Row j of the picture has the clue of row j of "Heart". */
  lemma HeartRow(j: nat)
    requires j < 5
    ensures IsGrid(HeartPicture, 5, 5)
    ensures LineClue(Line(HeartPicture, 5, 0, j)) == HeartClues[0][j]
  {
    var line := Line(HeartPicture, 5, 0, j);
    if j == 0 {
      assert line == [0, 1, 0, 1, 0];
      HeartTopRow();
    } else if j == 1 || j == 2 {
      assert line == Zeros(0) + Ones(5) + Zeros(0);
      SingleRunLine(0, 5, 0);
    } else if j == 3 {
      assert line == Zeros(1) + Ones(3) + Zeros(1);
      SingleRunLine(1, 3, 1);
    } else {
      assert line == Zeros(2) + Ones(1) + Zeros(2);
      SingleRunLine(2, 1, 2);
    }
  }

  /** Column j of the picture has the clue of column j of "Heart". */
  lemma HeartColumn(j: nat)
    requires j < 5
    ensures IsGrid(HeartPicture, 5, 5)
    ensures LineClue(Line(HeartPicture, 5, 1, j)) == HeartClues[1][j]
  {
    var line := Line(HeartPicture, 5, 1, j);
    if j == 0 || j == 4 {
      assert line == Zeros(1) + Ones(2) + Zeros(2);
      SingleRunLine(1, 2, 2);
    } else if j == 2 {
      assert line == Zeros(1) + Ones(4) + Zeros(0);
      SingleRunLine(1, 4, 0);
    } else {
      assert line == Zeros(0) + Ones(4) + Zeros(1);
      SingleRunLine(0, 4, 1);
    }
  }

  lemma HeartRowClues()
    ensures IsGrid(HeartPicture, 5, 5)
    ensures Derive(HeartPicture, 5, 5)[0] == HeartClues[0]
  {
    var d := Derive(HeartPicture, 5, 5);
    forall j | 0 <= j < 5 ensures d[0][j] == HeartClues[0][j] {
      DeriveEntry(HeartPicture, 5, 5, 0, j);
      HeartRow(j);
    }
  }

  lemma HeartColumnClues()
    ensures IsGrid(HeartPicture, 5, 5)
    ensures Derive(HeartPicture, 5, 5)[1] == HeartClues[1]
  {
    var d := Derive(HeartPicture, 5, 5);
    forall j | 0 <= j < 5 ensures d[1][j] == HeartClues[1][j] {
      DeriveEntry(HeartPicture, 5, 5, 1, j);
      HeartColumn(j);
    }
  }

  /** The picture derives exactly the clues of "Heart", so drawing it solves that entry. */
  lemma HeartIsSolvable()
    ensures IsGrid(HeartPicture, 5, 5)
    ensures Derive(HeartPicture, 5, 5) == HeartClues
    ensures GridVerdict(HeartPicture, 5, HeartClues) == Match
  {
    HeartRowClues();
    HeartColumnClues();
    SolvedAgainstOwnClues(HeartPicture, 5, 5);
  }
}
