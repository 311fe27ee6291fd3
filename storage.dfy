/**
 * The puzzle store (Classes/PuzzleStorage.cs). The JSON file is a value
 * passed in and returned: a list of puzzle records, each a copy of a
 * puzzle's properties and cells taken when the list was written. Loading
 * builds fresh Puzzle objects from the records. The JSON text itself is
 * not modelled.
 */
module Storage {
  import opened Options
  import opened Clues
  import opened Puzzles

  /** One puzzle as the file holds it: its eight JSON properties, the cells as a jagged array. */
  datatype PuzzleRecord = PuzzleRecord(id: int, name: Option<string>, rows: int, cols: int, difficulty: int,
                                       isSolved: bool, puzzleNumbers: seq<seq<seq<int>>>, puzzleCells: Grid)

  /** The puzzles file: missing, or present with a payload that decodes to a list or to null. */
  datatype StoreFile = Absent | Present(decoded: Option<seq<PuzzleRecord>>)

  /** What the JSON writer records for a puzzle: its properties, and the PuzzleCells getter's copy of the matrix. */
  function Encode(p: Puzzle): PuzzleRecord
    reads p, p.cellMatrix
  {
    PuzzleRecord(p.id, p.name, p.rows, p.cols, p.difficulty, p.isSolved, p.puzzleNumbers, Snapshot(p.cellMatrix))
  }

  /** The records of a list of puzzles, in order. */
  function EncodeAll(puzzles: seq<Puzzle>): (records: seq<PuzzleRecord>)
    reads puzzles, set p | p in puzzles :: p.cellMatrix
    ensures |records| == |puzzles|
    ensures forall k :: 0 <= k < |puzzles| ==> records[k] == Encode(puzzles[k])
  {
    if puzzles == [] then [] else [Encode(puzzles[0])] + EncodeAll(puzzles[1..])
  }

  /** The records a file holds: a missing file and a null payload hold none. */
  function StoredRecords(file: StoreFile): (records: seq<PuzzleRecord>)
    ensures file.Absent? ==> records == []
    ensures file == Present(None) ==> records == []
    ensures file.Present? && file.decoded.Some? ==> records == file.decoded.value
  {
    match file
    case Absent => []
    case Present(None) => []
    case Present(Some(list)) => list
  }

  /**
   * The PuzzleCells setter can read the record's cells: there is a first
   * row, and no later row is shorter than it.
   */
  predicate Decodable(r: PuzzleRecord) {
    |r.puzzleCells| >= 1 && forall i :: 0 <= i < |r.puzzleCells| ==> |r.puzzleCells[i]| >= |r.puzzleCells[0]|
  }

  /** Every record of the file can be read back. */
  predicate Readable(file: StoreFile) {
    forall k :: 0 <= k < |StoredRecords(file)| ==> Decodable(StoredRecords(file)[k])
  }

  /** The record a puzzle read from `r` writes back: longer rows are cut to the width of the first. */
  function Reloaded(r: PuzzleRecord): PuzzleRecord
    requires Decodable(r)
  {
    r.(puzzleCells := Rectangle(r.puzzleCells))
  }

  function ReloadedAll(records: seq<PuzzleRecord>): (back: seq<PuzzleRecord>)
    requires forall k :: 0 <= k < |records| ==> Decodable(records[k])
    ensures |back| == |records|
    ensures forall k :: 0 <= k < |records| ==> back[k] == Reloaded(records[k])
  {
    seq(|records|, k requires 0 <= k < |records| => Reloaded(records[k]))
  }

  /** A rectangular record reads back unchanged. */
  lemma ReloadedRectangle(r: PuzzleRecord)
    requires |r.puzzleCells| >= 1 && IsGrid(r.puzzleCells, |r.puzzleCells|, |r.puzzleCells[0]|)
    ensures Decodable(r) && Reloaded(r) == r
  {
    var g := r.puzzleCells;
    forall i | 0 <= i < |g| ensures Rectangle(g)[i] == g[i] {
      assert |Rectangle(g)[i]| == |g[i]|;
    }
  }

  /**
   * LoadPuzzles: the JSON reader builds one fresh puzzle per record, in
   * order, with the constructor it is given; a missing file or a null
   * payload gives the empty list.
   */
  method LoadPuzzles(file: StoreFile) returns (puzzles: seq<Puzzle>)
    requires Readable(file)
    ensures |puzzles| == |StoredRecords(file)|
    ensures forall k :: 0 <= k < |puzzles| ==>
      fresh(puzzles[k]) && fresh(puzzles[k].cellMatrix) && Encode(puzzles[k]) == Reloaded(StoredRecords(file)[k])
  {
    var records := StoredRecords(file);
    puzzles := [];
    for t := 0 to |records|
      invariant |puzzles| == t
      invariant forall k :: 0 <= k < t ==>
        fresh(puzzles[k]) && fresh(puzzles[k].cellMatrix) && Encode(puzzles[k]) == Reloaded(records[k])
    {
      var r := records[t];
      var p := new Puzzle.Deserialized(r.id, r.rows, r.cols, r.puzzleNumbers, r.name, r.difficulty,
                                       r.isSolved, r.puzzleCells);
      puzzles := puzzles + [p];
    }
  }

  /** SavePuzzles: the file afterwards holds the records of the whole list, as the puzzles are now. */
  function SavePuzzles(puzzles: seq<Puzzle>): (file: StoreFile)
    reads puzzles, set p | p in puzzles :: p.cellMatrix
    ensures file.Present? && file.decoded.Some?
    ensures StoredRecords(file) == EncodeAll(puzzles)
  {
    Present(Some(EncodeAll(puzzles)))
  }

  /**
   * Writing a list and reading it back gives puzzles with the same
   * records, so the same ids, names, sizes, levels, flags, clues and cells,
   * as long as every matrix has a row.
   */
  lemma SaveThenLoad(puzzles: seq<Puzzle>)
    requires forall k :: 0 <= k < |puzzles| ==> puzzles[k].cellMatrix.Length0 >= 1
    ensures Readable(SavePuzzles(puzzles))
    ensures |StoredRecords(SavePuzzles(puzzles))| == |puzzles|
    ensures forall k :: 0 <= k < |puzzles| ==> Reloaded(StoredRecords(SavePuzzles(puzzles))[k]) == Encode(puzzles[k])
  {
    var records := StoredRecords(SavePuzzles(puzzles));
    forall k | 0 <= k < |puzzles|
      ensures Decodable(records[k]) && Reloaded(records[k]) == Encode(puzzles[k])
    {
      ReloadedRectangle(Encode(puzzles[k]));
    }
  }

  /** List.FindIndex on the id: the first position with that id, or -1. */
  function FindIndex(puzzles: seq<Puzzle>, id: int): (index: int)
    reads puzzles
    ensures -1 <= index < |puzzles|
    ensures index >= 0 ==> puzzles[index].id == id && forall k :: 0 <= k < index ==> puzzles[k].id != id
    ensures index == -1 ==> forall k :: 0 <= k < |puzzles| ==> puzzles[k].id != id
  {
    if puzzles == [] then -1
    else if puzzles[0].id == id then 0
    else
      var rest := FindIndex(puzzles[1..], id);
      if rest == -1 then -1 else rest + 1
  }

  /** The first record with the given id sits at position i. */
  predicate FirstWithId(records: seq<PuzzleRecord>, id: int, i: int) {
    0 <= i < |records| && records[i].id == id && forall k :: 0 <= k < i ==> records[k].id != id
  }

  /**
   * The records after saving `record`: the first one with its id is
   * replaced, or, when no record has that id, it is appended.
   */
  function Upsert(records: seq<PuzzleRecord>, record: PuzzleRecord): (saved: seq<PuzzleRecord>)
    ensures |saved| == |records| || saved == records + [record]
  {
    if records == [] then [record]
    else if records[0].id == record.id then [record] + records[1..]
    else [records[0]] + Upsert(records[1..], record)
  }

  /** An existing id: the record takes the place of the first one with that id, and the rest stay. */
  lemma {:induction false} UpsertReplaces(records: seq<PuzzleRecord>, record: PuzzleRecord, i: int)
    requires FirstWithId(records, record.id, i)
    ensures Upsert(records, record) == records[i := record]
    decreases |records|
  {
    if i > 0 {
      assert FirstWithId(records[1..], record.id, i - 1);
      UpsertReplaces(records[1..], record, i - 1);
      assert records[i := record] == [records[0]] + records[1..][i - 1 := record];
    }
  }

  /** A new id: the record is appended. */
  lemma {:induction false} UpsertAppends(records: seq<PuzzleRecord>, record: PuzzleRecord)
    requires forall k :: 0 <= k < |records| ==> records[k].id != record.id
    ensures Upsert(records, record) == records + [record]
    decreases |records|
  {
    if records != [] {
      UpsertAppends(records[1..], record);
      assert records == [records[0]] + records[1..];
    }
  }

  /** After a save the record is the first one with its id. */
  lemma UpsertFindsRecord(records: seq<PuzzleRecord>, record: PuzzleRecord)
    ensures exists i :: FirstWithId(Upsert(records, record), record.id, i) && Upsert(records, record)[i] == record
  {
    var saved := Upsert(records, record);
    if i :| FirstWithId(records, record.id, i) {
      UpsertReplaces(records, record, i);
      assert FirstWithId(saved, record.id, i);
    } else {
      forall k | 0 <= k < |records| ensures records[k].id != record.id {
        if records[k].id == record.id {
          FirstIdExists(records, record.id, k);
        }
      }
      UpsertAppends(records, record);
      assert FirstWithId(saved, record.id, |records|);
    }
  }

  /** Some position holds the id, so a first such position exists. */
  lemma {:induction false} FirstIdExists(records: seq<PuzzleRecord>, id: int, k: int)
    requires 0 <= k < |records| && records[k].id == id
    ensures exists i :: FirstWithId(records, id, i)
    decreases k
  {
    if forall j :: 0 <= j < k ==> records[j].id != id {
      assert FirstWithId(records, id, k);
    } else {
      var j :| 0 <= j < k && records[j].id == id;
      FirstIdExists(records, id, j);
    }
  }

  /** Saving the same record twice leaves the same list as saving it once. */
  lemma {:induction false} UpsertIdempotent(records: seq<PuzzleRecord>, record: PuzzleRecord)
    ensures Upsert(Upsert(records, record), record) == Upsert(records, record)
    decreases |records|
  {
    if records != [] && records[0].id != record.id {
      UpsertIdempotent(records[1..], record);
      var saved := Upsert(records, record);
      assert saved[1..] == Upsert(records[1..], record);
    }
  }

  /** The store after SavePuzzle: the file's records as read back, with `record` upserted. */
  function AfterSave(file: StoreFile, record: PuzzleRecord): StoreFile
    requires Readable(file)
  {
    Present(Some(Upsert(ReloadedAll(StoredRecords(file)), record)))
  }

  /**
   * The C# search and replace, done on the loaded objects, writes back the
   * upsert of their records.
   */
  lemma ReplaceIsUpsert(puzzles: seq<Puzzle>, puzzle: Puzzle)
    ensures FindIndex(puzzles, puzzle.id) != -1 ==>
      EncodeAll(puzzles[FindIndex(puzzles, puzzle.id) := puzzle]) == Upsert(EncodeAll(puzzles), Encode(puzzle))
    ensures FindIndex(puzzles, puzzle.id) == -1 ==>
      EncodeAll(puzzles + [puzzle]) == Upsert(EncodeAll(puzzles), Encode(puzzle))
  {
    var records, index := EncodeAll(puzzles), FindIndex(puzzles, puzzle.id);
    if index != -1 {
      assert FirstWithId(records, puzzle.id, index);
      UpsertReplaces(records, Encode(puzzle), index);
      assert EncodeAll(puzzles[index := puzzle]) == records[index := Encode(puzzle)];
    } else {
      UpsertAppends(records, Encode(puzzle));
      assert EncodeAll(puzzles + [puzzle]) == records + [Encode(puzzle)];
    }
  }

  /** SavePuzzle: load the list, replace or append the puzzle, write the list back. */
  method SavePuzzle(file: StoreFile, puzzle: Puzzle) returns (saved: StoreFile)
    requires Readable(file)
    ensures saved == AfterSave(file, Encode(puzzle))
  {
    var puzzles: seq<Puzzle> := LoadPuzzles(file);
    assert EncodeAll(puzzles) == ReloadedAll(StoredRecords(file));
    ReplaceIsUpsert(puzzles, puzzle);
    var index := FindIndex(puzzles, puzzle.id);
    if index != -1 {
      puzzles := puzzles[index := puzzle];
    } else {
      puzzles := puzzles + [puzzle];
    }
    saved := SavePuzzles(puzzles);
  }
}
