/**
 * The client's game-logic composable: checking that a board may be
 * submitted, and reading the words it spells.
 */
module GameLogic {
  import opened Wrappers
  import opened Seqs
  import opened OrderedMaps
  import opened Grid
  import opened Types
  import opened Runs
  import opened BoardStore
  import opened PlayerStore

  /**
   * `validateBoard`: the bench must be empty, the board must hold a tile,
   * and the tiles must be connected; the first rule broken gives the error.
   */
  method ValidateBoard(board: Board, player: PlayerStore.Player) returns (result: Outcome<string>)
    requires board.Valid()
    ensures result.Pass? <==> |BenchTiles(player.tiles)| == 0 && |board.board| > 0 && Connected(board.board)
    ensures |BenchTiles(player.tiles)| > 0 ==> result == Fail("You must use all tiles from your bench")
    ensures |BenchTiles(player.tiles)| == 0 && |board.board| == 0 ==> result == Fail("You must place tiles on the board")
    ensures |BenchTiles(player.tiles)| == 0 && |board.board| > 0 && !Connected(board.board) ==>
      result == Fail("All tiles must be connected")
  {
    if |BenchTiles(player.tiles)| > 0 {
      return Fail("You must use all tiles from your bench");
    }
    var occupiedCells := OccupiedCells(board.board);
    if |occupiedCells| == 0 {
      return Fail("You must place tiles on the board");
    }
    var connected := board.IsConnected();
    if !connected {
      return Fail("All tiles must be connected");
    }
    return Pass;
  }

  /** `getTileAt(row, col)?.letter`. */
  function LetterAt(b: Entries<Tile>, row: int, col: int): Option<string> {
    match TileAt(b, row, col)
    case None => None
    case Some(tile) => Some(tile.letter)
  }

  /** The board seen through `getTileAt`. */
  function Letters(b: Entries<Tile>): Cells {
    (row: int, col: int) => LetterAt(b, row, col)
  }

  /** The cells of row `row` from column `lo` to column `hi`, both included. */
  function RowLine(at: Cells, row: int, lo: int, hi: int): (line: Line)
    ensures |line| == if hi < lo then 0 else hi - lo + 1
  {
    seq(if hi < lo then 0 else hi - lo + 1, i => at(row, lo + i))
  }

  /** The cells of column `col` from row `lo` to row `hi`, both included. */
  function ColumnLine(at: Cells, col: int, lo: int, hi: int): (line: Line)
    ensures |line| == if hi < lo then 0 else hi - lo + 1
  {
    seq(if hi < lo then 0 else hi - lo + 1, i => at(lo + i, col))
  }

  /** The upper-cased words of each row, read across the bounds' columns. */
  function RowWords(at: Cells, bd: Bounds): int -> seq<string> {
    (row: int) => LineWords(RowLine(at, row, bd.minCol, bd.maxCol), true)
  }

  /** The upper-cased words of each column, read down the bounds' rows. */
  function ColumnWords(at: Cells, bd: Bounds): int -> seq<string> {
    (col: int) => LineWords(ColumnLine(at, col, bd.minRow, bd.maxRow), true)
  }

  /** For each row inside the bounds, top to bottom, its words. */
  function RowsWords(at: Cells, bd: Bounds): seq<seq<string>> {
    Tabulate(RowWords(at, bd), bd.minRow, bd.maxRow)
  }

  /** For each column inside the bounds, left to right, its words. */
  function ColumnsWords(at: Cells, bd: Bounds): seq<seq<string>> {
    Tabulate(ColumnWords(at, bd), bd.minCol, bd.maxCol)
  }

  /** The words of every row inside the bounds, top to bottom. */
  function Across(at: Cells, bd: Bounds): seq<string> {
    Flatten(RowsWords(at, bd))
  }

  /** The words of every column inside the bounds, left to right. */
  function Down(at: Cells, bd: Bounds): seq<string> {
    Flatten(ColumnsWords(at, bd))
  }

  /** Every word the board spells across and down, before repeats are dropped. */
  function BoardWords(at: Cells, bd: Bounds): seq<string> {
    Across(at, bd) + Down(at, bd)
  }

  /** Bounds that enclose the cells and are attained by them are the only such bounds. */
  lemma {:induction false} BoundsUnique(bd: Bounds, bd': Bounds, cells: seq<Position>)
    requires Encloses(bd, cells) && Attained(bd, cells)
    requires Encloses(bd', cells) && Attained(bd', cells)
    ensures bd == bd'
  {
    var i :| 0 <= i < |cells| && cells[i].row == bd.minRow;
    var j :| 0 <= j < |cells| && cells[j].row == bd'.minRow;
    var k :| 0 <= k < |cells| && cells[k].row == bd.maxRow;
    var l :| 0 <= l < |cells| && cells[l].row == bd'.maxRow;
    var m :| 0 <= m < |cells| && cells[m].col == bd.minCol;
    var n :| 0 <= n < |cells| && cells[n].col == bd'.minCol;
    var o :| 0 <= o < |cells| && cells[o].col == bd.maxCol;
    var q :| 0 <= q < |cells| && cells[q].col == bd'.maxCol;
  }

  predicate Vacant(at: Cells, row: int, col: int) {
    at(row, col).None?
  }

  /** Bounds outside which every cell is empty. */
  ghost predicate EmptyBeyond(at: Cells, bd: Bounds) {
    forall row: int, col: int {:trigger Vacant(at, row, col)} ::
      !(bd.minRow <= row <= bd.maxRow && bd.minCol <= col <= bd.maxCol) ==> Vacant(at, row, col)
  }

  /** A cell outside bounds that enclose every occupied cell is empty. */
  lemma {:induction false} OutsideIsEmpty(b: Entries<Tile>, bd: Bounds, row: int, col: int)
    requires CellKeys(b) && Encloses(bd, OccupiedCells(b))
    requires !(bd.minRow <= row <= bd.maxRow && bd.minCol <= col <= bd.maxCol)
    ensures Vacant(Letters(b), row, col)
  {
    if TileAt(b, row, col).Some? {
      OccupiedListed(b, Position(row, col));
      assert false;
    }
  }

  /**
   * One row's scan, which runs one column past the bounds: that cell is
   * empty, so the scan closes every run in the row.
   */
  method ScanRow(at: Cells, bd: Bounds, row: int) returns (words: seq<string>)
    requires EmptyBeyond(at, bd) && bd.minCol <= bd.maxCol
    ensures words == RowWords(at, bd)(row)
  {
    var line := RowLine(at, row, bd.minCol, bd.maxCol + 1);
    var current;
    words, current := ScanLine(line, true);
    assert Vacant(at, row, bd.maxCol + 1);
    assert line == RowLine(at, row, bd.minCol, bd.maxCol) + [None];
    TerminatedScan(RowLine(at, row, bd.minCol, bd.maxCol), true);
  }

  /** One column's scan, which runs one row past the bounds. */
  method ScanColumn(at: Cells, bd: Bounds, col: int) returns (words: seq<string>)
    requires EmptyBeyond(at, bd) && bd.minRow <= bd.maxRow
    ensures words == ColumnWords(at, bd)(col)
  {
    var line := ColumnLine(at, col, bd.minRow, bd.maxRow + 1);
    var current;
    words, current := ScanLine(line, true);
    assert Vacant(at, bd.maxRow + 1, col);
    assert line == ColumnLine(at, col, bd.minRow, bd.maxRow) + [None];
    TerminatedScan(ColumnLine(at, col, bd.minRow, bd.maxRow), true);
  }

  /** The rows' scans, top to bottom. */
  method ScanRows(at: Cells, bd: Bounds) returns (all: seq<string>)
    requires EmptyBeyond(at, bd)
    requires bd.minRow <= bd.maxRow && bd.minCol <= bd.maxCol
    ensures all == Across(at, bd)
  {
    ghost var f := RowWords(at, bd);
    all := [];
    for row := bd.minRow to bd.maxRow + 1
      invariant all == Flatten(Tabulate(f, bd.minRow, row - 1))
    {
      var found := ScanRow(at, bd, row);
      FlattenTabulateExtend(f, bd.minRow, row - 1, found);
      all := all + found;
    }
  }

  /** The columns' scans, left to right. */
  method ScanColumns(at: Cells, bd: Bounds) returns (all: seq<string>)
    requires EmptyBeyond(at, bd)
    requires bd.minRow <= bd.maxRow && bd.minCol <= bd.maxCol
    ensures all == Down(at, bd)
  {
    ghost var f := ColumnWords(at, bd);
    all := [];
    for col := bd.minCol to bd.maxCol + 1
      invariant all == Flatten(Tabulate(f, bd.minCol, col - 1))
    {
      var found := ScanColumn(at, bd, col);
      FlattenTabulateExtend(f, bd.minCol, col - 1, found);
      all := all + found;
    }
  }

  /** Attained bounds of a non-empty list of cells are not inverted. */
  lemma {:induction false} BoundsOrdered(bd: Bounds, cells: seq<Position>)
    requires Encloses(bd, cells) && Attained(bd, cells)
    ensures bd.minRow <= bd.maxRow && bd.minCol <= bd.maxCol
  {
    var i :| 0 <= i < |cells| && cells[i].row == bd.minRow;
    var j :| 0 <= j < |cells| && cells[j].col == bd.minCol;
  }

  /** The scans inside given bounds: the rows', then the columns'. */
  method ScanBoard(at: Cells, bd: Bounds) returns (all: seq<string>)
    requires EmptyBeyond(at, bd)
    requires bd.minRow <= bd.maxRow && bd.minCol <= bd.maxCol
    ensures all == BoardWords(at, bd)
  {
    var across := ScanRows(at, bd);
    var down := ScanColumns(at, bd);
    all := across + down;
  }

  /**
   * `extractWords`: no words on an empty board; otherwise the distinct
   * upper-cased words of every row and then every column inside the
   * board's bounds, in first-seen order.
   */
  method ExtractWords(board: Board) returns (words: seq<string>)
    requires board.Valid()
    ensures |board.board| == 0 ==> words == []
    ensures forall bd :: Encloses(bd, OccupiedCells(board.board)) && Attained(bd, OccupiedCells(board.board)) ==>
      words == Dedup(BoardWords(Letters(board.board), bd))
  {
    var bounds := board.GetBoardBounds();
    if bounds.None? {
      return [];
    }
    var bd := bounds.value;
    var cells := OccupiedCells(board.board);
    BoundsOrdered(bd, cells);
    var at := Letters(board.board);
    forall row: int, col: int | !(bd.minRow <= row <= bd.maxRow && bd.minCol <= col <= bd.maxCol)
      ensures Vacant(at, row, col)
    {
      OutsideIsEmpty(board.board, bd, row, col);
    }
    var all := ScanBoard(at, bd);
    words := Dedup(all);
    forall bd' | Encloses(bd', cells) && Attained(bd', cells) ensures bd' == bd {
      BoundsUnique(bd, bd', cells);
    }
  }

  /** Some row inside the bounds spells `w`. */
  ghost predicate SpelledAcross(at: Cells, bd: Bounds, w: string) {
    exists row :: bd.minRow <= row <= bd.maxRow && w in RowWords(at, bd)(row)
  }

  /** Some column inside the bounds spells `w`. */
  ghost predicate SpelledDown(at: Cells, bd: Bounds, w: string) {
    exists col :: bd.minCol <= col <= bd.maxCol && w in ColumnWords(at, bd)(col)
  }

  /** The words across are exactly those some row spells. */
  lemma {:induction false} AcrossMembers(at: Cells, bd: Bounds, w: string)
    ensures w in Across(at, bd) <==> SpelledAcross(at, bd, w)
  {
    FlattenTabulateMembers(RowWords(at, bd), bd.minRow, bd.maxRow, w);
  }

  /** The words down are exactly those some column spells. */
  lemma {:induction false} DownMembers(at: Cells, bd: Bounds, w: string)
    ensures w in Down(at, bd) <==> SpelledDown(at, bd, w)
  {
    FlattenTabulateMembers(ColumnWords(at, bd), bd.minCol, bd.maxCol, w);
  }

  /**
   * A word is listed exactly when some row or column inside the bounds
   * spells it (a run of filled cells between empty ones, longer than one
   * character, upper-cased), and it is listed once.
   */
  lemma {:induction false} ExtractedWordsSpelled(at: Cells, bd: Bounds, w: string)
    ensures Distinct(Dedup(BoardWords(at, bd)))
    ensures w in Dedup(BoardWords(at, bd)) <==> SpelledAcross(at, bd, w) || SpelledDown(at, bd, w)
  {
    var all := BoardWords(at, bd);
    if w in all {
      var i :| 0 <= i < |all| && all[i] == w;
    }
    AcrossMembers(at, bd, w);
    DownMembers(at, bd, w);
  }
}
