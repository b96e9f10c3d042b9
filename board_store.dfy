/**
 * The client's board store: a sparse board held as an object whose keys
 * are the texts `"row,col"` and whose values are the tiles placed there.
 * The getters are functions of the map; the store itself is a class whose
 * one field is that map.
 */
module BoardStore {
  import opened Wrappers
  import opened Seqs
  import opened Text
  import opened Decimal
  import opened OrderedMaps
  import opened Grid
  import opened Types

  /** `getCellKey`: `${row},${col}`. */
  function CellKey(row: int, col: int): string {
    IntToString(row) + "," + IntToString(col)
  }

  /** A cell's key reads back as that cell. */
  lemma {:induction false} CellKeyRoundTrip(row: int, col: int)
    ensures ParseKey(CellKey(row, col)) == Some(Position(row, col))
  {
    IntToStringHasNoComma(row);
    IntToStringHasNoComma(col);
    SplitPair(IntToString(row), IntToString(col), ',');
    ParseIntOfIntToString(row);
    ParseIntOfIntToString(col);
  }

  /** `key.split(',').map(Number)` on a key of the form `"row,col"`; `None` for any other text. */
  function ParseKey(k: string): (p: Option<Position>)
  {
    var parts := Split(k, ',');
    if |parts| == 2 && ParseInt(parts[0]).Some? && ParseInt(parts[1]).Some? then
      Some(Position(ParseInt(parts[0]).value, ParseInt(parts[1]).value))
    else None
  }

  /** Different cells have different keys. */
  lemma {:induction false} CellKeyInjective(p: Position, q: Position)
    requires CellKey(p.row, p.col) == CellKey(q.row, q.col)
    ensures p == q
  {
    CellKeyRoundTrip(p.row, p.col);
    CellKeyRoundTrip(q.row, q.col);
  }

  /** Every cell's key is a cell key. */
  lemma {:induction false} CellKeyIsCellKey(row: int, col: int)
    ensures IsCellKey(CellKey(row, col))
  {
    CellKeyRoundTrip(row, col);
  }

  /** The cell a key names; keys that name no cell are never stored. */
  function KeyCell(k: string): Position {
    match ParseKey(k)
    case Some(p) => p
    case None => Position(0, 0)
  }

  /** A key that some cell's `getCellKey` produces. */
  predicate IsCellKey(k: string) {
    CellKey(KeyCell(k).row, KeyCell(k).col) == k
  }

  predicate CellKeys(b: Entries<Tile>) {
    forall i :: 0 <= i < |b| ==> IsCellKey(b[i].0)
  }

  /** The store's map: one entry per key, every key made by `getCellKey`. */
  predicate IsBoard(b: Entries<Tile>) {
    WellFormed(b) && CellKeys(b)
  }

  /** `getTileAt`: the tile at a cell, or nothing. */
  function TileAt(b: Entries<Tile>, row: int, col: int): Option<Tile> {
    Get(b, CellKey(row, col))
  }

  /** `isCellEmpty`. */
  predicate IsCellEmpty(b: Entries<Tile>, row: int, col: int) {
    TileAt(b, row, col).None?
  }

  /** `getOccupiedCells`: the cell of every key, in key order. */
  function OccupiedCells(b: Entries<Tile>): (cells: seq<Position>)
    requires CellKeys(b)
    ensures |cells| == |b|
    ensures forall i :: 0 <= i < |b| ==> CellKey(cells[i].row, cells[i].col) == b[i].0
  {
    seq(|b|, i requires 0 <= i < |b| => KeyCell(b[i].0))
  }

  datatype Placed = Placed(tile: Tile, position: Position)

  /** `getAllTiles`: every tile with its cell, in key order. */
  function AllTiles(b: Entries<Tile>): (placed: seq<Placed>)
    requires CellKeys(b)
    ensures |placed| == |b|
    ensures forall i :: 0 <= i < |b| ==>
      placed[i].tile == b[i].1 && CellKey(placed[i].position.row, placed[i].position.col) == b[i].0
  {
    seq(|b|, i requires 0 <= i < |b| => Placed(b[i].1, KeyCell(b[i].0)))
  }

  /** The occupied cells as a set. */
  function OccupiedSet(b: Entries<Tile>): set<Position>
    requires CellKeys(b)
  {
    Elements(OccupiedCells(b))
  }

  /** Every listed cell holds the tile its entry names: the key round trip. */
  lemma {:induction false} TilesAtOccupiedCells(b: Entries<Tile>, i: nat)
    requires IsBoard(b) && i < |b|
    ensures TileAt(b, OccupiedCells(b)[i].row, OccupiedCells(b)[i].col) == Some(b[i].1)
    ensures AllTiles(b)[i].position == OccupiedCells(b)[i]
  {
    GetAt(b, i);
    CellKeyInjective(AllTiles(b)[i].position, OccupiedCells(b)[i]);
  }

  /** A cell holds a tile exactly when it is listed among the occupied cells. */
  lemma {:induction false} OccupiedIff(b: Entries<Tile>, p: Position)
    requires IsBoard(b)
    ensures TileAt(b, p.row, p.col).Some? <==> p in OccupiedSet(b)
  {
    if TileAt(b, p.row, p.col).Some? {
      OccupiedListed(b, p);
    }
    if p in OccupiedSet(b) {
      ListedOccupied(b, p);
    }
  }

  lemma {:induction false} OccupiedListed(b: Entries<Tile>, p: Position)
    requires CellKeys(b) && TileAt(b, p.row, p.col).Some?
    ensures p in OccupiedCells(b)
  {
    var cells := OccupiedCells(b);
    var i :| 0 <= i < |b| && Keys(b)[i] == CellKey(p.row, p.col);
    CellKeyInjective(cells[i], p);
  }

  lemma {:induction false} ListedOccupied(b: Entries<Tile>, p: Position)
    requires CellKeys(b) && p in OccupiedCells(b)
    ensures TileAt(b, p.row, p.col).Some?
  {
    var cells := OccupiedCells(b);
    var i :| 0 <= i < |cells| && cells[i] == p;
    assert Keys(b)[i] == CellKey(p.row, p.col);
  }

  /** No cell is listed twice. */
  lemma {:induction false} OccupiedCellsDistinct(b: Entries<Tile>)
    requires IsBoard(b)
    ensures Distinct(OccupiedCells(b))
  {
    var cells := OccupiedCells(b);
    forall i, j | 0 <= i < j < |cells| ensures cells[i] != cells[j] {
      assert Keys(b)[i] != Keys(b)[j];
    }
  }

  /** After `placeTile`, the target cell holds the tile and every other cell is as before. */
  lemma {:induction false} TileAtAfterPlace(b: Entries<Tile>, tile: Tile, row: int, col: int, r: int, c: int)
    ensures TileAt(Put(b, CellKey(row, col), tile), r, c) ==
      if r == row && c == col then Some(tile) else TileAt(b, r, c)
  {
    GetPut(b, CellKey(row, col), tile, CellKey(r, c));
    if CellKey(r, c) == CellKey(row, col) {
      CellKeyInjective(Position(r, c), Position(row, col));
    }
  }

  /** After `removeTile`, the cell is empty and every other cell is as before. */
  lemma {:induction false} TileAtAfterRemove(b: Entries<Tile>, row: int, col: int, r: int, c: int)
    ensures TileAt(Remove(b, CellKey(row, col)), r, c) ==
      if r == row && c == col then None else TileAt(b, r, c)
  {
    GetRemove(b, CellKey(row, col), CellKey(r, c));
    if CellKey(r, c) == CellKey(row, col) {
      CellKeyInjective(Position(r, c), Position(row, col));
    }
  }

  /** The keys of a well-formed board stay cell keys and distinct through placing and removing. */
  lemma {:induction false} PutKeepsBoard(b: Entries<Tile>, row: int, col: int, tile: Tile)
    requires IsBoard(b)
    ensures IsBoard(Put(b, CellKey(row, col), tile))
  {
    PutWellFormed(b, CellKey(row, col), tile);
    KeysPut(b, CellKey(row, col), tile);
    CellKeyIsCellKey(row, col);
    var b' := Put(b, CellKey(row, col), tile);
    forall i | 0 <= i < |b'| ensures IsCellKey(b'[i].0) {
      assert Keys(b')[i] in Keys(b) + [CellKey(row, col)];
      if Keys(b')[i] in Keys(b) {
        var j :| 0 <= j < |b| && Keys(b)[j] == Keys(b')[i];
        assert IsCellKey(b[j].0);
      }
    }
  }

  lemma {:induction false} RemoveKeepsBoard(b: Entries<Tile>, k: string)
    requires IsBoard(b)
    ensures IsBoard(Remove(b, k))
  {
    RemoveWellFormed(b, k);
    KeysRemove(b, k);
    var b' := Remove(b, k);
    forall i | 0 <= i < |b'| ensures IsCellKey(b'[i].0) {
      assert Keys(b')[i] in Keys(b');
      var j :| 0 <= j < |b| && Keys(b)[j] == Keys(b')[i];
      assert IsCellKey(b[j].0);
    }
  }

  /**
   * A successful `moveTile`: the tile is at the destination, the source is
   * empty, every other cell is as before, and the board holds as many
   * tiles as before.
   */
  lemma {:induction false} MovedBoard(b: Entries<Tile>, fromRow: int, fromCol: int, toRow: int, toCol: int, r: int, c: int)
    requires IsBoard(b)
    requires !IsCellEmpty(b, fromRow, fromCol) && IsCellEmpty(b, toRow, toCol)
    ensures var moved := Put(Remove(b, CellKey(fromRow, fromCol)), CellKey(toRow, toCol), TileAt(b, fromRow, fromCol).value);
      && IsBoard(moved)
      && |moved| == |b|
      && TileAt(moved, r, c) ==
        if r == toRow && c == toCol then TileAt(b, fromRow, fromCol)
        else if r == fromRow && c == fromCol then None
        else TileAt(b, r, c)
  {
    var kf := CellKey(fromRow, fromCol);
    var kt := CellKey(toRow, toCol);
    var t := TileAt(b, fromRow, fromCol).value;
    var removed := Remove(b, kf);
    RemoveKeepsBoard(b, kf);
    PutKeepsBoard(removed, toRow, toCol, t);
    RemoveSize(b, kf);
    KeysRemove(b, kf);
    KeysPut(removed, kt, t);
    TileAtAfterPlace(removed, t, toRow, toCol, r, c);
    TileAtAfterRemove(b, fromRow, fromCol, r, c);
  }

  /** The smallest and largest row and column holding a tile. */
  datatype Bounds = Bounds(minRow: int, maxRow: int, minCol: int, maxCol: int)

  predicate Encloses(bd: Bounds, cells: seq<Position>) {
    forall i :: 0 <= i < |cells| ==>
      bd.minRow <= cells[i].row <= bd.maxRow && bd.minCol <= cells[i].col <= bd.maxCol
  }

  /** Each bound is the row or column of some cell. */
  predicate Attained(bd: Bounds, cells: seq<Position>) {
    (exists i :: 0 <= i < |cells| && cells[i].row == bd.minRow) &&
    (exists i :: 0 <= i < |cells| && cells[i].row == bd.maxRow) &&
    (exists i :: 0 <= i < |cells| && cells[i].col == bd.minCol) &&
    (exists i :: 0 <= i < |cells| && cells[i].col == bd.maxCol)
  }

  /** The min/max scan of `getBoardBounds` over a non-empty list of cells. */
  method BoundsOf(positions: seq<Position>) returns (bounds: Bounds)
    requires |positions| > 0
    ensures Encloses(bounds, positions) && Attained(bounds, positions)
  {
    var minRow, maxRow, minCol, maxCol := positions[0].row, positions[0].row, positions[0].col, positions[0].col;
    ghost var iMinRow, iMaxRow, iMinCol, iMaxCol := 0, 0, 0, 0;
    for i := 0 to |positions|
      invariant forall j :: 0 <= j < i ==>
        minRow <= positions[j].row <= maxRow && minCol <= positions[j].col <= maxCol
      invariant 0 <= iMinRow < |positions| && positions[iMinRow].row == minRow
      invariant 0 <= iMaxRow < |positions| && positions[iMaxRow].row == maxRow
      invariant 0 <= iMinCol < |positions| && positions[iMinCol].col == minCol
      invariant 0 <= iMaxCol < |positions| && positions[iMaxCol].col == maxCol
    {
      var pos := positions[i];
      if pos.row < minRow { minRow, iMinRow := pos.row, i; }
      if pos.row > maxRow { maxRow, iMaxRow := pos.row, i; }
      if pos.col < minCol { minCol, iMinCol := pos.col, i; }
      if pos.col > maxCol { maxCol, iMaxCol := pos.col, i; }
    }
    bounds := Bounds(minRow, maxRow, minCol, maxCol);
  }

  /** Every occupied cell is reachable from the first one listed (trivially so for 0 or 1 tiles). */
  ghost predicate Connected(b: Entries<Tile>)
    requires CellKeys(b)
  {
    var cells := OccupiedCells(b);
    |cells| <= 1 || forall p :: p in OccupiedSet(b) ==> Reachable(OccupiedSet(b), cells[0], p)
  }

  /** The search's four steps, as row and column offsets. */
  const Directions: seq<(int, int)> := [(-1, 0), (1, 0), (0, -1), (0, 1)]

  /** The cells holding a tile are exactly `occ`. */
  ghost predicate Occupancy(b: Entries<Tile>, occ: set<Position>) {
    forall p: Position {:trigger TileAt(b, p.row, p.col)} :: TileAt(b, p.row, p.col).Some? <==> p in occ
  }

  lemma {:induction false} BoardOccupancy(b: Entries<Tile>)
    requires IsBoard(b)
    ensures Occupancy(b, OccupiedSet(b))
  {
    forall p: Position ensures TileAt(b, p.row, p.col).Some? <==> p in OccupiedSet(b) {
      OccupiedIff(b, p);
    }
  }

  /**
   * One turn of the search: every neighbour of `current` that holds a tile
   * and is not yet visited is marked visited and queued.
   */
  method VisitNeighbours(b: Entries<Tile>, ghost occ: set<Position>, current: Position, visited: set<Position>, queue: seq<Position>)
    returns (visited': set<Position>, queue': seq<Position>)
    requires Occupancy(b, occ) && visited <= occ
    ensures visited <= visited' <= occ
    ensures NeighboursSeen(occ, visited', current)
    ensures forall p :: p in visited' && p !in visited ==> p in Neighbours(current) && p in Added(queue, queue')
    ensures queue' == queue + Added(queue, queue')
    ensures forall p :: p in Added(queue, queue') ==> p in visited'
    ensures visited' == visited ==> queue' == queue
  {
    visited', queue' := visited, queue;
    ghost var added: seq<Position> := [];
    for d := 0 to 4
      invariant visited <= visited' <= occ
      invariant forall e :: 0 <= e < d && Neighbours(current)[e] in occ ==> Neighbours(current)[e] in visited'
      invariant queue' == queue + added
      invariant forall p :: p in visited' && p !in visited ==> p in Neighbours(current) && p in added
      invariant forall p :: p in added ==> p in visited'
      invariant visited' == visited ==> added == []
    {
      var next := Position(current.row + Directions[d].0, current.col + Directions[d].1);
      assert next == Neighbours(current)[d];
      if next !in visited' && TileAt(b, next.row, next.col).Some? {
        visited' := visited' + {next};
        queue' := queue' + [next];
        added := added + [next];
      }
    }
    assert Added(queue, queue') == added;
  }

  /** What a turn appended to the queue. */
  function Added(queue: seq<Position>, queue': seq<Position>): seq<Position> {
    if |queue| <= |queue'| then queue'[|queue|..] else []
  }

  /** What the search knows after visiting `visited` with `queue` still to expand. */
  ghost predicate SearchInvariant(occ: set<Position>, start: Position, visited: set<Position>, queue: seq<Position>) {
    visited <= occ && start in visited &&
    (forall p :: p in queue ==> p in visited) &&
    (forall p :: p in visited ==> Reachable(occ, start, p)) &&
    (forall p :: p in visited ==> p in queue || NeighboursSeen(occ, visited, p))
  }

  /** One turn keeps the search invariant and makes progress. */
  lemma {:induction false} SearchStep(occ: set<Position>, start: Position,
                                      before: set<Position>, queueBefore: seq<Position>,
                                      visited: set<Position>, queue: seq<Position>)
    requires SearchInvariant(occ, start, before, queueBefore) && |queueBefore| > 0
    requires before <= visited <= occ
    requires NeighboursSeen(occ, visited, queueBefore[0])
    requires forall p :: p in visited && p !in before ==> p in Neighbours(queueBefore[0]) && p in Added(queueBefore[1..], queue)
    requires queue == queueBefore[1..] + Added(queueBefore[1..], queue)
    requires forall p :: p in Added(queueBefore[1..], queue) ==> p in visited
    requires visited == before ==> queue == queueBefore[1..]
    ensures SearchInvariant(occ, start, visited, queue)
    ensures |occ - visited| < |occ - before| || (visited == before && |queue| < |queueBefore|)
  {
    var current := queueBefore[0];
    forall p | p in visited && p !in before ensures Reachable(occ, start, p) {
      ReachableStep(occ, start, current, p);
    }
    forall p | p in visited && p !in queue ensures NeighboursSeen(occ, visited, p) {
      if p != current {
        assert p in before && p !in queueBefore[1..];
        assert NeighboursSeen(occ, before, p);
      }
    }
    if visited != before {
      SubsetSmaller(occ - visited, occ - before);
    }
  }

  /**
   * The search loop of `isConnected`: starting from an occupied cell, it
   * visits exactly the occupied cells reachable from it.
   */
  method Search(b: Entries<Tile>, ghost occ: set<Position>, start: Position) returns (visited: set<Position>)
    requires Occupancy(b, occ) && start in occ
    ensures visited <= occ
    ensures forall p :: p in occ ==> (p in visited <==> Reachable(occ, start, p))
  {
    visited := {start};
    var queue := [start];
    ReachableFromItself(occ, start);
    while |queue| > 0
      invariant SearchInvariant(occ, start, visited, queue)
      decreases |occ - visited|, |queue|
    {
      var current := queue[0];
      ghost var before, queueBefore := visited, queue;
      visited, queue := VisitNeighbours(b, occ, current, visited, queue[1..]);
      SearchStep(occ, start, before, queueBefore, visited, queue);
    }
    forall p | p in occ && Reachable(occ, start, p) ensures p in visited {
      ClosedHoldsReachable(occ, visited, start, p);
    }
  }

  /** Comparing the number visited with the number of tiles decides connectivity. */
  lemma {:induction false} SearchDecides(b: Entries<Tile>, visited: set<Position>)
    requires IsBoard(b) && |b| > 1
    requires visited <= OccupiedSet(b)
    requires forall p :: p in OccupiedSet(b) ==> (p in visited <==> Reachable(OccupiedSet(b), OccupiedCells(b)[0], p))
    ensures |visited| == |OccupiedCells(b)| <==> Connected(b)
  {
    var occ := OccupiedSet(b);
    OccupiedCellsDistinct(b);
    DistinctElements(OccupiedCells(b));
    if Connected(b) {
      assert visited == occ;
    } else {
      var p :| p in occ && !Reachable(occ, OccupiedCells(b)[0], p);
      SubsetSmaller(visited, occ);
    }
  }

  class Board {
    const boardSize: int
    var board: Entries<Tile>

    predicate Valid()
      reads this
    {
      IsBoard(board)
    }

    constructor()
      ensures Valid() && board == [] && boardSize == 40
    {
      boardSize := 40;
      board := [];
    }

    /** `placeTile`: the cell's key now maps to `tile`, overwriting any tile there. */
    method PlaceTile(tile: Tile, row: int, col: int)
      requires Valid()
      modifies this
      ensures Valid()
      ensures board == Put(old(board), CellKey(row, col), tile)
    {
      PutKeepsBoard(board, row, col, tile);
      board := Put(board, CellKey(row, col), tile);
    }

    /** `removeTile`: returns the tile that was at the cell and deletes its key. */
    method RemoveTile(row: int, col: int) returns (tile: Option<Tile>)
      requires Valid()
      modifies this
      ensures Valid()
      ensures tile == TileAt(old(board), row, col)
      ensures board == Remove(old(board), CellKey(row, col))
    {
      var key := CellKey(row, col);
      tile := Get(board, key);
      if tile.Some? {
        RemoveKeepsBoard(board, key);
        board := Remove(board, key);
      } else {
        RemoveAbsent(board, key);
      }
    }

    /** `moveTile`: moves only from an occupied cell to an empty one. */
    method MoveTile(fromRow: int, fromCol: int, toRow: int, toCol: int) returns (moved: bool)
      requires Valid()
      modifies this
      ensures Valid()
      ensures moved <==> !IsCellEmpty(old(board), fromRow, fromCol) && IsCellEmpty(old(board), toRow, toCol)
      ensures moved ==> board == Put(Remove(old(board), CellKey(fromRow, fromCol)), CellKey(toRow, toCol),
                                     TileAt(old(board), fromRow, fromCol).value)
      ensures !moved ==> board == old(board)
    {
      var tile := TileAt(board, fromRow, fromCol);
      if tile.None? || TileAt(board, toRow, toCol).Some? {
        return false;
      }
      var _ := RemoveTile(fromRow, fromCol);
      PlaceTile(tile.value, toRow, toCol);
      return true;
    }

    /** `clearBoard`. */
    method ClearBoard()
      modifies this
      ensures Valid() && board == [] && OccupiedCells(board) == []
    {
      board := [];
    }

    /**
     * `getBoardBounds`: nothing for an empty board; otherwise bounds that
     * enclose every occupied cell, each attained by some cell.
     */
    method GetBoardBounds() returns (bounds: Option<Bounds>)
      requires Valid()
      ensures bounds.None? <==> |board| == 0
      ensures bounds.Some? ==> Encloses(bounds.value, OccupiedCells(board)) && Attained(bounds.value, OccupiedCells(board))
    {
      var positions := OccupiedCells(board);
      if |positions| == 0 {
        return None;
      }
      var b := BoundsOf(positions);
      return Some(b);
    }

    /**
     * `isConnected`: a breadth-first search from the first occupied cell
     * over occupied neighbours; true when it visits every occupied cell.
     */
    method IsConnected() returns (connected: bool)
      requires Valid()
      ensures connected == Connected(board)
    {
      var occupied := OccupiedCells(board);
      if |occupied| == 0 {
        return true;
      }
      if |occupied| == 1 {
        return true;
      }
      ghost var occ := OccupiedSet(board);
      BoardOccupancy(board);
      var visited := Search(board, occ, occupied[0]);
      connected := |visited| == |occupied|;
      SearchDecides(board, visited);
    }
  }
}
