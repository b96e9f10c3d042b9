/**
 * Dropping dragged tiles on the board or back on the bench. A drop on a
 * cell first plans a move for every tile being dragged (the whole
 * selection when the dragged tile is selected) and cancels the drop
 * outright if any move would leave the board or land on another tile;
 * only then are the moves carried out and the selection cleared.
 */
module DragDrop {
  import opened Wrappers
  import opened Seqs
  import opened OrderedMaps
  import opened Grid
  import opened Types
  import opened BoardStore
  import PlayerStore

  /** `playerStore.tiles.find(t => t.id === tileId)`. */
  function FindInHand(tiles: seq<Tile>, id: string): (r: Option<Tile>)
    ensures r.Some? ==> r.value in tiles && r.value.id == id
    ensures r.Some? ==> exists i :: 0 <= i < |tiles| && tiles[i] == r.value && forall j :: 0 <= j < i ==> tiles[j].id != id
    ensures r.None? <==> forall t :: t in tiles ==> t.id != id
    decreases |tiles|
  {
    if |tiles| == 0 then None
    else if tiles[0].id == id then Some(tiles[0])
    else FindInHand(tiles[1..], id)
  }

  /** The position of the first board entry holding a tile with the id, or `|b|`. */
  function FindOnBoard(b: Entries<Tile>, id: string): (k: nat)
    ensures k <= |b|
    ensures k < |b| ==> b[k].1.id == id
    ensures forall j :: 0 <= j < k ==> b[j].1.id != id
    decreases |b|
  {
    if |b| == 0 then 0
    else if b[0].1.id == id then 0
    else 1 + FindOnBoard(b[1..], id)
  }

  /** `findTileById`: the hand first, then the board. */
  function FindTileById(tiles: seq<Tile>, b: Entries<Tile>, id: string): (r: Option<Tile>)
    ensures r.Some? ==> r.value.id == id
    ensures (exists t :: t in tiles && t.id == id) ==> r.Some? && r.value in tiles
    ensures r.None? <==> (forall t :: t in tiles ==> t.id != id) && (forall i :: 0 <= i < |b| ==> b[i].1.id != id)
    ensures (exists t :: t in tiles && t.id == id) ==> r == FindInHand(tiles, id)
    ensures (forall t :: t in tiles ==> t.id != id) && FindOnBoard(b, id) < |b| ==> r == Some(b[FindOnBoard(b, id)].1)
  {
    match FindInHand(tiles, id)
    case Some(t) => Some(t)
    case None =>
      var k := FindOnBoard(b, id);
      if k < |b| then Some(b[k].1) else None
  }

  /** `findTilePosition`: the cell of the first board entry holding a tile with the id. */
  function FindTilePosition(b: Entries<Tile>, id: string): (r: Option<Position>)
    requires IsBoard(b)
    ensures r.Some? ==> TileAt(b, r.value.row, r.value.col).Some? && TileAt(b, r.value.row, r.value.col).value.id == id
    ensures r.None? <==> forall i :: 0 <= i < |b| ==> b[i].1.id != id
  {
    var k := FindOnBoard(b, id);
    if k < |b| then
      GetAt(b, k);
      Some(AllTiles(b)[k].position)
    else None
  }

  /** `selectedTiles.map(id => findTileById(id)).filter(Boolean)`. */
  function FoundTiles(tiles: seq<Tile>, b: Entries<Tile>, ids: seq<string>): (r: seq<Tile>)
    ensures |r| <= |ids|
    decreases |ids|
  {
    if |ids| == 0 then []
    else
      var rest := FoundTiles(tiles, b, ids[1..]);
      match FindTileById(tiles, b, ids[0])
      case Some(t) => [t] + rest
      case None => rest
  }

  /** A tile is found for the selection exactly when it is what `findTileById` gives for a selected id. */
  lemma {:induction false} FoundTilesExactly(tiles: seq<Tile>, b: Entries<Tile>, ids: seq<string>, t: Tile)
    ensures t in FoundTiles(tiles, b, ids) <==> exists i :: 0 <= i < |ids| && FindTileById(tiles, b, ids[i]) == Some(t)
    decreases |ids|
  {
    if |ids| > 0 {
      FoundTilesExactly(tiles, b, ids[1..], t);
      if exists i :: 0 <= i < |ids| && FindTileById(tiles, b, ids[i]) == Some(t) {
        var i :| 0 <= i < |ids| && FindTileById(tiles, b, ids[i]) == Some(t);
        if i > 0 {
          assert ids[1..][i - 1] == ids[i];
        }
      }
      if exists i :: 0 <= i < |ids[1..]| && FindTileById(tiles, b, ids[1..][i]) == Some(t) {
        var i :| 0 <= i < |ids[1..]| && FindTileById(tiles, b, ids[1..][i]) == Some(t);
        assert ids[i + 1] == ids[1..][i];
      }
    }
  }

  /** The tiles a drop moves: the whole selection when the dragged tile is selected, else that tile alone. */
  function TilesToMove(tiles: seq<Tile>, selected: seq<string>, b: Entries<Tile>, drag: DragData, dragged: Tile): (r: seq<Tile>)
    ensures drag.tileId !in selected ==> r == [dragged]
    ensures drag.tileId in selected ==> r == FoundTiles(tiles, b, selected)
  {
    if |selected| > 0 && drag.tileId in selected then FoundTiles(tiles, b, selected) else [dragged]
  }

  /** The shift of a drop: from the source cell to the target, or none without a source cell. */
  function Offset(drag: DragData, targetRow: int, targetCol: int): (d: (int, int))
    ensures drag.sourceRow.Some? && drag.sourceCol.Some? ==>
      drag.sourceRow.value + d.0 == targetRow && drag.sourceCol.value + d.1 == targetCol
    ensures !(drag.sourceRow.Some? && drag.sourceCol.Some?) ==> d == (0, 0)
  {
    if drag.sourceRow.Some? && drag.sourceCol.Some? then
      (targetRow - drag.sourceRow.value, targetCol - drag.sourceCol.value)
    else (0, 0)
  }

  /** A planned move: from a cell (board to board) or from the bench, to a cell. */
  datatype Move = Move(tile: Tile, from: Option<Position>, to: Position)

  /** The check of one tile: the drop is cancelled, the tile is passed over, or it gets a move. */
  datatype Step = Cancel | Skip | Go(move: Move)

  predicate InsideBoard(p: Position, boardSize: int) {
    0 <= p.row < boardSize && 0 <= p.col < boardSize
  }

  /** A cell a tile may not move to: outside the board, or holding another tile. */
  predicate Blocked(b: Entries<Tile>, boardSize: int, tile: Tile, to: Position) {
    !InsideBoard(to, boardSize) || (TileAt(b, to.row, to.col).Some? && TileAt(b, to.row, to.col).value.id != tile.id)
  }

  /**
   * The check of one tile. A tile on the board moves by the offset, but
   * only to a cell inside the board that is empty or holds that same
   * tile; a tile off the board moves to the target cell when dragged from
   * the bench, and then only alone; any other tile is passed over.
   */
  function StepFor(b: Entries<Tile>, boardSize: int, tile: Tile, tilePos: Option<Position>, dr: int, dc: int,
                   target: Position, sourceBench: bool, count: int): Step
  {
    match tilePos
    case Some(pos) =>
      var to := Position(pos.row + dr, pos.col + dc);
      if Blocked(b, boardSize, tile, to) then Cancel else Go(Move(tile, Some(pos), to))
    case None =>
      if !sourceBench then Skip
      else if count > 1 then Cancel
      else Go(Move(tile, None, target))
  }

  /**
   * A board move planned for a tile found on a cell starts from that cell
   * and ends, shifted by the offset, inside the board on a cell that is
   * empty or holds that same tile; a bench move goes to the target cell,
   * for a tile dragged alone from the bench and found on no cell.
   */
  lemma {:induction false} StepGo(b: Entries<Tile>, boardSize: int, tile: Tile, tilePos: Option<Position>, dr: int, dc: int,
                                  target: Position, sourceBench: bool, count: int, m: Move)
    requires StepFor(b, boardSize, tile, tilePos, dr, dc, target, sourceBench, count) == Go(m)
    ensures m.tile == tile
    ensures m.from.Some? ==>
      && tilePos == m.from
      && m.to == Position(m.from.value.row + dr, m.from.value.col + dc)
      && InsideBoard(m.to, boardSize)
      && (TileAt(b, m.to.row, m.to.col).None? || TileAt(b, m.to.row, m.to.col).value.id == tile.id)
    ensures m.from.None? ==> m.to == target && sourceBench && count <= 1 && tilePos.None?
  {
  }

  /** The check of each tile, in order. */
  function Steps(b: Entries<Tile>, boardSize: int, tiles: seq<Tile>, dr: int, dc: int, target: Position,
                 sourceBench: bool, count: int): (steps: seq<Step>)
    requires IsBoard(b)
    ensures |steps| == |tiles|
    ensures forall i :: 0 <= i < |tiles| ==>
      steps[i] == StepFor(b, boardSize, tiles[i], FindTilePosition(b, tiles[i].id), dr, dc, target, sourceBench, count)
  {
    seq(|tiles|, i requires 0 <= i < |tiles| =>
      StepFor(b, boardSize, tiles[i], FindTilePosition(b, tiles[i].id), dr, dc, target, sourceBench, count))
  }

  /** The moves of some checks, in order, or nothing when one of them cancels. */
  function Gather(steps: seq<Step>): Option<seq<Move>>
    decreases |steps|
  {
    if |steps| == 0 then Some([])
    else
      var n := |steps| - 1;
      match Gather(steps[..n])
      case None => None
      case Some(ms) =>
        match steps[n]
        case Cancel => None
        case Skip => Some(ms)
        case Go(m) => Some(ms + [m])
  }

  /** The moves planned for some tiles, or nothing when one of them cancels the drop. */
  function Plan(b: Entries<Tile>, boardSize: int, tiles: seq<Tile>, dr: int, dc: int, target: Position,
                sourceBench: bool, count: int): Option<seq<Move>>
    requires IsBoard(b)
  {
    Gather(Steps(b, boardSize, tiles, dr, dc, target, sourceBench, count))
  }

  /** Gathering one more check. */
  lemma GatherNext(steps: seq<Step>, i: nat, ms: seq<Move>)
    requires i < |steps| && Gather(steps[..i]) == Some(ms)
    ensures Gather(steps[..i + 1]) ==
      match steps[i]
      case Cancel => None
      case Skip => Some(ms)
      case Go(m) => Some(ms + [m])
  {
    TakeTake(steps, i, i + 1);
  }

  /** Gathering fails exactly when some check cancels. */
  lemma {:induction false} GatherCancelled(steps: seq<Step>)
    ensures Gather(steps).None? <==> exists i :: 0 <= i < |steps| && steps[i].Cancel?
    decreases |steps|
  {
    if |steps| > 0 {
      var n := |steps| - 1;
      var init := steps[..n];
      GatherCancelled(init);
      if exists i :: 0 <= i < |init| && init[i].Cancel? {
        var i :| 0 <= i < |init| && init[i].Cancel?;
        assert steps[i] == init[i];
      }
      if exists i :: 0 <= i < |steps| && steps[i].Cancel? {
        var i :| 0 <= i < |steps| && steps[i].Cancel?;
        if i < n {
          assert init[i] == steps[i];
        }
      }
    }
  }

  /** A gathered plan holds exactly the moves of the checks that give one. */
  lemma {:induction false} GatherExactly(steps: seq<Step>, m: Move)
    requires Gather(steps).Some?
    ensures m in Gather(steps).value <==> exists i :: 0 <= i < |steps| && steps[i] == Go(m)
    decreases |steps|
  {
    if |steps| > 0 {
      var n := |steps| - 1;
      var init := steps[..n];
      GatherExactly(init, m);
      if exists i :: 0 <= i < |init| && init[i] == Go(m) {
        var i :| 0 <= i < |init| && init[i] == Go(m);
        assert steps[i] == init[i];
      }
      if exists i :: 0 <= i < |steps| && steps[i] == Go(m) {
        var i :| 0 <= i < |steps| && steps[i] == Go(m);
        if i < n {
          assert init[i] == steps[i];
        }
      }
    }
  }

  /** The plan is cancelled exactly when the check of some tile cancels it. */
  lemma {:induction false} PlanCancelled(b: Entries<Tile>, boardSize: int, tiles: seq<Tile>, dr: int, dc: int,
                                         target: Position, sourceBench: bool, count: int)
    requires IsBoard(b)
    ensures Plan(b, boardSize, tiles, dr, dc, target, sourceBench, count).None? <==>
      exists i :: 0 <= i < |tiles| &&
        StepFor(b, boardSize, tiles[i], FindTilePosition(b, tiles[i].id), dr, dc, target, sourceBench, count).Cancel?
  {
    GatherCancelled(Steps(b, boardSize, tiles, dr, dc, target, sourceBench, count));
  }

  /** A plan holds exactly the moves the checks of the tiles give. */
  lemma {:induction false} PlanMovesExactly(b: Entries<Tile>, boardSize: int, tiles: seq<Tile>, dr: int, dc: int,
                                            target: Position, sourceBench: bool, count: int, m: Move)
    requires IsBoard(b)
    requires Plan(b, boardSize, tiles, dr, dc, target, sourceBench, count).Some?
    ensures m in Plan(b, boardSize, tiles, dr, dc, target, sourceBench, count).value <==>
      exists i :: 0 <= i < |tiles| &&
        StepFor(b, boardSize, tiles[i], FindTilePosition(b, tiles[i].id), dr, dc, target, sourceBench, count) == Go(m)
  {
    GatherExactly(Steps(b, boardSize, tiles, dr, dc, target, sourceBench, count), m);
  }

  /** The validation loop of `handleCellDrop`, returning early on the first tile that cancels. */
  method PlanMoves(b: Entries<Tile>, boardSize: int, tilesToMove: seq<Tile>, rowOffset: int, colOffset: int,
                   target: Position, sourceBench: bool) returns (moves: Option<seq<Move>>)
    requires IsBoard(b)
    ensures moves == Plan(b, boardSize, tilesToMove, rowOffset, colOffset, target, sourceBench, |tilesToMove|)
  {
    var count := |tilesToMove|;
    ghost var steps := Steps(b, boardSize, tilesToMove, rowOffset, colOffset, target, sourceBench, count);
    var planned: seq<Move> := [];
    for i := 0 to |tilesToMove|
      invariant Gather(steps[..i]) == Some(planned)
    {
      var tile := tilesToMove[i];
      var tilePos := FindTilePosition(b, tile.id);
      var step := StepFor(b, boardSize, tile, tilePos, rowOffset, colOffset, target, sourceBench, count);
      assert step == steps[i];
      GatherNext(steps, i, planned);
      if step.Cancel? {
        GatherCancelled(steps);
        return None;
      }
      if step.Go? {
        planned := planned + [step.move];
      }
    }
    TakeAll(steps);
    return Some(planned);
  }

  /** What a drop on a cell plans, or nothing when it changes nothing. */
  function DropPlan(tiles: seq<Tile>, selected: seq<string>, b: Entries<Tile>, boardSize: int,
                    drag: Option<DragData>, targetRow: int, targetCol: int): Option<seq<Move>>
    requires IsBoard(b)
  {
    if drag.None? then None
    else
      match FindTileById(tiles, b, drag.value.tileId)
      case None => None
      case Some(dragged) =>
        var toMove := TilesToMove(tiles, selected, b, drag.value, dragged);
        var d := Offset(drag.value, targetRow, targetCol);
        Plan(b, boardSize, toMove, d.0, d.1, Position(targetRow, targetCol), drag.value.sourceBench, |toMove|)
  }

  /** A drop whose dragged tile is found plans the moves of the tiles it moves, shifted by its offset. */
  lemma DropPlanUnfold(tiles: seq<Tile>, selected: seq<string>, b: Entries<Tile>, boardSize: int,
                       drag: DragData, targetRow: int, targetCol: int, dragged: Tile)
    requires IsBoard(b)
    requires FindTileById(tiles, b, drag.tileId) == Some(dragged)
    ensures var toMove := TilesToMove(tiles, selected, b, drag, dragged);
      var d := Offset(drag, targetRow, targetCol);
      DropPlan(tiles, selected, b, boardSize, Some(drag), targetRow, targetCol) ==
      Plan(b, boardSize, toMove, d.0, d.1, Position(targetRow, targetCol), drag.sourceBench, |toMove|)
  {
  }

  /**
   * Every move of an accepted drop is safe: a board move takes a tile from
   * the cell holding it, shifted by the drop's offset, to a cell inside the
   * board that is empty or holds that same tile; a bench move takes the
   * dragged tile from the bench to the target cell.
   */
  lemma {:induction false} DropPlanSafe(tiles: seq<Tile>, selected: seq<string>, b: Entries<Tile>, boardSize: int,
                                        drag: DragData, targetRow: int, targetCol: int, moves: seq<Move>, m: Move)
    requires IsBoard(b)
    requires DropPlan(tiles, selected, b, boardSize, Some(drag), targetRow, targetCol) == Some(moves)
    requires m in moves
    ensures m.from.Some? ==>
      var from := m.from.value;
      && TileAt(b, from.row, from.col).Some? && TileAt(b, from.row, from.col).value.id == m.tile.id
      && InsideBoard(m.to, boardSize)
      && (TileAt(b, m.to.row, m.to.col).None? || TileAt(b, m.to.row, m.to.col).value.id == m.tile.id)
      && (drag.sourceRow.Some? && drag.sourceCol.Some? ==>
            m.to.row - from.row == targetRow - drag.sourceRow.value && m.to.col - from.col == targetCol - drag.sourceCol.value)
      && (!(drag.sourceRow.Some? && drag.sourceCol.Some?) ==> m.to == from)
    ensures m.from.None? ==> m.to == Position(targetRow, targetCol) && drag.sourceBench
  {
    assert FindTileById(tiles, b, drag.tileId).Some?;
    var dragged := FindTileById(tiles, b, drag.tileId).value;
    DropPlanUnfold(tiles, selected, b, boardSize, drag, targetRow, targetCol, dragged);
    var toMove := TilesToMove(tiles, selected, b, drag, dragged);
    var d := Offset(drag, targetRow, targetCol);
    PlannedMoveSafe(b, boardSize, toMove, d.0, d.1, Position(targetRow, targetCol), drag.sourceBench, |toMove|, m);
  }


  /** Every move of a plan is safe, in terms of the plan's own offset and target. */
  lemma {:induction false} PlannedMoveSafe(b: Entries<Tile>, boardSize: int, tiles: seq<Tile>, dr: int, dc: int,
                                           target: Position, sourceBench: bool, count: int, m: Move)
    requires IsBoard(b)
    requires Plan(b, boardSize, tiles, dr, dc, target, sourceBench, count).Some?
    requires m in Plan(b, boardSize, tiles, dr, dc, target, sourceBench, count).value
    ensures m.from.Some? ==>
      var from := m.from.value;
      && TileAt(b, from.row, from.col).Some? && TileAt(b, from.row, from.col).value.id == m.tile.id
      && m.to == Position(from.row + dr, from.col + dc)
      && InsideBoard(m.to, boardSize)
      && (TileAt(b, m.to.row, m.to.col).None? || TileAt(b, m.to.row, m.to.col).value.id == m.tile.id)
    ensures m.from.None? ==> m.to == target && sourceBench
  {
    PlanMovesExactly(b, boardSize, tiles, dr, dc, target, sourceBench, count, m);
    var i :| 0 <= i < |tiles| &&
      StepFor(b, boardSize, tiles[i], FindTilePosition(b, tiles[i].id), dr, dc, target, sourceBench, count) == Go(m);
    StepGo(b, boardSize, tiles[i], FindTilePosition(b, tiles[i].id), dr, dc, target, sourceBench, count, m);
  }

  /** One move carried out on the board and the hand. */
  function ApplyMove(b: Entries<Tile>, hand: seq<Tile>, m: Move): (Entries<Tile>, seq<Tile>) {
    match m.from
    case Some(from) =>
      if !IsCellEmpty(b, from.row, from.col) && IsCellEmpty(b, m.to.row, m.to.col) then
        (Put(Remove(b, CellKey(from.row, from.col)), CellKey(m.to.row, m.to.col), TileAt(b, from.row, from.col).value), hand)
      else (b, hand)
    case None =>
      (Put(b, CellKey(m.to.row, m.to.col), m.tile), PlayerStore.MarkOnBoard(hand, m.tile.id, true))
  }

  /** Moves carried out in order. */
  function ApplyMoves(b: Entries<Tile>, hand: seq<Tile>, moves: seq<Move>): (Entries<Tile>, seq<Tile>)
    decreases |moves|
  {
    if |moves| == 0 then (b, hand)
    else
      var prev := ApplyMoves(b, hand, moves[..|moves| - 1]);
      ApplyMove(prev.0, prev.1, moves[|moves| - 1])
  }

  /** Carrying out moves keeps the board a board. */
  lemma {:induction false} ApplyMovesKeepsBoard(b: Entries<Tile>, hand: seq<Tile>, moves: seq<Move>)
    requires IsBoard(b)
    ensures IsBoard(ApplyMoves(b, hand, moves).0)
    decreases |moves|
  {
    if |moves| > 0 {
      var prev := ApplyMoves(b, hand, moves[..|moves| - 1]);
      var m := moves[|moves| - 1];
      ApplyMovesKeepsBoard(b, hand, moves[..|moves| - 1]);
      match m.from
      case Some(from) =>
        if !IsCellEmpty(prev.0, from.row, from.col) && IsCellEmpty(prev.0, m.to.row, m.to.col) {
          MovedBoard(prev.0, from.row, from.col, m.to.row, m.to.col, 0, 0);
        }
      case None =>
        PutKeepsBoard(prev.0, m.to.row, m.to.col, m.tile);
    }
  }

  /**
   * A planned board move onto an empty cell carries the tile there and
   * empties its old cell, leaving every other cell and the number of
   * tiles as they were; onto the cell of that same tile it changes
   * nothing.
   */
  lemma {:induction false} BoardMoveShifts(b: Entries<Tile>, hand: seq<Tile>, boardSize: int, tile: Tile, dr: int, dc: int,
                                           target: Position, sourceBench: bool, count: int, r: int, c: int)
    requires IsBoard(b)
    requires var s := StepFor(b, boardSize, tile, FindTilePosition(b, tile.id), dr, dc, target, sourceBench, count);
      s.Go? && s.move.from.Some?
    ensures var m := StepFor(b, boardSize, tile, FindTilePosition(b, tile.id), dr, dc, target, sourceBench, count).move;
      var after := ApplyMove(b, hand, m);
      var from := m.from.value;
      after.1 == hand
      && (IsCellEmpty(b, m.to.row, m.to.col) ==>
            |after.0| == |b|
            && TileAt(after.0, r, c) ==
              if r == m.to.row && c == m.to.col then TileAt(b, from.row, from.col)
              else if r == from.row && c == from.col then None
              else TileAt(b, r, c))
      && (!IsCellEmpty(b, m.to.row, m.to.col) ==> after.0 == b)
  {
    var m := StepFor(b, boardSize, tile, FindTilePosition(b, tile.id), dr, dc, target, sourceBench, count).move;
    var from := m.from.value;
    if IsCellEmpty(b, m.to.row, m.to.col) {
      MovedBoard(b, from.row, from.col, m.to.row, m.to.col, r, c);
    }
  }

  /** A move from the bench puts the tile on the target cell, every other cell unchanged, and marks it on the board in the hand. */
  lemma {:induction false} BenchMovePlaces(b: Entries<Tile>, hand: seq<Tile>, tile: Tile, to: Position, r: int, c: int)
    ensures var after := ApplyMove(b, hand, Move(tile, None, to));
      && TileAt(after.0, r, c) == (if r == to.row && c == to.col then Some(tile) else TileAt(b, r, c))
      && after.1 == PlayerStore.MarkOnBoard(hand, tile.id, true)
  {
    TileAtAfterPlace(b, tile, to.row, to.col, r, c);
  }

  /** The execution loop of `handleCellDrop`. */
  method ExecuteMoves(board: Board, player: PlayerStore.Player, moves: seq<Move>)
    requires board.Valid()
    modifies board, player
    ensures board.Valid()
    ensures (board.board, player.tiles) == ApplyMoves(old(board.board), old(player.tiles), moves)
    ensures player.selected == old(player.selected)
    ensures player.playerName == old(player.playerName) && player.playerId == old(player.playerId)
  {
    for i := 0 to |moves|
      invariant board.Valid()
      invariant (board.board, player.tiles) == ApplyMoves(old(board.board), old(player.tiles), moves[..i])
      invariant player.selected == old(player.selected)
      invariant player.playerName == old(player.playerName) && player.playerId == old(player.playerId)
    {
      var move := moves[i];
      TakeTake(moves, i, i + 1);
      if move.from.Some? {
        var _ := board.MoveTile(move.from.value.row, move.from.value.col, move.to.row, move.to.col);
      } else {
        player.MarkTileOnBoard(move.tile.id, true);
        board.PlaceTile(move.tile, move.to.row, move.to.col);
      }
    }
    TakeAll(moves);
  }

  /** A drop without drag data, or whose dragged tile is nowhere, plans nothing. */
  lemma DropPlanNone(tiles: seq<Tile>, selected: seq<string>, b: Entries<Tile>, boardSize: int,
                     dragData: Option<DragData>, targetRow: int, targetCol: int)
    requires IsBoard(b)
    requires dragData.None? || FindTileById(tiles, b, dragData.value.tileId).None?
    ensures DropPlan(tiles, selected, b, boardSize, dragData, targetRow, targetCol).None?
  {
  }

  /** The part of `handleCellDrop` before any store changes: finding the tiles and planning their moves. */
  method PrepareDrop(tiles: seq<Tile>, selected: seq<string>, b: Entries<Tile>, boardSize: int,
                     dragData: Option<DragData>, targetRow: int, targetCol: int) returns (moves: Option<seq<Move>>)
    requires IsBoard(b)
    ensures moves == DropPlan(tiles, selected, b, boardSize, dragData, targetRow, targetCol)
  {
    if dragData.None? {
      DropPlanNone(tiles, selected, b, boardSize, dragData, targetRow, targetCol);
      return None;
    }
    var drag := dragData.value;
    assert dragData == Some(drag);
    var draggedTile := FindTileById(tiles, b, drag.tileId);
    if draggedTile.None? {
      DropPlanNone(tiles, selected, b, boardSize, dragData, targetRow, targetCol);
      return None;
    }
    var tilesToMove := TilesToMove(tiles, selected, b, drag, draggedTile.value);
    var rowOffset, colOffset := 0, 0;
    if drag.sourceRow.Some? && drag.sourceCol.Some? {
      rowOffset := targetRow - drag.sourceRow.value;
      colOffset := targetCol - drag.sourceCol.value;
    }
    assert rowOffset == Offset(drag, targetRow, targetCol).0;
    assert colOffset == Offset(drag, targetRow, targetCol).1;
    DropPlanUnfold(tiles, selected, b, boardSize, drag, targetRow, targetCol, draggedTile.value);
    moves := PlanMoves(b, boardSize, tilesToMove, rowOffset, colOffset, Position(targetRow, targetCol), drag.sourceBench);
  }

  /**
   * `handleCellDrop`: with no drag, no dragged tile, or a cancelled plan,
   * nothing changes (the selection included); otherwise every planned
   * move is carried out in order and the selection is cleared.
   */
  method HandleCellDrop(board: Board, player: PlayerStore.Player, dragData: Option<DragData>, targetRow: int, targetCol: int)
    requires board.Valid() && player.Valid()
    modifies board, player
    ensures board.Valid() && player.Valid()
    ensures var plan := DropPlan(old(player.tiles), old(player.selected), old(board.board), board.boardSize,
                                 dragData, targetRow, targetCol);
      if plan.None? then
        board.board == old(board.board) && player.tiles == old(player.tiles) && player.selected == old(player.selected)
      else
        (board.board, player.tiles) == ApplyMoves(old(board.board), old(player.tiles), plan.value)
        && player.selected == []
    ensures player.playerName == old(player.playerName) && player.playerId == old(player.playerId)
  {
    var moves := PrepareDrop(player.tiles, player.selected, board.board, board.boardSize, dragData, targetRow, targetCol);
    if moves.None? {
      return;
    }
    ExecuteMoves(board, player, moves.value);
    player.ClearSelection();
  }

  /**
   * `handleBenchDrop`: a drag from the bench, or of a tile found nowhere,
   * changes nothing. Otherwise, when the drag came from a cell, that cell
   * is emptied and the tile it held is marked off the board in the hand;
   * in every such case the selection is cleared.
   */
  method HandleBenchDrop(board: Board, player: PlayerStore.Player, dragData: Option<DragData>)
    requires board.Valid() && player.Valid()
    modifies board, player
    ensures board.Valid() && player.Valid()
    ensures var ignored := dragData.None? || dragData.value.sourceBench
                           || FindTileById(old(player.tiles), old(board.board), dragData.value.tileId).None?;
      && (ignored ==>
            board.board == old(board.board) && player.tiles == old(player.tiles) && player.selected == old(player.selected))
      && (!ignored ==> player.selected == [])
      && (!ignored && dragData.value.sourceRow.Some? && dragData.value.sourceCol.Some? ==>
            var row, col := dragData.value.sourceRow.value, dragData.value.sourceCol.value;
            var held := TileAt(old(board.board), row, col);
            && board.board == Remove(old(board.board), CellKey(row, col))
            && player.tiles == if held.Some? then PlayerStore.MarkOnBoard(old(player.tiles), held.value.id, false)
                               else old(player.tiles))
      && (!ignored && !(dragData.value.sourceRow.Some? && dragData.value.sourceCol.Some?) ==>
            board.board == old(board.board) && player.tiles == old(player.tiles))
    ensures player.playerName == old(player.playerName) && player.playerId == old(player.playerId)
  {
    if dragData.None? || dragData.value.sourceBench {
      return;
    }
    var drag := dragData.value;
    var draggedTile := FindTileById(player.tiles, board.board, drag.tileId);
    if draggedTile.None? {
      return;
    }
    if drag.sourceRow.Some? && drag.sourceCol.Some? {
      var tile := board.RemoveTile(drag.sourceRow.value, drag.sourceCol.value);
      if tile.Some? {
        player.MarkTileOnBoard(tile.value.id, false);
      }
    }
    player.ClearSelection();
  }
}
