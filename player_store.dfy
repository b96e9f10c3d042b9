/**
 * The client's player store: the player's name and id, the tiles in hand
 * (on the bench or placed on the board), and the set of selected tile ids.
 * The selection is a JavaScript `Set`, kept here as a repeat-free sequence
 * in insertion order.
 */
module PlayerStore {
  import opened Seqs
  import opened Types

  /** The ids of `tiles`, in order. */
  function Ids(tiles: seq<Tile>): (ids: seq<string>)
    ensures |ids| == |tiles| && forall i :: 0 <= i < |tiles| ==> ids[i] == tiles[i].id
  {
    seq(|tiles|, i requires 0 <= i < |tiles| => tiles[i].id)
  }

  function NotOnBoard(t: Tile): bool {
    !t.onBoard
  }

  /** `benchTiles`: the tiles whose `onBoard` flag is not set. */
  function BenchTiles(tiles: seq<Tile>): seq<Tile> {
    Filter(tiles, NotOnBoard)
  }

  /** The bench is exactly the tiles not on the board, in hand order. */
  lemma {:induction false} BenchTilesExactly(tiles: seq<Tile>, t: Tile)
    ensures t in BenchTiles(tiles) <==> t in tiles && !t.onBoard
    ensures IsSubsequence(BenchTiles(tiles), tiles)
  {
    FilterMembers(tiles, NotOnBoard, t);
    FilterIsSubsequence(tiles, NotOnBoard);
  }

  function IdIsNot(id: string): Tile -> bool {
    (t: Tile) => t.id != id
  }

  /** `removeTile`'s filter. */
  function WithoutTile(tiles: seq<Tile>, id: string): seq<Tile> {
    Filter(tiles, IdIsNot(id))
  }

  /** `removeTile` drops every tile with that id and keeps the others, in order. */
  lemma {:induction false} WithoutTileExactly(tiles: seq<Tile>, id: string, t: Tile)
    ensures t in WithoutTile(tiles, id) <==> t in tiles && t.id != id
    ensures IsSubsequence(WithoutTile(tiles, id), tiles)
  {
    FilterMembers(tiles, IdIsNot(id), t);
    FilterIsSubsequence(tiles, IdIsNot(id));
  }

  /** `markTileOnBoard`'s update: the first tile with that id gets the flag. */
  function MarkOnBoard(tiles: seq<Tile>, id: string, onBoard: bool): (r: seq<Tile>)
    ensures |r| == |tiles|
    decreases |tiles|
  {
    if |tiles| == 0 then []
    else if tiles[0].id == id then [tiles[0].(onBoard := onBoard)] + tiles[1..]
    else [tiles[0]] + MarkOnBoard(tiles[1..], id, onBoard)
  }

  /** With no tile holding the id, marking changes nothing. */
  lemma {:induction false} MarkOnBoardAbsent(tiles: seq<Tile>, id: string, onBoard: bool)
    requires id !in Ids(tiles)
    ensures MarkOnBoard(tiles, id, onBoard) == tiles
    decreases |tiles|
  {
    if |tiles| > 0 {
      assert Ids(tiles) == [tiles[0].id] + Ids(tiles[1..]);
      MarkOnBoardAbsent(tiles[1..], id, onBoard);
      assert tiles == [tiles[0]] + tiles[1..];
    }
  }

  /** Marking changes only the first tile holding the id, and only its flag. */
  lemma {:induction false} MarkOnBoardAt(tiles: seq<Tile>, id: string, onBoard: bool, i: nat)
    requires i < |tiles| && tiles[i].id == id
    requires forall j :: 0 <= j < i ==> tiles[j].id != id
    ensures MarkOnBoard(tiles, id, onBoard) == tiles[i := tiles[i].(onBoard := onBoard)]
    decreases i
  {
    var rest := tiles[1..];
    if i > 0 {
      MarkOnBoardAt(rest, id, onBoard, i - 1);
      assert [tiles[0]] + rest[i - 1 := rest[i - 1].(onBoard := onBoard)]
          == tiles[i := tiles[i].(onBoard := onBoard)];
    } else {
      assert [tiles[0].(onBoard := onBoard)] + rest == tiles[0 := tiles[0].(onBoard := onBoard)];
    }
  }

  function IdAbsentFrom(ids: seq<string>): Tile -> bool {
    (t: Tile) => t.id !in ids
  }

  /** `updateTiles`'s addition: the incoming tiles whose id was not held before. */
  function NewTiles(tiles: seq<Tile>, incoming: seq<Tile>): seq<Tile> {
    Filter(incoming, IdAbsentFrom(Ids(tiles)))
  }

  /**
   * `updateTiles` keeps every held tile in place and appends, in incoming
   * order, exactly the incoming tiles whose id was not held.
   */
  lemma {:induction false} UpdateTilesExactly(tiles: seq<Tile>, incoming: seq<Tile>, t: Tile)
    ensures (tiles + NewTiles(tiles, incoming))[..|tiles|] == tiles
    ensures t in NewTiles(tiles, incoming) <==> t in incoming && t.id !in Ids(tiles)
    ensures IsSubsequence(NewTiles(tiles, incoming), incoming)
  {
    FilterMembers(incoming, IdAbsentFrom(Ids(tiles)), t);
    FilterIsSubsequence(incoming, IdAbsentFrom(Ids(tiles)));
    assert (tiles + NewTiles(tiles, incoming))[..|tiles|] == tiles;
  }

  /** `selectedTiles.add(id)`. */
  function Select(selected: seq<string>, id: string): seq<string> {
    if id in selected then selected else selected + [id]
  }

  function IsNot(id: string): string -> bool {
    x => x != id
  }

  /** `selectedTiles.delete(id)`. */
  function Deselect(selected: seq<string>, id: string): seq<string> {
    Filter(selected, IsNot(id))
  }

  /** `toggleTileSelection`'s update. */
  function Toggle(selected: seq<string>, id: string): seq<string> {
    if id in selected then Deselect(selected, id) else Select(selected, id)
  }

  /** Toggling flips the id's membership, keeps every other id's, and keeps the set repeat-free. */
  lemma {:induction false} ToggleFlips(selected: seq<string>, id: string, x: string)
    requires Distinct(selected)
    ensures Distinct(Toggle(selected, id))
    ensures x in Toggle(selected, id) <==> if x == id then id !in selected else x in selected
  {
    FilterMembers(selected, IsNot(id), x);
    if id in selected {
      FilterIsSubsequence(selected, IsNot(id));
      SubsequenceDistinct(Deselect(selected, id), selected);
    } else {
      DistinctAppend(selected, id);
    }
  }

  /** Toggling twice restores the selection as a set. */
  lemma {:induction false} ToggleTwice(selected: seq<string>, id: string)
    requires Distinct(selected)
    ensures Elements(Toggle(Toggle(selected, id), id)) == Elements(selected)
  {
    ToggleFlips(selected, id, id);
    forall x ensures x in Toggle(Toggle(selected, id), id) <==> x in selected {
      ToggleFlips(selected, id, x);
      ToggleFlips(Toggle(selected, id), id, x);
    }
  }

  /** The selection after adding each of `ids` in turn. */
  method SelectEach(selected: seq<string>, ids: seq<string>) returns (chosen: seq<string>)
    requires Distinct(selected)
    ensures Distinct(chosen)
    ensures |selected| <= |chosen| && chosen[..|selected|] == selected
    ensures Elements(chosen) == Elements(selected) + Elements(ids)
  {
    chosen := selected;
    for i := 0 to |ids|
      invariant Distinct(chosen)
      invariant |selected| <= |chosen| && chosen[..|selected|] == selected
      invariant Elements(chosen) == Elements(selected) + Elements(ids[..i])
    {
      SelectStep(chosen, ids[..i], ids[i]);
      assert ids[..i + 1] == ids[..i] + [ids[i]];
      chosen := Select(chosen, ids[i]);
    }
    assert ids[..|ids|] == ids;
  }

  /** One step of `SelectEach`. */
  lemma {:induction false} SelectStep(chosen: seq<string>, done: seq<string>, id: string)
    requires Distinct(chosen)
    ensures Distinct(Select(chosen, id))
    ensures |chosen| <= |Select(chosen, id)| && Select(chosen, id)[..|chosen|] == chosen
    ensures Elements(Select(chosen, id)) == Elements(chosen) + {id}
    ensures Elements(done + [id]) == Elements(done) + {id}
  {
    if id !in chosen {
      DistinctAppend(chosen, id);
    }
  }

  class Player {
    var playerName: string
    var playerId: string
    var tiles: seq<Tile>
    var selected: seq<string>

    predicate Valid()
      reads this
    {
      Distinct(selected)
    }

    constructor()
      ensures Valid()
      ensures playerName == "" && playerId == "" && tiles == [] && selected == []
    {
      playerName, playerId, tiles, selected := "", "", [], [];
    }

    /** `setTiles`: replaces the hand wholesale. */
    method SetTiles(newTiles: seq<Tile>)
      modifies this
      ensures tiles == newTiles
      ensures playerName == old(playerName) && playerId == old(playerId) && selected == old(selected)
    {
      tiles := newTiles;
    }

    /** `addTile`: appends one tile. */
    method AddTile(tile: Tile)
      modifies this
      ensures tiles == old(tiles) + [tile]
      ensures playerName == old(playerName) && playerId == old(playerId) && selected == old(selected)
    {
      tiles := tiles + [tile];
    }

    /** `removeTile`. */
    method RemoveTile(id: string)
      modifies this
      ensures tiles == WithoutTile(old(tiles), id)
      ensures playerName == old(playerName) && playerId == old(playerId) && selected == old(selected)
    {
      tiles := WithoutTile(tiles, id);
    }

    /** `markTileOnBoard`. */
    method MarkTileOnBoard(id: string, onBoard: bool)
      modifies this
      ensures tiles == MarkOnBoard(old(tiles), id, onBoard)
      ensures playerName == old(playerName) && playerId == old(playerId) && selected == old(selected)
    {
      tiles := MarkOnBoard(tiles, id, onBoard);
    }

    /** `updateTiles`. */
    method UpdateTiles(incoming: seq<Tile>)
      modifies this
      ensures tiles == old(tiles) + NewTiles(old(tiles), incoming)
      ensures playerName == old(playerName) && playerId == old(playerId) && selected == old(selected)
    {
      tiles := tiles + NewTiles(tiles, incoming);
    }

    /** `selectTile`. */
    method SelectTile(id: string)
      requires Valid()
      modifies this
      ensures Valid() && selected == Select(old(selected), id)
      ensures playerName == old(playerName) && playerId == old(playerId) && tiles == old(tiles)
    {
      if id !in selected {
        DistinctAppend(selected, id);
      }
      selected := Select(selected, id);
    }

    /** `deselectTile`. */
    method DeselectTile(id: string)
      requires Valid()
      modifies this
      ensures Valid() && selected == Deselect(old(selected), id)
      ensures playerName == old(playerName) && playerId == old(playerId) && tiles == old(tiles)
    {
      FilterIsSubsequence(selected, IsNot(id));
      SubsequenceDistinct(Deselect(selected, id), selected);
      selected := Deselect(selected, id);
    }

    /** `toggleTileSelection`. */
    method ToggleTileSelection(id: string)
      requires Valid()
      modifies this
      ensures Valid() && selected == Toggle(old(selected), id)
      ensures playerName == old(playerName) && playerId == old(playerId) && tiles == old(tiles)
    {
      if IsSelected(id) {
        DeselectTile(id);
      } else {
        SelectTile(id);
      }
    }

    /** `clearSelection`. */
    method ClearSelection()
      modifies this
      ensures Valid() && selected == []
      ensures playerName == old(playerName) && playerId == old(playerId) && tiles == old(tiles)
    {
      selected := [];
    }

    /** `selectAll`: adds every tile's id, keeping the ids already selected first. */
    method SelectAll()
      requires Valid()
      modifies this
      ensures Valid()
      ensures |old(selected)| <= |selected| && selected[..|old(selected)|] == old(selected)
      ensures Elements(selected) == Elements(old(selected)) + Elements(Ids(tiles))
      ensures playerName == old(playerName) && playerId == old(playerId) && tiles == old(tiles)
    {
      selected := SelectEach(selected, Ids(tiles));
    }

    /** `isSelected`. */
    predicate IsSelected(id: string)
      reads this
    {
      id in selected
    }

    /** `reset`: empties name, id, hand and selection. */
    method Reset()
      modifies this
      ensures Valid() && playerName == "" && playerId == "" && tiles == [] && selected == []
    {
      playerName, playerId, tiles, selected := "", "", [], [];
    }
  }
}
