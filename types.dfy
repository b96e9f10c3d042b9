/** The client's shared record types. */
module Types {
  import opened Wrappers

  /**
   * A letter tile. `onBoard` is optional in the client; an absent flag
   * reads as false everywhere it is tested, so it is a plain boolean here.
   */
  datatype Tile = Tile(letter: string, id: string, onBoard: bool)

  /** A roster entry as the client lists it. */
  datatype Player = Player(id: string, name: string, ready: bool, tiles: Option<seq<Tile>>, tileCount: Option<int>)

  /** What a drag carries: the tile's id and where it was picked up. */
  datatype DragData = DragData(tileId: string, sourceRow: Option<int>, sourceCol: Option<int>, sourceBench: bool)
}
