/**
 * The client's game store: the game id, the last game state the server
 * sent (a loosely typed object, or none yet), the reserved ids, the
 * loading flag and the last error. The derived views (the roster, the
 * remaining tile count, the winning words, the phase tests) are
 * functions of the stored state.
 */
module GameStore {
  import opened Wrappers
  import opened Seqs
  import opened OrderedMaps
  import opened Json
  import opened Types

  type State = Entries<JsValue>

  /** `gameState.value?.[k]`: `undefined` without a state or without the key. */
  function Field(gs: Option<State>, k: string): (v: JsValue)
    ensures gs.None? ==> v == Undefined
    ensures gs.Some? && Get(gs.value, k).Some? ==> v == Get(gs.value, k).value
    ensures gs.Some? && Get(gs.value, k).None? ==> v == Undefined
  {
    if gs.None? then Undefined
    else match Get(gs.value, k)
      case None => Undefined
      case Some(v) => v
  }

  /** A roster entry: the key is both id and name; the count is the length of the hand when it is an array. */
  function RosterEntry(gs: Option<State>, entry: (string, JsValue)): Player {
    Player(entry.0, entry.0, Field(gs, "state") != Str("IDLE"),
           None, Some(if entry.1.Arr? then |entry.1.items| else 0))
  }

  /**
   * The `players` view: one entry per own key of `players`, in order,
   * or none when there is no state or its `players` is falsy.
   */
  function Roster(gs: Option<State>): (r: seq<Player>)
    ensures !Truthy(Field(gs, "players")) ==> r == []
    ensures Truthy(Field(gs, "players")) ==> |r| == |OwnEntries(Field(gs, "players"))|
    ensures forall i :: 0 <= i < |r| ==>
      var e := OwnEntries(Field(gs, "players"))[i];
      r[i].id == e.0 && r[i].name == e.0
      && r[i].tileCount == Some(if e.1.Arr? then |e.1.items| else 0)
      && (r[i].ready <==> Field(gs, "state") != Str("IDLE"))
  {
    var players := Field(gs, "players");
    if !Truthy(players) then []
    else
      var es := OwnEntries(players);
      seq(|es|, i requires 0 <= i < |es| => RosterEntry(gs, es[i]))
  }

  /** `tilesRemaining`: `tiles_remaining || 0`. */
  function TilesRemaining(gs: Option<State>): (v: JsValue)
    ensures Truthy(Field(gs, "tiles_remaining")) ==> v == Field(gs, "tiles_remaining")
    ensures !Truthy(Field(gs, "tiles_remaining")) ==> v == Num(0)
  {
    Or(Field(gs, "tiles_remaining"), Num(0))
  }

  /** `winningWords`: `winning_words || []`. */
  function WinningWords(gs: Option<State>): (v: JsValue)
    ensures Truthy(v)
    ensures Truthy(Field(gs, "winning_words")) ==> v == Field(gs, "winning_words")
    ensures !Truthy(Field(gs, "winning_words")) ==> v == Arr([])
  {
    Or(Field(gs, "winning_words"), Arr([]))
  }

  /** `isActive`, `isEndgame` and `isOver`: the state field is that phase's name. */
  function InPhase(gs: Option<State>, phase: string): (b: bool)
    ensures b <==> gs.Some? && Get(gs.value, "state") == Some(Str(phase))
  {
    Field(gs, "state") == Str(phase)
  }

  /** At most one of the phase views holds at a time, and none without a state. */
  lemma {:induction false} PhasesExclusive(gs: Option<State>)
    ensures !(InPhase(gs, "ACTIVE") && InPhase(gs, "ENDGAME"))
    ensures !(InPhase(gs, "ACTIVE") && InPhase(gs, "OVER"))
    ensures !(InPhase(gs, "ENDGAME") && InPhase(gs, "OVER"))
    ensures gs.None? ==> !InPhase(gs, "ACTIVE") && !InPhase(gs, "ENDGAME") && !InPhase(gs, "OVER")
  {
    assert "ACTIVE"[0] != "ENDGAME"[0] && "ACTIVE"[0] != "OVER"[0] && "ENDGAME"[0] != "OVER"[0];
  }

  /** A player's letters as the server lists them: `tiles?.map(t => t.letter) || []`. */
  function LetterList(p: Player): (v: JsValue)
    ensures v.Arr? && |v.items| == (if p.tiles.Some? then |p.tiles.value| else 0)
  {
    if p.tiles.None? then Arr([])
    else Arr(seq(|p.tiles.value|, i requires 0 <= i < |p.tiles.value| => Str(p.tiles.value[i].letter)))
  }

  /** The ids of a player list, in order. */
  function PlayerIds(list: seq<Player>): (ids: seq<string>)
    ensures |ids| == |list| && forall i :: 0 <= i < |list| ==> ids[i] == list[i].id
  {
    seq(|list|, i requires 0 <= i < |list| => list[i].id)
  }

  /** The record `setPlayers` builds: each player's letters assigned under its id, in list order. */
  function PlayersRecord(list: seq<Player>): (r: State)
    decreases |list|
  {
    if |list| == 0 then []
    else
      var last := list[|list| - 1];
      Put(PlayersRecord(list[..|list| - 1]), last.id, LetterList(last))
  }

  /** The record's keys are the players' ids, each once, in order of first appearance. */
  lemma {:induction false} PlayersRecordKeys(list: seq<Player>)
    ensures Keys(PlayersRecord(list)) == Dedup(PlayerIds(list))
    ensures WellFormed(PlayersRecord(list))
    decreases |list|
  {
    if |list| > 0 {
      var init := list[..|list| - 1];
      var last := list[|list| - 1];
      PlayersRecordKeys(init);
      assert PlayerIds(list)[..|list| - 1] == PlayerIds(init);
      KeysPut(PlayersRecord(init), last.id, LetterList(last));
      PutWellFormed(PlayersRecord(init), last.id, LetterList(last));
    }
  }

  /** Under each id, the record holds the letters of the last player listed with that id. */
  lemma {:induction false} PlayersRecordGet(list: seq<Player>, i: nat)
    requires i < |list| && forall j :: i < j < |list| ==> list[j].id != list[i].id
    ensures Get(PlayersRecord(list), list[i].id) == Some(LetterList(list[i]))
    decreases |list|
  {
    var init := list[..|list| - 1];
    var last := list[|list| - 1];
    GetPut(PlayersRecord(init), last.id, LetterList(last), list[i].id);
    if i < |list| - 1 {
      assert init[i] == list[i];
      forall j | i < j < |init| ensures init[j].id != init[i].id {
        assert init[j] == list[j];
      }
      PlayersRecordGet(init, i);
    }
  }

  /** An id no listed player has is absent from the record. */
  lemma {:induction false} PlayersRecordAbsent(list: seq<Player>, k: string)
    requires k !in PlayerIds(list)
    ensures Get(PlayersRecord(list), k) == None
    decreases |list|
  {
    if |list| > 0 {
      var init := list[..|list| - 1];
      var last := list[|list| - 1];
      assert PlayerIds(init) == PlayerIds(list)[..|list| - 1];
      PlayersRecordAbsent(init, k);
      GetPut(PlayersRecord(init), last.id, LetterList(last), k);
    }
  }

  class Store {
    var gameId: string
    var gameState: Option<State>
    var unavailableIds: seq<string>
    var loading: bool
    var error: Option<string>

    constructor()
      ensures gameId == "" && gameState == None && unavailableIds == [] && !loading && error == None
    {
      gameId, gameState, unavailableIds, loading, error := "", None, [], false, None;
    }

    /**
     * `updateGameState`: with no state yet the data becomes the state;
     * otherwise the data is spread over it, each of its keys overriding
     * and every other key kept.
     */
    method UpdateGameState(data: State)
      modifies this
      ensures gameState == Some(if old(gameState).None? then data else Merge(old(gameState).value, data))
      ensures WellFormed(data) ==>
        forall k :: Field(gameState, k) == if k in Keys(data) then Field(Some(data), k) else Field(old(gameState), k)
      ensures gameId == old(gameId) && unavailableIds == old(unavailableIds)
      ensures loading == old(loading) && error == old(error)
    {
      if gameState.None? {
        gameState := Some(data);
      } else {
        var merged := Merge(gameState.value, data);
        if WellFormed(data) {
          forall k ensures Get(merged, k) == if k in Keys(data) then Get(data, k) else Get(gameState.value, k) {
            GetMerge(gameState.value, data, k);
          }
        }
        gameState := Some(merged);
      }
    }

    /**
     * `setPlayers`: with a state, its `players` becomes the record from
     * each listed id to that player's letters; without one nothing
     * happens.
     */
    method SetPlayers(playerList: seq<Player>)
      modifies this
      ensures old(gameState).None? ==> gameState == None
      ensures old(gameState).Some? ==>
        gameState == Some(Put(old(gameState).value, "players", Obj(PlayersRecord(playerList))))
      ensures gameId == old(gameId) && unavailableIds == old(unavailableIds)
      ensures loading == old(loading) && error == old(error)
    {
      if gameState.Some? {
        var record := BuildRecord(playerList);
        gameState := Some(Put(gameState.value, "players", Obj(record)));
      }
    }

    /** `reset`: forgets the game id, the state and the error. */
    method Reset()
      modifies this
      ensures gameId == "" && gameState == None && error == None
      ensures unavailableIds == old(unavailableIds) && loading == old(loading)
    {
      gameId := "";
      gameState := None;
      error := None;
    }
  }

  /** The `forEach` of `setPlayers`. */
  method BuildRecord(playerList: seq<Player>) returns (record: State)
    ensures record == PlayersRecord(playerList)
  {
    record := [];
    for i := 0 to |playerList|
      invariant record == PlayersRecord(playerList[..i])
    {
      assert playerList[..i + 1][..i] == playerList[..i];
      record := Put(record, playerList[i].id, LetterList(playerList[i]));
    }
    assert playerList[..|playerList|] == playerList;
  }

  /**
   * After `setPlayers`, the roster lists each distinct id once, in order
   * of first appearance.
   */
  lemma {:induction false} RosterAfterSetPlayers(gs: State, list: seq<Player>)
    ensures var r := Roster(Some(Put(gs, "players", Obj(PlayersRecord(list)))));
      |r| == |Dedup(PlayerIds(list))|
      && forall i :: 0 <= i < |r| ==> r[i].id == Dedup(PlayerIds(list))[i]
  {
    var gs' := Put(gs, "players", Obj(PlayersRecord(list)));
    GetPut(gs, "players", Obj(PlayersRecord(list)), "players");
    assert Field(Some(gs'), "players") == Obj(PlayersRecord(list));
    PlayersRecordKeys(list);
  }
}
