/**
 * The earlier session engine of game.py. It differs from backend/game.py:
 * dealing leads to a HIDDEN phase that `split` ends, `join_game` has no
 * player cap, `peel` has no rate limit, there is no lock and no record of
 * a winner, and `reset` sets `num_players` to the current number of
 * players instead of clearing it.
 */
module LegacyGame {
  import opened Wrappers
  import opened Seqs
  import opened TileBag

  datatype Phase = Idle | Hidden | Active | Endgame | Over

  /** The `GameException`s the engine raises, and the `KeyError` of an unknown player in `swap`. */
  datatype GameError =
    | WrongPhase(found: Phase)
    | InvalidPlayerCount
    | NotEnoughTiles
    | MissingLetter
    | UnknownPlayer

  /** The moves of this revision's phase machine; every other change of phase is impossible. */
  predicate Transition(from: Phase, to: Phase) {
    from == to || to == Idle
    || (from == Idle && to == Hidden) || (from == Hidden && to == Active)
    || (from == Active && to == Endgame)
    || (from == Endgame && to == Over) || (from == Over && to == Endgame)
  }

  /**
   * The attributes of a `Game` other than its id: the bag, the phase,
   * `num_players`, `tiles_remaining`, `date_created`, and the players
   * dict as the ids in insertion order with each player's hand.
   */
  datatype GameState = GameState(
    tiles: seq<char>,
    state: Phase,
    numPlayers: Option<nat>,
    tilesRemaining: nat,
    created: int,
    ids: seq<string>,
    hands: seq<seq<char>>)

  /**
   * The game's invariant: the players dict is well formed (with no upper
   * bound on its size), `tiles_remaining` is the bag's length, the bag
   * and all hands together hold exactly the 144 tiles generated last,
   * hands are empty until the game starts, and once it has started
   * `num_players` is the 2..8 players dealt in.
   */
  ghost predicate Inv(g: GameState, full: multiset<char>) {
    |g.ids| == |g.hands| && Distinct(g.ids)
    && g.tilesRemaining == |g.tiles|
    && multiset(g.tiles) + HandsMultiset(g.hands) == full && |full| == TotalTiles
    && (g.state == Idle ==> forall p :: 0 <= p < |g.hands| ==> g.hands[p] == [])
    && (g.state != Idle ==> g.numPlayers == Some(|g.ids|) && 2 <= |g.ids| <= 8)
  }

  /** While HIDDEN or ACTIVE, the bag holds a tile for every player, so a peel can be dealt. */
  predicate PeelReady(g: GameState) {
    (g.state == Hidden || g.state == Active) ==>
      g.numPlayers.Some? && g.numPlayers.value <= g.tilesRemaining
  }

  /**
   * Moving tiles between the bag and the hands of a game in play, and
   * possibly entering ENDGAME, keeps the invariant as long as no tile is
   * lost or made up.
   */
  lemma {:induction false} MoveTilesKeepsInv(g: GameState, full: multiset<char>, bag: seq<char>, hands: seq<seq<char>>, phase: Phase)
    requires Inv(g, full) && (g.state == Active || g.state == Endgame)
    requires phase == g.state || phase == Endgame
    requires |hands| == |g.hands|
    requires multiset(bag) + HandsMultiset(hands) == multiset(g.tiles) + HandsMultiset(g.hands)
    ensures Inv(g.(tiles := bag, hands := hands, tilesRemaining := |bag|, state := phase), full)
  {
  }

  /**
   * Dealing the tier table's share to each of 2..8 players and entering
   * HIDDEN keeps the invariant, and leaves a tile in the bag for every
   * player.
   */
  lemma {:induction false} StartKeepsInv(g: GameState, g': GameState, full: multiset<char>)
    requires Inv(g, full) && g.state == Idle && TilesPerPlayer(|g.ids|).Some?
    requires g'.ids == g.ids && g'.state == Hidden && g'.numPlayers == Some(|g.ids|)
    requires |g'.hands| == |g.hands| && g'.tilesRemaining == |g'.tiles|
    requires multiset(g'.tiles) + HandsMultiset(g'.hands) == full
    requires |g'.tiles| == TotalTiles - Need(|g.ids|, TilesPerPlayer(|g.ids|).value)
    ensures Inv(g', full) && PeelReady(g')
  {
  }

  /** In every valid game the bag and the hands hold 144 tiles between them. */
  lemma {:induction false} TilesInPlay(g: GameState, full: multiset<char>)
    requires Inv(g, full)
    ensures g.tilesRemaining + HandsSize(g.hands) == TotalTiles
  {
    HandsMultisetSize(g.hands);
  }

  class Game {
    const id: string
    var st: GameState
    /** The tiles in play, in the bag or in a hand: the 144 generated by the last `__init__` or `reset`. */
    ghost var full: multiset<char>

    ghost predicate Valid()
      reads this
    {
      Inv(st, full)
    }

    /** `Game(id)`: a shuffled bag of the 144 tiles, no players, IDLE, no player count. */
    constructor(id: string, now: int)
      ensures Valid() && PeelReady(st)
      ensures this.id == id && st.state == Idle && st.numPlayers == None
      ensures st.ids == [] && st.hands == [] && st.created == now
      ensures st.tilesRemaining == TotalTiles && IsFullSet(multiset(st.tiles)) && full == multiset(st.tiles)
    {
      var bag := NewBag();
      this.id := id;
      st := GameState(bag, Idle, None, |bag|, now, [], []);
      full := multiset(bag);
    }

    /**
     * `reset`: a shuffled bag, IDLE, `num_players` set to the current
     * number of players, and every existing player kept, in order, with
     * an empty hand.
     */
    method Reset(now: int)
      modifies this
      requires Valid()
      ensures Valid() && PeelReady(st) && Transition(old(st.state), st.state)
      ensures st.state == Idle && st.numPlayers == Some(|st.ids|) && st.created == now
      ensures st.tilesRemaining == TotalTiles && IsFullSet(multiset(st.tiles)) && full == multiset(st.tiles)
      ensures st.ids == old(st.ids) && |st.hands| == |st.ids|
      ensures forall p :: 0 <= p < |st.hands| ==> st.hands[p] == []
    {
      var bag := NewBag();
      var emptied := EmptyHands(st.hands);
      st := st.(tiles := bag, state := Idle, numPlayers := Some(|st.ids|), tilesRemaining := |bag|,
                created := now, hands := emptied);
      full := multiset(bag);
    }

    /**
     * `join_game`: refused outside IDLE, a no-op for an id already
     * present, and otherwise appends the player with an empty hand,
     * however many players there already are.
     */
    method JoinGame(playerId: string) returns (r: Outcome<GameError>)
      modifies this
      requires Valid()
      ensures Valid() && full == old(full) && (old(PeelReady(st)) ==> PeelReady(st))
      ensures st.tiles == old(st.tiles) && st.tilesRemaining == old(st.tilesRemaining)
      ensures st.state == old(st.state) && st.numPlayers == old(st.numPlayers) && st.created == old(st.created)
      ensures old(st.state) != Idle ==> r == Fail(WrongPhase(old(st.state))) && st == old(st)
      ensures old(st.state) == Idle && playerId in old(st.ids) ==> r == Pass && st == old(st)
      ensures old(st.state) == Idle && playerId !in old(st.ids) ==>
                r == Pass && st.ids == old(st.ids) + [playerId] && st.hands == old(st.hands) + [[]]
    {
      if st.state != Idle {
        return Fail(WrongPhase(st.state));
      }
      if playerId !in st.ids {
        var ids, hands := st.ids + [playerId], st.hands + [[]];
        assert HandsMultiset(hands) == HandsMultiset(st.hands) by {
          assert hands[..|st.hands|] == st.hands;
        }
        st := st.(ids := ids, hands := hands);
      }
      return Pass;
    }

    /**
     * `_divy_out_tiles`: refuses a player count outside 2..8 before any
     * tile moves; otherwise the tier table picks 21, 15 or 11 tiles and
     * each player in order takes that many tiles popped from the bag.
     */
    method DivyOutTiles() returns (r: Outcome<GameError>)
      modifies this
      requires |st.ids| == |st.hands| && st.tilesRemaining == |st.tiles| && st.numPlayers == Some(|st.ids|)
      requires multiset(st.tiles) + HandsMultiset(st.hands) == full && |full| == TotalTiles
      requires forall p :: 0 <= p < |st.hands| ==> st.hands[p] == []
      ensures full == old(full) && multiset(st.tiles) + HandsMultiset(st.hands) == full
      ensures st.ids == old(st.ids) && st.state == old(st.state) && st.numPlayers == old(st.numPlayers)
      ensures st.created == old(st.created)
      ensures |st.hands| == |st.ids| && st.tilesRemaining == |st.tiles| && |old(st.tiles)| == TotalTiles
      ensures !(2 <= |st.ids| <= 8) ==> r == Fail(InvalidPlayerCount) && st == old(st)
      ensures 2 <= |st.ids| <= 8 ==>
                var k := TilesPerPlayer(|st.ids|).value;
                r == Pass && st.tiles == old(st.tiles)[..TotalTiles - Need(|st.ids|, k)]
                && st.hands == Deal(old(st.tiles), old(st.hands), k)
    {
      EmptyHandsHoldNothing(st.hands);
      var n := st.numPlayers.value;
      if n < 2 || n > 8 {
        return Fail(InvalidPlayerCount);
      }
      var count := TilesPerPlayer(n);
      var bag, dealt := DealTiles(st.tiles, st.hands, count.value);
      st := st.(tiles := bag, hands := dealt, tilesRemaining := |bag|);
      return Pass;
    }

    /**
     * `start_game`: only in IDLE; fixes `num_players` to the number of
     * players (even when dealing then fails), deals by the tier table and
     * enters HIDDEN.
     */
    method StartGame() returns (r: Outcome<GameError>)
      modifies this
      requires Valid()
      ensures Valid() && full == old(full) && Transition(old(st.state), st.state)
      ensures old(PeelReady(st)) ==> PeelReady(st)
      ensures st.ids == old(st.ids) && st.created == old(st.created)
      ensures old(st.state) != Idle ==> r == Fail(WrongPhase(old(st.state))) && st == old(st)
      ensures old(st.state) == Idle && TilesPerPlayer(|st.ids|).None? ==>
                r == Fail(InvalidPlayerCount) && st == old(st).(numPlayers := Some(|st.ids|))
      ensures old(st.state) == Idle && TilesPerPlayer(|st.ids|).Some? ==>
                var k := TilesPerPlayer(|st.ids|).value;
                r == Pass && st.state == Hidden && st.numPlayers == Some(|st.ids|) && PeelReady(st)
                && |old(st.tiles)| == TotalTiles
                && st.tiles == old(st.tiles)[..TotalTiles - Need(|st.ids|, k)]
                && st.hands == Deal(old(st.tiles), old(st.hands), k)
    {
      if st.state != Idle {
        return Fail(WrongPhase(st.state));
      }
      ghost var before := st;
      st := st.(numPlayers := Some(|st.ids|));
      r := DivyOutTiles();
      if r.Pass? {
        st := st.(state := Hidden);
        StartKeepsInv(before, st, full);
      }
    }

    /** `split`: only in HIDDEN; enters ACTIVE and changes nothing else. */
    method Split() returns (r: Outcome<GameError>)
      modifies this
      requires Valid()
      ensures Valid() && full == old(full) && Transition(old(st.state), st.state)
      ensures old(PeelReady(st)) ==> PeelReady(st)
      ensures old(st.state) != Hidden ==> r == Fail(WrongPhase(old(st.state))) && st == old(st)
      ensures old(st.state) == Hidden ==> r == Pass && st == old(st).(state := Active)
    {
      if st.state != Hidden {
        return Fail(WrongPhase(st.state));
      }
      st := st.(state := Active);
      return Pass;
    }

    /**
     * `peel`: only in ACTIVE, with no rate limit; refused when there are
     * more players than tiles; then each player in order takes one tile
     * popped from the bag, and the game enters ENDGAME once fewer tiles
     * remain than players.
     */
    method Peel() returns (r: Outcome<GameError>)
      modifies this
      requires Valid()
      ensures Valid() && full == old(full) && Transition(old(st.state), st.state)
      ensures old(PeelReady(st)) ==> PeelReady(st) && r != Fail(NotEnoughTiles)
      ensures st.ids == old(st.ids) && st.numPlayers == old(st.numPlayers) && st.created == old(st.created)
      ensures st.state == old(st.state) || st.state == Endgame
      ensures old(st.state) != Active ==> r == Fail(WrongPhase(old(st.state))) && st == old(st)
      ensures old(st.state) == Active && old(st.numPlayers.value > st.tilesRemaining) ==>
                r == Fail(NotEnoughTiles) && st == old(st)
      ensures old(st.state) == Active && old(st.numPlayers.value <= st.tilesRemaining) ==>
                r == Pass
                && st.tiles == old(st.tiles)[..|old(st.tiles)| - |st.ids|]
                && st.hands == Deal(old(st.tiles), old(st.hands), 1)
                && st.state == (if st.tilesRemaining < |st.ids| then Endgame else Active)
    {
      if st.state != Active {
        return Fail(WrongPhase(st.state));
      }
      if st.numPlayers.value > st.tilesRemaining {
        return Fail(NotEnoughTiles);
      }
      var bag, dealt := PeelRound(st.tiles, st.hands);
      var phase := if |bag| < st.numPlayers.value then Endgame else st.state;
      MoveTilesKeepsInv(st, full, bag, dealt, phase);
      st := st.(tiles := bag, hands := dealt, tilesRemaining := |bag|, state := phase);
      return Pass;
    }

    /**
     * `swap`: only in ACTIVE or ENDGAME, for a known player holding the
     * letter; the player takes min(3, remaining) tiles popped from the
     * bag, gives back one copy of the letter, the letter goes into the
     * bag, the bag is shuffled, and the game enters ENDGAME once fewer
     * tiles remain than players.
     */
    method Swap(letter: char, player: string) returns (r: Outcome<GameError>)
      modifies this
      requires Valid()
      ensures Valid() && full == old(full) && Transition(old(st.state), st.state)
      ensures old(PeelReady(st)) ==> PeelReady(st)
      ensures st.ids == old(st.ids) && st.numPlayers == old(st.numPlayers) && st.created == old(st.created)
      ensures old(st.state) != Active && old(st.state) != Endgame ==>
                r == Fail(WrongPhase(old(st.state))) && st == old(st)
      ensures (old(st.state) == Active || old(st.state) == Endgame) && player !in st.ids ==>
                r == Fail(UnknownPlayer) && st == old(st)
      ensures (old(st.state) == Active || old(st.state) == Endgame) && player in st.ids
              && letter !in old(st.hands)[IndexOf(st.ids, player)] ==>
                r == Fail(MissingLetter) && st == old(st)
      ensures (old(st.state) == Active || old(st.state) == Endgame) && player in st.ids
              && letter in old(st.hands)[IndexOf(st.ids, player)] ==>
                var p, m := IndexOf(st.ids, player), SwapCount(old(st.tilesRemaining));
                r == Pass
                && st.hands == old(st.hands)[p := RemoveFirst(old(st.hands)[p], letter) + Popped(old(st.tiles), m)]
                && |st.hands[p]| == |old(st.hands)[p]| + m - 1
                && BagAfterSwap(st.tiles, old(st.tiles), m, letter)
                && |st.tiles| == |old(st.tiles)| - m + 1
                && st.state == (if st.tilesRemaining < |st.ids| then Endgame else old(st.state))
    {
      if st.state != Active && st.state != Endgame {
        return Fail(WrongPhase(st.state));
      }
      if player !in st.ids {
        return Fail(UnknownPlayer);
      }
      var p := IndexOf(st.ids, player);
      if letter !in st.hands[p] {
        return Fail(MissingLetter);
      }
      var m := SwapCount(st.tilesRemaining);
      var bag, swapped := SwapInHands(st.tiles, st.hands, p, letter, m);
      var phase := if |bag| < st.numPlayers.value then Endgame else st.state;
      MoveTilesKeepsInv(st, full, bag, swapped, phase);
      st := st.(tiles := bag, hands := swapped, tilesRemaining := |bag|, state := phase);
      return Pass;
    }

    /** `bananagrams`: only in ENDGAME; enters OVER and changes nothing else. */
    method Bananagrams() returns (r: Outcome<GameError>)
      modifies this
      requires Valid()
      ensures Valid() && full == old(full) && Transition(old(st.state), st.state)
      ensures old(PeelReady(st)) ==> PeelReady(st)
      ensures old(st.state) != Endgame ==> r == Fail(WrongPhase(old(st.state))) && st == old(st)
      ensures old(st.state) == Endgame ==> r == Pass && st == old(st).(state := Over)
    {
      if st.state != Endgame {
        return Fail(WrongPhase(st.state));
      }
      st := st.(state := Over);
      return Pass;
    }

    /** `continue_game`: only in OVER; back to ENDGAME and nothing else changes. */
    method ContinueGame() returns (r: Outcome<GameError>)
      modifies this
      requires Valid()
      ensures Valid() && full == old(full) && Transition(old(st.state), st.state)
      ensures old(PeelReady(st)) ==> PeelReady(st)
      ensures old(st.state) != Over ==> r == Fail(WrongPhase(old(st.state))) && st == old(st)
      ensures old(st.state) == Over ==> r == Pass && st == old(st).(state := Endgame)
    {
      if st.state != Over {
        return Fail(WrongPhase(st.state));
      }
      st := st.(state := Endgame);
      return Pass;
    }
  }
}
