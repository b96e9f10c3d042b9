/**
 * The session engine of backend/game.py: one `Game` owns the tile bag, the
 * players' hands (an insertion-ordered dict, kept here as two aligned
 * sequences `ids` and `hands`) and a four-phase state machine
 * IDLE -> ACTIVE -> ENDGAME -> OVER, with OVER -> ENDGAME on a false alarm
 * and any phase -> IDLE on reset. Every method is one atomic step; the
 * lock around each is not modelled.
 */
module BackendGame {
  import opened Wrappers
  import opened Seqs
  import opened Text
  import opened TileBag

  datatype Phase = Idle | Active | Endgame | Over

  /** The `GameException`s the engine raises, and the `KeyError` of an unknown player in `swap`. */
  datatype GameError =
    | MaximumPlayers
    | WrongPhase(found: Phase)
    | InvalidPlayerCount
    | PeelTooFrequent
    | NotEnoughTiles
    | MissingLetter
    | UnknownPlayer

  const MaxPlayers: nat := 8

  /** Clock readings are integer microseconds. */
  const MicrosPerSecond: int := 1000000
  const SecondsPerDay: int := 86400

  /**
   * `timedelta.seconds` of a difference of `elapsed` microseconds: the
   * whole seconds of the delta after its whole days are split off, so
   * always in 0..86399 (floor division, as Python normalises a timedelta).
   */
  function TimedeltaSeconds(elapsed: int): int {
    (elapsed / MicrosPerSecond) % SecondsPerDay
  }

  /** The rate check of `peel`: `(now - last_peel).seconds <= 0.75`. */
  predicate PeelTooSoon(elapsed: int) {
    TimedeltaSeconds(elapsed) as real <= 0.75
  }

  /**
   * Since `.seconds` is a whole number, the check rejects a peel exactly
   * when the delta lies within the first second of some whole number of
   * days after the last peel (a negative delta counts back from the day
   * before).
   */
  lemma {:induction false} PeelTooSoonWindows(elapsed: int)
    ensures PeelTooSoon(elapsed) <==>
            exists days: int :: days * SecondsPerDay * MicrosPerSecond <= elapsed
                                < days * SecondsPerDay * MicrosPerSecond + MicrosPerSecond
  {
    forall days: int | days * SecondsPerDay * MicrosPerSecond <= elapsed
                       < days * SecondsPerDay * MicrosPerSecond + MicrosPerSecond
      ensures TimedeltaSeconds(elapsed) == 0
    {
      WholeSecondsOf(elapsed, days * SecondsPerDay);
    }
    var s := elapsed / MicrosPerSecond;
    var days := s / SecondsPerDay;
    if TimedeltaSeconds(elapsed) == 0 {
      assert s == days * SecondsPerDay;
      WholeSecondsBounds(elapsed);
    }
  }

  /** A delta that lies in the second starting at `t` seconds has `t` whole seconds. */
  lemma {:induction false} WholeSecondsOf(elapsed: int, t: int)
    requires t * MicrosPerSecond <= elapsed < t * MicrosPerSecond + MicrosPerSecond
    ensures elapsed / MicrosPerSecond == t
  {
  }

  /** A delta lies in the second starting at its whole seconds. */
  lemma {:induction false} WholeSecondsBounds(elapsed: int)
    ensures (elapsed / MicrosPerSecond) * MicrosPerSecond <= elapsed
            < (elapsed / MicrosPerSecond) * MicrosPerSecond + MicrosPerSecond
  {
  }

  /** Samples: 0.9 s and exactly one day after a peel are rejected; 1 s and 1.5 s are not. */
  lemma {:induction false} PeelTooSoonSamples()
    ensures PeelTooSoon(900000)
    ensures !PeelTooSoon(1000000) && !PeelTooSoon(1500000)
    ensures PeelTooSoon(SecondsPerDay * MicrosPerSecond)
  {
  }

  /** `(word, word.upper() in WORDS)` for each word, in input order. */
  method ScoreWords(words: seq<string>, dictionary: set<string>) returns (scored: seq<(string, bool)>)
    ensures |scored| == |words|
    ensures forall i :: 0 <= i < |words| ==> scored[i] == (words[i], Upper(words[i]) in dictionary)
  {
    scored := [];
    var i := 0;
    while i < |words|
      invariant 0 <= i <= |words| && |scored| == i
      invariant forall k :: 0 <= k < i ==> scored[k] == (words[k], Upper(words[k]) in dictionary)
    {
      scored := scored + [(words[i], Upper(words[i]) in dictionary)];
      i := i + 1;
    }
  }

  /**
   * A word's verdict does not depend on the case it was typed in: two words
   * that differ only in the case of their ASCII letters get the same verdict.
   */
  lemma {:induction false} VerdictIgnoresCase(w1: string, w2: string, dictionary: set<string>)
    requires SameWordUpToCase(w1, w2)
    ensures (Upper(w1) in dictionary) == (Upper(w2) in dictionary)
  {
    UpperEqualIff(w1, w2);
  }

  /** The moves of the phase machine; every other change of phase is impossible. */
  predicate Transition(from: Phase, to: Phase) {
    from == to || to == Idle
    || (from == Idle && to == Active) || (from == Active && to == Endgame)
    || (from == Endgame && to == Over) || (from == Over && to == Endgame)
  }

  /**
   * The attributes of a `Game` other than its id: the bag, the phase,
   * `num_players`, `tiles_remaining`, `last_peel`, `date_created`, the
   * players dict (the ids in insertion order and, aligned with them, each
   * player's hand) and the two results of a bananagrams call.
   */
  datatype GameState = GameState(
    tiles: seq<char>,
    state: Phase,
    numPlayers: Option<nat>,
    tilesRemaining: nat,
    lastPeel: int,
    created: int,
    ids: seq<string>,
    hands: seq<seq<char>>,
    winningWords: Option<seq<(string, bool)>>,
    winningPlayer: Option<string>)

  /** The players dict is well formed and holds at most 8 players. */
  predicate Roster(g: GameState) {
    |g.ids| == |g.hands| && Distinct(g.ids) && |g.ids| <= MaxPlayers
  }

  /**
   * The game's invariant: a well-formed roster, `tiles_remaining` is the
   * bag's length, the bag and all hands together hold exactly the 144
   * tiles generated last (`full`), hands are empty until the game starts,
   * `num_players` is fixed from the start to the 2..8 players dealt in, and the results are present
   * exactly in OVER.
   */
  ghost predicate Inv(g: GameState, full: multiset<char>) {
    Roster(g)
    && g.tilesRemaining == |g.tiles|
    && multiset(g.tiles) + HandsMultiset(g.hands) == full && |full| == TotalTiles
    && (g.state == Idle ==> forall p :: 0 <= p < |g.hands| ==> g.hands[p] == [])
    && (g.state != Idle ==> g.numPlayers == Some(|g.ids|) && 2 <= |g.ids|)
    && (g.state == Over <==> g.winningPlayer.Some?)
    && (g.state == Over <==> g.winningWords.Some?)
  }

  /** While ACTIVE, the bag holds a tile for every player, so a peel can be dealt. */
  predicate PeelReady(g: GameState) {
    g.state == Active ==> g.numPlayers.Some? && g.numPlayers.value <= g.tilesRemaining
  }

  /**
   * Moving tiles between the bag and the hands of a game in play, and
   * possibly entering ENDGAME, keeps the invariant as long as no tile is
   * lost or made up.
   */
  lemma {:induction false} MoveTilesKeepsInv(g: GameState, full: multiset<char>, bag: seq<char>, hands: seq<seq<char>>, phase: Phase)
    requires Inv(g, full) && (g.state == Active || g.state == Endgame)
    requires phase == g.state || phase == Endgame
    requires |hands| == |g.hands|
    requires multiset(bag) + HandsMultiset(hands) == multiset(g.tiles) + HandsMultiset(g.hands)
    ensures Inv(g.(tiles := bag, hands := hands, tilesRemaining := |bag|, state := phase), full)
  {
  }

  /**
   * Dealing the tier table's share to each of 2..8 players and entering
   * ACTIVE keeps the invariant, and leaves a tile in the bag for every
   * player.
   */
  lemma {:induction false} StartKeepsInv(g: GameState, g': GameState, full: multiset<char>)
    requires Inv(g, full) && g.state == Idle && TilesPerPlayer(|g.ids|).Some?
    requires g'.ids == g.ids && g'.state == Active && g'.numPlayers == Some(|g.ids|)
    requires g'.winningWords == g.winningWords && g'.winningPlayer == g.winningPlayer
    requires |g'.hands| == |g.hands| && g'.tilesRemaining == |g'.tiles|
    requires multiset(g'.tiles) + HandsMultiset(g'.hands) == full
    requires |g'.tiles| == TotalTiles - Need(|g.ids|, TilesPerPlayer(|g.ids|).value)
    ensures Inv(g', full) && PeelReady(g')
  {
  }

  /** In every valid game the bag and the hands hold 144 tiles between them. */
  lemma {:induction false} TilesInPlay(g: GameState, full: multiset<char>)
    requires Inv(g, full)
    ensures g.tilesRemaining + HandsSize(g.hands) == TotalTiles
  {
    HandsMultisetSize(g.hands);
  }

  class Game {
    const id: string
    var st: GameState
    /** The tiles in play, in the bag or in a hand: the 144 generated by the last `__init__` or `reset`. */
    ghost var full: multiset<char>

    ghost predicate Valid()
      reads this
    {
      Inv(st, full)
    }

    /** `Game(id)`: a shuffled bag of the 144 tiles, no players, IDLE. */
    constructor(id: string, now: int)
      ensures Valid() && PeelReady(st)
      ensures this.id == id && st.state == Idle && st.numPlayers == None
      ensures st.ids == [] && st.hands == [] && st.lastPeel == now && st.created == now
      ensures st.winningWords == None && st.winningPlayer == None
      ensures st.tilesRemaining == TotalTiles && IsFullSet(multiset(st.tiles)) && full == multiset(st.tiles)
    {
      var bag := NewBag();
      this.id := id;
      st := GameState(bag, Idle, None, |bag|, now, now, [], [], None, None);
      full := multiset(bag);
    }

    /**
     * `reset`: a shuffled bag, IDLE, no player count, no results, and
     * every existing player kept, in order, with an empty hand.
     */
    method Reset(now: int)
      modifies this
      requires Valid()
      ensures Valid() && PeelReady(st) && Transition(old(st.state), st.state)
      ensures st.lastPeel == old(st.lastPeel) && st.created == now
      ensures st.state == Idle && st.numPlayers == None && st.winningWords == None && st.winningPlayer == None
      ensures st.tilesRemaining == TotalTiles && IsFullSet(multiset(st.tiles)) && full == multiset(st.tiles)
      ensures st.ids == old(st.ids) && |st.hands| == |st.ids|
      ensures forall p :: 0 <= p < |st.hands| ==> st.hands[p] == []
    {
      var bag := NewBag();
      var emptied := EmptyHands(st.hands);
      st := st.(tiles := bag, state := Idle, numPlayers := None, tilesRemaining := |bag|, created := now,
                hands := emptied, winningWords := None, winningPlayer := None);
      full := multiset(bag);
    }

    /**
     * `join_game`: refused when 8 players are present (checked first, so
     * even a repeat id is refused then), refused outside IDLE, a no-op for
     * an id already present, and otherwise appends the player with an
     * empty hand.
     */
    method JoinGame(playerId: string) returns (r: Outcome<GameError>)
      modifies this
      requires Valid()
      ensures Valid() && full == old(full) && (old(PeelReady(st)) ==> PeelReady(st))
      ensures st.tiles == old(st.tiles) && st.tilesRemaining == old(st.tilesRemaining)
      ensures st.state == old(st.state) && st.numPlayers == old(st.numPlayers)
      ensures st.lastPeel == old(st.lastPeel) && st.created == old(st.created)
      ensures st.winningWords == old(st.winningWords) && st.winningPlayer == old(st.winningPlayer)
      ensures old(|st.ids|) == MaxPlayers ==> r == Fail(MaximumPlayers) && st == old(st)
      ensures old(|st.ids|) < MaxPlayers && old(st.state) != Idle ==>
                r == Fail(WrongPhase(old(st.state))) && st == old(st)
      ensures old(|st.ids|) < MaxPlayers && old(st.state) == Idle && playerId in old(st.ids) ==>
                r == Pass && st == old(st)
      ensures old(|st.ids|) < MaxPlayers && old(st.state) == Idle && playerId !in old(st.ids) ==>
                r == Pass && st.ids == old(st.ids) + [playerId] && st.hands == old(st.hands) + [[]]
    {
      if |st.ids| == MaxPlayers {
        return Fail(MaximumPlayers);
      }
      if st.state != Idle {
        return Fail(WrongPhase(st.state));
      }
      if playerId !in st.ids {
        var ids, hands := st.ids + [playerId], st.hands + [[]];
        assert HandsMultiset(hands) == HandsMultiset(st.hands) by {
          assert hands[..|st.hands|] == st.hands;
        }
        st := st.(ids := ids, hands := hands);
      }
      return Pass;
    }

    /**
     * `_divy_out_tiles`: the tier table picks 21, 15 or 11 tiles for
     * 2..4, 5..6 or 7..8 players and raises for any other count; each
     * player in order then takes that many tiles popped from the bag.
     */
    method DivyOutTiles() returns (r: Outcome<GameError>)
      modifies this
      requires Roster(st) && st.tilesRemaining == |st.tiles| && st.numPlayers == Some(|st.ids|)
      requires multiset(st.tiles) + HandsMultiset(st.hands) == full && |full| == TotalTiles
      requires forall p :: 0 <= p < |st.hands| ==> st.hands[p] == []
      ensures full == old(full) && multiset(st.tiles) + HandsMultiset(st.hands) == full
      ensures st.ids == old(st.ids) && st.state == old(st.state) && st.numPlayers == old(st.numPlayers)
      ensures st.lastPeel == old(st.lastPeel) && st.created == old(st.created)
      ensures st.winningWords == old(st.winningWords) && st.winningPlayer == old(st.winningPlayer)
      ensures |st.hands| == |st.ids| && st.tilesRemaining == |st.tiles| && |old(st.tiles)| == TotalTiles
      ensures TilesPerPlayer(|st.ids|).None? ==> r == Fail(InvalidPlayerCount) && st == old(st)
      ensures TilesPerPlayer(|st.ids|).Some? ==>
                var k := TilesPerPlayer(|st.ids|).value;
                r == Pass && st.tiles == old(st.tiles)[..TotalTiles - Need(|st.ids|, k)]
                && st.hands == Deal(old(st.tiles), old(st.hands), k)
    {
      EmptyHandsHoldNothing(st.hands);
      var count := TilesPerPlayer(st.numPlayers.value);
      if count.None? {
        return Fail(InvalidPlayerCount);
      }
      var bag, dealt := DealTiles(st.tiles, st.hands, count.value);
      st := st.(tiles := bag, hands := dealt, tilesRemaining := |bag|);
      return Pass;
    }

    /**
     * `start_game`: only in IDLE; fixes `num_players` to the number of
     * players (even when dealing then fails), deals by the tier table and
     * enters ACTIVE.
     */
    method StartGame() returns (r: Outcome<GameError>)
      modifies this
      requires Valid()
      ensures Valid() && full == old(full) && Transition(old(st.state), st.state)
      ensures old(PeelReady(st)) ==> PeelReady(st)
      ensures st.ids == old(st.ids) && st.lastPeel == old(st.lastPeel) && st.created == old(st.created)
      ensures st.winningWords == old(st.winningWords) && st.winningPlayer == old(st.winningPlayer)
      ensures old(st.state) != Idle ==> r == Fail(WrongPhase(old(st.state))) && st == old(st)
      ensures old(st.state) == Idle && TilesPerPlayer(|st.ids|).None? ==>
                r == Fail(InvalidPlayerCount) && st == old(st).(numPlayers := Some(|st.ids|))
      ensures old(st.state) == Idle && TilesPerPlayer(|st.ids|).Some? ==>
                var k := TilesPerPlayer(|st.ids|).value;
                r == Pass && st.state == Active && st.numPlayers == Some(|st.ids|) && PeelReady(st)
                && |old(st.tiles)| == TotalTiles
                && st.tiles == old(st.tiles)[..TotalTiles - Need(|st.ids|, k)]
                && st.hands == Deal(old(st.tiles), old(st.hands), k)
    {
      if st.state != Idle {
        return Fail(WrongPhase(st.state));
      }
      ghost var before := st;
      st := st.(numPlayers := Some(|st.ids|));
      r := DivyOutTiles();
      if r.Pass? {
        st := st.(state := Active);
        StartKeepsInv(before, st, full);
      }
    }

    /**
     * `peel`: only in ACTIVE; unless `test` is set, refused when
     * `(now - last_peel).seconds` is 0; records `now` as the last peel
     * before checking that every player can be dealt; then each player in
     * order takes one tile popped from the bag, and the game enters
     * ENDGAME once fewer tiles remain than players.
     */
    method Peel(now: int, test: bool) returns (r: Outcome<GameError>)
      modifies this
      requires Valid()
      ensures Valid() && full == old(full) && Transition(old(st.state), st.state)
      ensures old(PeelReady(st)) ==> PeelReady(st) && r != Fail(NotEnoughTiles)
      ensures st.ids == old(st.ids) && st.numPlayers == old(st.numPlayers) && st.created == old(st.created)
      ensures st.winningWords == old(st.winningWords) && st.winningPlayer == old(st.winningPlayer)
      ensures st.state == old(st.state) || st.state == Endgame
      ensures old(st.state) != Active ==> r == Fail(WrongPhase(old(st.state))) && st == old(st)
      ensures old(st.state) == Active && PeelTooSoon(now - old(st.lastPeel)) && !test ==>
                r == Fail(PeelTooFrequent) && st == old(st)
      ensures old(st.state) == Active && !(PeelTooSoon(now - old(st.lastPeel)) && !test)
              && old(st.numPlayers.value > st.tilesRemaining) ==>
                r == Fail(NotEnoughTiles) && st == old(st).(lastPeel := now)
      ensures old(st.state) == Active && !(PeelTooSoon(now - old(st.lastPeel)) && !test)
              && old(st.numPlayers.value <= st.tilesRemaining) ==>
                r == Pass && st.lastPeel == now
                && st.tiles == old(st.tiles)[..|old(st.tiles)| - |st.ids|]
                && st.hands == Deal(old(st.tiles), old(st.hands), 1)
                && st.state == (if st.tilesRemaining < |st.ids| then Endgame else Active)
    {
      if st.state != Active {
        return Fail(WrongPhase(st.state));
      }
      if PeelTooSoon(now - st.lastPeel) && !test {
        return Fail(PeelTooFrequent);
      }
      st := st.(lastPeel := now);
      if st.numPlayers.value > st.tilesRemaining {
        return Fail(NotEnoughTiles);
      }
      var bag, dealt := PeelRound(st.tiles, st.hands);
      var phase := if |bag| < st.numPlayers.value then Endgame else st.state;
      MoveTilesKeepsInv(st, full, bag, dealt, phase);
      st := st.(tiles := bag, hands := dealt, tilesRemaining := |bag|, state := phase);
      return Pass;
    }

    /**
     * `swap`: only in ACTIVE or ENDGAME, for a known player holding the
     * letter; the player takes min(3, remaining) tiles popped from the
     * bag, gives back one copy of the letter (the first in the hand, so
     * one held before the draw), the letter goes into the bag, the bag is
     * shuffled, and the game enters ENDGAME once fewer tiles remain than
     * players.
     */
    method Swap(letter: char, player: string) returns (r: Outcome<GameError>)
      modifies this
      requires Valid()
      ensures Valid() && full == old(full) && Transition(old(st.state), st.state)
      ensures old(PeelReady(st)) ==> PeelReady(st)
      ensures st.ids == old(st.ids) && st.numPlayers == old(st.numPlayers)
      ensures st.lastPeel == old(st.lastPeel) && st.created == old(st.created)
      ensures st.winningWords == old(st.winningWords) && st.winningPlayer == old(st.winningPlayer)
      ensures old(st.state) != Active && old(st.state) != Endgame ==>
                r == Fail(WrongPhase(old(st.state))) && st == old(st)
      ensures (old(st.state) == Active || old(st.state) == Endgame) && player !in st.ids ==>
                r == Fail(UnknownPlayer) && st == old(st)
      ensures (old(st.state) == Active || old(st.state) == Endgame) && player in st.ids
              && letter !in old(st.hands)[IndexOf(st.ids, player)] ==>
                r == Fail(MissingLetter) && st == old(st)
      ensures (old(st.state) == Active || old(st.state) == Endgame) && player in st.ids
              && letter in old(st.hands)[IndexOf(st.ids, player)] ==>
                var p, m := IndexOf(st.ids, player), SwapCount(old(st.tilesRemaining));
                r == Pass
                && st.hands == old(st.hands)[p := RemoveFirst(old(st.hands)[p], letter) + Popped(old(st.tiles), m)]
                && |st.hands[p]| == |old(st.hands)[p]| + m - 1
                && BagAfterSwap(st.tiles, old(st.tiles), m, letter)
                && |st.tiles| == |old(st.tiles)| - m + 1
                && st.state == (if st.tilesRemaining < |st.ids| then Endgame else old(st.state))
    {
      if st.state != Active && st.state != Endgame {
        return Fail(WrongPhase(st.state));
      }
      if player !in st.ids {
        return Fail(UnknownPlayer);
      }
      var p := IndexOf(st.ids, player);
      if letter !in st.hands[p] {
        return Fail(MissingLetter);
      }
      var m := SwapCount(st.tilesRemaining);
      var bag, swapped := SwapInHands(st.tiles, st.hands, p, letter, m);
      var phase := if |bag| < st.numPlayers.value then Endgame else st.state;
      MoveTilesKeepsInv(st, full, bag, swapped, phase);
      st := st.(tiles := bag, hands := swapped, tilesRemaining := |bag|, state := phase);
      return Pass;
    }

    /**
     * `bananagrams`: only in ENDGAME; enters OVER and records the claimed
     * winner and each claimed word with whether its upper-cased form is
     * in the dictionary.
     */
    method Bananagrams(playerId: string, words: seq<string>, dictionary: set<string>)
      returns (r: Outcome<GameError>)
      modifies this
      requires Valid()
      ensures Valid() && full == old(full) && Transition(old(st.state), st.state)
      ensures old(PeelReady(st)) ==> PeelReady(st)
      ensures st.tiles == old(st.tiles) && st.tilesRemaining == old(st.tilesRemaining)
      ensures st.numPlayers == old(st.numPlayers) && st.lastPeel == old(st.lastPeel) && st.created == old(st.created)
      ensures st.ids == old(st.ids) && st.hands == old(st.hands)
      ensures old(st.state) != Endgame ==> r == Fail(WrongPhase(old(st.state))) && st == old(st)
      ensures old(st.state) == Endgame ==>
                r == Pass && st.state == Over && st.winningPlayer == Some(playerId)
                && st.winningWords.Some? && |st.winningWords.value| == |words|
                && forall i :: 0 <= i < |words| ==>
                     st.winningWords.value[i] == (words[i], Upper(words[i]) in dictionary)
    {
      if st.state != Endgame {
        return Fail(WrongPhase(st.state));
      }
      var scored := ScoreWords(words, dictionary);
      st := st.(state := Over, winningPlayer := Some(playerId), winningWords := Some(scored));
      return Pass;
    }

    /** `continue_game`: only in OVER; back to ENDGAME with the results cleared. */
    method ContinueGame() returns (r: Outcome<GameError>)
      modifies this
      requires Valid()
      ensures Valid() && full == old(full) && Transition(old(st.state), st.state)
      ensures old(PeelReady(st)) ==> PeelReady(st)
      ensures old(st.state) != Over ==> r == Fail(WrongPhase(old(st.state))) && st == old(st)
      ensures old(st.state) == Over ==>
                r == Pass && st == old(st).(state := Endgame, winningPlayer := None, winningWords := None)
    {
      if st.state != Over {
        return Fail(WrongPhase(st.state));
      }
      st := st.(state := Endgame, winningPlayer := None, winningWords := None);
      return Pass;
    }
  }
}
