/**
 * How the socket store folds a hand the server sends (a list of letters)
 * into the player's tiles: each letter reuses the first tile of the same
 * letter not yet reused, keeping its id and board state, and otherwise
 * gets a fresh tile off the board whose id is built from the player's
 * name, the position and a clock reading.
 */
module Socket {
  import opened Decimal
  import opened Types
  import opened Seqs
  import PlayerStore

  /** `${currentPlayerName}-${index}-${Date.now()}`. */
  function FreshId(name: string, index: int, stamp: int): string {
    name + "-" + IntToString(index) + "-" + IntToString(stamp)
  }

  /** The ids carried by some tiles. */
  function IdSet(tiles: seq<Tile>): set<string> {
    set t | t in tiles :: t.id
  }

  /**
   * `existingTiles.find(t => t.letter === letter && !usedTileIds.has(t.id))`,
   * as the position found, or `|existing|` when there is none.
   */
  function FindUnused(existing: seq<Tile>, letter: string, used: set<string>): (k: nat)
    ensures k <= |existing|
    ensures k < |existing| ==> existing[k].letter == letter && existing[k].id !in used
    ensures forall j :: 0 <= j < k ==> !(existing[j].letter == letter && existing[j].id !in used)
    decreases |existing|
  {
    if |existing| == 0 then 0
    else if existing[0].letter == letter && existing[0].id !in used then 0
    else 1 + FindUnused(existing[1..], letter, used)
  }

  /** The tile chosen for the letter at position `index`. */
  function Pick(existing: seq<Tile>, letter: string, used: set<string>, name: string, index: int, stamp: int): (t: Tile)
    ensures t.letter == letter
    ensures (t in existing && t.id !in used) || t == Tile(letter, FreshId(name, index, stamp), false)
  {
    var k := FindUnused(existing, letter, used);
    if k < |existing| then existing[k] else Tile(letter, FreshId(name, index, stamp), false)
  }

  /** The new hand: one tile per letter, in the server's order. */
  function Reconcile(existing: seq<Tile>, letters: seq<string>, name: string, stamps: seq<int>): (r: seq<Tile>)
    requires |stamps| == |letters|
    ensures |r| == |letters|
    decreases |letters|
  {
    if |letters| == 0 then []
    else
      var n := |letters| - 1;
      var r0 := Reconcile(existing, letters[..n], name, stamps[..n]);
      r0 + [Pick(existing, letters[n], IdSet(r0), name, n, stamps[n])]
  }

  /** The hand for the first letters is the start of the whole hand. */
  lemma {:induction false} ReconcileStart(existing: seq<Tile>, letters: seq<string>, name: string, stamps: seq<int>, m: nat)
    requires |stamps| == |letters| && m <= |letters|
    ensures Reconcile(existing, letters[..m], name, stamps[..m]) == Reconcile(existing, letters, name, stamps)[..m]
    decreases |letters|
  {
    if m < |letters| {
      var n := |letters| - 1;
      ReconcileStart(existing, letters[..n], name, stamps[..n], m);
      TakeTake(letters, m, n);
      TakeTake(stamps, m, n);
      assert Reconcile(existing, letters, name, stamps)[..n] == Reconcile(existing, letters[..n], name, stamps[..n]);
    } else {
      assert letters[..m] == letters && stamps[..m] == stamps;
    }
  }

  /** The letters of some tiles, in order. */
  function Letters(tiles: seq<Tile>): (ls: seq<string>)
    ensures |ls| == |tiles| && forall i :: 0 <= i < |tiles| ==> ls[i] == tiles[i].letter
  {
    seq(|tiles|, i requires 0 <= i < |tiles| => tiles[i].letter)
  }

  lemma LettersSnoc(tiles: seq<Tile>, t: Tile)
    ensures Letters(tiles + [t]) == Letters(tiles) + [t.letter]
  {
    var a, b := Letters(tiles + [t]), Letters(tiles) + [t.letter];
    assert |a| == |b|;
    forall i | 0 <= i < |a| ensures a[i] == b[i] {
      if i < |tiles| {
        assert (tiles + [t])[i] == tiles[i];
      }
    }
  }

  /** The hand for one more letter is the hand so far with the tile picked for it. */
  lemma ReconcileNext(existing: seq<Tile>, letters: seq<string>, name: string, stamps: seq<int>, i: nat)
    requires |stamps| == |letters| && i < |letters|
    ensures var r0 := Reconcile(existing, letters[..i], name, stamps[..i]);
      Reconcile(existing, letters[..i + 1], name, stamps[..i + 1])
      == r0 + [Pick(existing, letters[i], IdSet(r0), name, i, stamps[i])]
  {
    TakeTake(letters, i, i + 1);
    TakeTake(stamps, i, i + 1);
  }

  /** The new hand spells the letters the server sent, in its order. */
  lemma {:induction false} ReconcileLetters(existing: seq<Tile>, letters: seq<string>, name: string, stamps: seq<int>)
    requires |stamps| == |letters|
    ensures Letters(Reconcile(existing, letters, name, stamps)) == letters
    decreases |letters|
  {
    if |letters| > 0 {
      var n := |letters| - 1;
      var r0 := Reconcile(existing, letters[..n], name, stamps[..n]);
      var t := Pick(existing, letters[n], IdSet(r0), name, n, stamps[n]);
      calc {
        Letters(Reconcile(existing, letters, name, stamps));
        Letters(r0 + [t]);
        { LettersSnoc(r0, t); }
        Letters(r0) + [t.letter];
        { ReconcileLetters(existing, letters[..n], name, stamps[..n]); }
        letters[..n] + [letters[n]];
        { TakeNext(letters, n); TakeAll(letters); }
        letters;
      }
    }
  }

  /**
   * Each tile of the new hand is either an existing tile whose id no
   * earlier tile of the new hand carries, or a fresh tile off the board.
   */
  lemma {:induction false} ReconcileOrigin(existing: seq<Tile>, letters: seq<string>, name: string, stamps: seq<int>, i: nat)
    requires |stamps| == |letters| && i < |letters|
    ensures var r := Reconcile(existing, letters, name, stamps);
      (r[i] in existing && r[i].id !in IdSet(r[..i])) || r[i] == Tile(letters[i], FreshId(name, i, stamps[i]), false)
  {
    var r := Reconcile(existing, letters, name, stamps);
    ReconcileStart(existing, letters, name, stamps, i + 1);
    ReconcileStart(existing, letters, name, stamps, i);
    var li, si := letters[..i + 1], stamps[..i + 1];
    TakeTake(letters, i, i + 1);
    TakeTake(stamps, i, i + 1);
    var r0 := Reconcile(existing, li[..i], name, si[..i]);
    assert r0 == r[..i];
    var p := Pick(existing, li[i], IdSet(r0), name, i, si[i]);
    assert Reconcile(existing, li, name, si) == r0 + [p];
    TakeNext(r, i);
    assert r[..i + 1] == r0 + [p];
    assert r[i] == (r0 + [p])[i];
  }

  /** `updatePlayerTiles`: the clock readings are passed in, one per letter. */
  method UpdatePlayerTiles(store: PlayerStore.Player, playerTileLetters: seq<string>, currentPlayerName: string,
                           stamps: seq<int>)
    requires |stamps| == |playerTileLetters|
    modifies store
    ensures store.tiles == Reconcile(old(store.tiles), playerTileLetters, currentPlayerName, stamps)
    ensures store.playerName == old(store.playerName) && store.playerId == old(store.playerId)
    ensures store.selected == old(store.selected)
  {
    var newTiles := BuildHand(store.tiles, playerTileLetters, currentPlayerName, stamps);
    store.SetTiles(newTiles);
  }

  /** The loop of `updatePlayerTiles`, which fills `newTiles` and `usedTileIds`. */
  method BuildHand(existingTiles: seq<Tile>, playerTileLetters: seq<string>, currentPlayerName: string,
                   stamps: seq<int>) returns (newTiles: seq<Tile>)
    requires |stamps| == |playerTileLetters|
    ensures newTiles == Reconcile(existingTiles, playerTileLetters, currentPlayerName, stamps)
  {
    newTiles := [];
    var usedTileIds: set<string> := {};
    for index := 0 to |playerTileLetters|
      invariant newTiles == Reconcile(existingTiles, playerTileLetters[..index], currentPlayerName, stamps[..index])
      invariant usedTileIds == IdSet(newTiles)
    {
      var letter := playerTileLetters[index];
      var k := FindUnused(existingTiles, letter, usedTileIds);
      var tile;
      if k < |existingTiles| {
        tile := existingTiles[k];
      } else {
        tile := Tile(letter, FreshId(currentPlayerName, index, stamps[index]), false);
      }
      ReconcileNext(existingTiles, playerTileLetters, currentPlayerName, stamps, index);
      IdSetSnoc(newTiles, tile);
      newTiles := newTiles + [tile];
      usedTileIds := usedTileIds + {tile.id};
    }
    assert playerTileLetters[..|playerTileLetters|] == playerTileLetters;
    assert stamps[..|stamps|] == stamps;
  }

  lemma IdSetSnoc(tiles: seq<Tile>, t: Tile)
    ensures IdSet(tiles + [t]) == IdSet(tiles) + {t.id}
  {
    assert forall u :: u in tiles + [t] <==> u in tiles || u == t;
  }

  /**
   * Two fresh ids built with clock readings of the same width are equal
   * only for the same position.
   */
  lemma {:induction false} FreshIdInjective(name: string, i: int, j: int, s: int, t: int)
    requires |IntToString(s)| == |IntToString(t)|
    requires FreshId(name, i, s) == FreshId(name, j, t)
    ensures i == j
  {
    var a, c := IntToString(i), IntToString(j);
    var x := FreshId(name, i, s);
    assert x == name + "-" + a + "-" + IntToString(s);
    assert x == name + "-" + c + "-" + IntToString(t);
    assert |a| == |c|;
    assert a == x[|name| + 1..|name| + 1 + |a|];
    assert c == x[|name| + 1..|name| + 1 + |c|];
    IntToStringInjective(i, j);
  }

  /**
   * The new hand holds no id twice, provided the clock readings all have
   * the same width and no fresh id is already an existing tile's id.
   */
  lemma {:induction false} ReconcileDistinct(existing: seq<Tile>, letters: seq<string>, name: string, stamps: seq<int>)
    requires |stamps| == |letters|
    requires forall i :: 0 <= i < |stamps| ==> |IntToString(stamps[i])| == |IntToString(stamps[0])|
    requires forall i :: 0 <= i < |letters| ==> FreshId(name, i, stamps[i]) !in IdSet(existing)
    ensures var r := Reconcile(existing, letters, name, stamps);
      forall i, j :: 0 <= i < j < |r| ==> r[i].id != r[j].id
  {
    var r := Reconcile(existing, letters, name, stamps);
    forall i, j | 0 <= i < j < |r| ensures r[i].id != r[j].id {
      ReconcileOrigin(existing, letters, name, stamps, i);
      ReconcileOrigin(existing, letters, name, stamps, j);
      if r[j] in existing && r[j].id !in IdSet(r[..j]) {
        assert r[i] in r[..j];
      } else if r[i] in existing && r[i].id !in IdSet(r[..i]) {
        assert r[i].id in IdSet(existing);
      } else if r[i].id == r[j].id {
        FreshIdInjective(name, i, j, stamps[i], stamps[j]);
      }
    }
  }

  /**
   * When the first `m` letters are those of the first `m` existing tiles
   * (whose ids are distinct), those tiles come back unchanged, board state
   * and all, in their places.
   */
  lemma {:induction false} ReconcilePrefix(existing: seq<Tile>, letters: seq<string>, name: string, stamps: seq<int>, m: nat)
    requires |stamps| == |letters| && m <= |letters| && m <= |existing|
    requires forall i, j :: 0 <= i < j < |existing| ==> existing[i].id != existing[j].id
    requires forall i :: 0 <= i < m ==> letters[i] == existing[i].letter
    ensures Reconcile(existing, letters, name, stamps)[..m] == existing[..m]
    decreases |letters|
  {
    if |letters| > 0 {
      var n := |letters| - 1;
      if m <= n {
        ReconcilePrefix(existing, letters[..n], name, stamps[..n], m);
        ReconcileStart(existing, letters, name, stamps, n);
        TakeTake(Reconcile(existing, letters, name, stamps), m, n);
      } else {
        ReconcilePrefix(existing, letters[..n], name, stamps[..n], n);
        ReconcileKeepsNext(existing, letters, name, stamps);
        TakeAll(Reconcile(existing, letters, name, stamps));
      }
    }
  }

  /** One more letter, that of the next existing tile, keeps that tile. */
  lemma {:induction false} ReconcileKeepsNext(existing: seq<Tile>, letters: seq<string>, name: string, stamps: seq<int>)
    requires |stamps| == |letters| && 0 < |letters| <= |existing|
    requires forall i, j :: 0 <= i < j < |existing| ==> existing[i].id != existing[j].id
    requires letters[|letters| - 1] == existing[|letters| - 1].letter
    requires Reconcile(existing, letters[..|letters| - 1], name, stamps[..|letters| - 1]) == existing[..|letters| - 1]
    ensures Reconcile(existing, letters, name, stamps) == existing[..|letters|]
  {
    var n := |letters| - 1;
    var r0 := existing[..n];
    forall j | 0 <= j < n ensures existing[j].id in IdSet(r0) {
      assert existing[j] in r0;
    }
    forall u | u in r0 ensures u.id != existing[n].id {
      var j :| 0 <= j < n && r0[j] == u;
    }
    PickFirstUnused(existing, IdSet(r0), name, n, stamps[n]);
    TakeNext(existing, n);
  }

  /**
   * The tile at position `n` is picked when its id is unused, its letter
   * matches and every earlier tile's id is used.
   */
  lemma PickFirstUnused(existing: seq<Tile>, used: set<string>, name: string, n: nat, stamp: int)
    requires n < |existing| && existing[n].id !in used
    requires forall j :: 0 <= j < n ==> existing[j].id in used
    ensures Pick(existing, existing[n].letter, used, name, n, stamp) == existing[n]
  {
    var k := FindUnused(existing, existing[n].letter, used);
    assert !(k < n);
  }

  /** A hand with the same letters in the same order keeps every tile as it was. */
  lemma {:induction false} ReconcileSameHand(existing: seq<Tile>, name: string, stamps: seq<int>)
    requires |stamps| == |existing|
    requires forall i, j :: 0 <= i < j < |existing| ==> existing[i].id != existing[j].id
    ensures Reconcile(existing, Letters(existing), name, stamps) == existing
  {
    ReconcilePrefix(existing, Letters(existing), name, stamps, |existing|);
    assert existing[..|existing|] == existing;
  }
}
