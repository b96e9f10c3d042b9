/**
 * The bag of letter tiles shared by both revisions of the game engine:
 * the standard 144-tile distribution, its generation, the pops from the
 * end of the bag that deal tiles into hands, and the bookkeeping that
 * shows no tile is created or lost.
 */
module TileBag {
  import opened Wrappers
  import opened Seqs

  /** Number of tiles in the standard distribution. */
  const TotalTiles: nat := 144

  /**
   * TILE_FREQUENCIES: each entry is a count and the letters that occur
   * that many times, in the dictionary's insertion order.
   */
  const TileFrequencies: seq<(nat, seq<char>)> := [
    (2, "JKQXZ"), (3, "BCFHMPVWY"), (4, "G"), (5, "L"), (6, "DSU"), (8, "N"),
    (9, "TR"), (11, "O"), (12, "I"), (13, "A"), (18, "E")]

  /** `count` copies of `letter`. */
  function Repeat(letter: char, count: nat): (r: seq<char>)
    ensures |r| == count
  {
    if count == 0 then [] else Repeat(letter, count - 1) + [letter]
  }

  /** The tiles the generating loops append for `letters[j..]`, each `count` times. */
  function ExpandLetters(count: nat, letters: seq<char>, j: nat): seq<char>
    requires j <= |letters|
    decreases |letters| - j
  {
    if j == |letters| then [] else Repeat(letters[j], count) + ExpandLetters(count, letters, j + 1)
  }

  /** The tiles the generating loops append for the entries of `table` from `i` on. */
  function ExpandFrom(table: seq<(nat, seq<char>)>, i: nat): seq<char>
    requires i <= |table|
    decreases |table| - i
  {
    if i == |table| then []
    else ExpandLetters(table[i].0, table[i].1, 0) + ExpandFrom(table, i + 1)
  }

  /** How many tiles of `c` one entry lists, over its letters from `j` on. */
  function EntryCount(count: nat, letters: seq<char>, j: nat, c: char): nat
    requires j <= |letters|
    decreases |letters| - j
  {
    if j == |letters| then 0
    else (if letters[j] == c then count else 0) + EntryCount(count, letters, j + 1, c)
  }

  /** How many tiles of `c` the entries of `table` from `i` on list. */
  function TableCountFrom(table: seq<(nat, seq<char>)>, i: nat, c: char): nat
    requires i <= |table|
    decreases |table| - i
  {
    if i == |table| then 0
    else EntryCount(table[i].0, table[i].1, 0, c) + TableCountFrom(table, i + 1, c)
  }

  /** How many tiles of `c` TILE_FREQUENCIES lists. */
  function TableCount(c: char): nat {
    TableCountFrom(TileFrequencies, 0, c)
  }

  /** How many tiles the entries of `table` from `i` on list. */
  function TableSizeFrom(table: seq<(nat, seq<char>)>, i: nat): nat
    requires i <= |table|
    decreases |table| - i
  {
    if i == |table| then 0 else table[i].0 * |table[i].1| + TableSizeFrom(table, i + 1)
  }

  lemma {:induction false} RepeatCount(x: char, n: nat, c: char)
    ensures multiset(Repeat(x, n))[c] == if c == x then n else 0
  {
    if n > 0 {
      RepeatCount(x, n - 1, c);
      assert Repeat(x, n) == Repeat(x, n - 1) + [x];
    }
  }

  lemma {:induction false} ExpandLettersCount(count: nat, letters: seq<char>, j: nat, c: char)
    requires j <= |letters|
    ensures multiset(ExpandLetters(count, letters, j))[c] == EntryCount(count, letters, j, c)
    ensures |ExpandLetters(count, letters, j)| == count * (|letters| - j)
    decreases |letters| - j
  {
    if j < |letters| {
      ExpandLettersCount(count, letters, j + 1, c);
      RepeatCount(letters[j], count, c);
      assert count * (|letters| - j) == count + count * (|letters| - (j + 1));
    }
  }

  lemma {:induction false} ExpandFromCount(table: seq<(nat, seq<char>)>, i: nat, c: char)
    requires i <= |table|
    ensures multiset(ExpandFrom(table, i))[c] == TableCountFrom(table, i, c)
    ensures |ExpandFrom(table, i)| == TableSizeFrom(table, i)
    decreases |table| - i
  {
    if i < |table| {
      var head, tail := ExpandLetters(table[i].0, table[i].1, 0), ExpandFrom(table, i + 1);
      ExpandFromCount(table, i + 1, c);
      ExpandLettersCount(table[i].0, table[i].1, 0, c);
      assert ExpandFrom(table, i) == head + tail;
      assert multiset(head + tail) == multiset(head) + multiset(tail);
    }
  }

  /**
   * The bag the generating loops build from `table` holds `TableSizeFrom`
   * tiles, and of each letter as many as the table lists.
   */
  lemma {:induction false} ExpandMatchesTable(table: seq<(nat, seq<char>)>)
    ensures |ExpandFrom(table, 0)| == TableSizeFrom(table, 0)
    ensures forall c :: multiset(ExpandFrom(table, 0))[c] == TableCountFrom(table, 0, c)
  {
    forall c ensures multiset(ExpandFrom(table, 0))[c] == TableCountFrom(table, 0, c) {
      ExpandFromCount(table, 0, c);
    }
    ExpandFromCount(table, 0, 'A');
  }

  /** TILE_FREQUENCIES lists 144 tiles. */
  lemma {:induction false} TableSize()
    ensures TableSizeFrom(TileFrequencies, 0) == TotalTiles
  {
  }

  /** `count` copies of `letter` appended to `tiles`: the innermost generating loop. */
  method AppendCopies(tiles: seq<char>, letter: char, count: nat) returns (r: seq<char>)
    ensures r == tiles + Repeat(letter, count)
  {
    r := tiles;
    var k := 0;
    while k < count
      invariant 0 <= k <= count
      invariant r == tiles + Repeat(letter, k)
    {
      assert Repeat(letter, k + 1) == Repeat(letter, k) + [letter];
      r := r + [letter];
      k := k + 1;
    }
  }

  /** One entry's letters, each appended `count` times: the middle generating loop. */
  method AppendEntry(tiles: seq<char>, count: nat, letters: seq<char>) returns (r: seq<char>)
    ensures r == tiles + ExpandLetters(count, letters, 0)
  {
    r := tiles;
    var j := 0;
    while j < |letters|
      invariant 0 <= j <= |letters|
      invariant r + ExpandLetters(count, letters, j) == tiles + ExpandLetters(count, letters, 0)
    {
      var before := r;
      r := AppendCopies(r, letters[j], count);
      assert r + ExpandLetters(count, letters, j + 1) == before + ExpandLetters(count, letters, j);
      j := j + 1;
    }
  }

  /**
   * The three nested loops of the source (entries, letters, copies) over a
   * frequency table, appending each letter as many times as its entry says.
   */
  method Expand(table: seq<(nat, seq<char>)>) returns (tiles: seq<char>)
    ensures tiles == ExpandFrom(table, 0)
  {
    tiles := [];
    var i := 0;
    while i < |table|
      invariant 0 <= i <= |table|
      invariant tiles + ExpandFrom(table, i) == ExpandFrom(table, 0)
    {
      var before := tiles;
      tiles := AppendEntry(tiles, table[i].0, table[i].1);
      assert tiles + ExpandFrom(table, i + 1) == before + ExpandFrom(table, i);
      i := i + 1;
    }
  }

  /**
   * `m` holds exactly the tiles of a complete game: of each letter as many
   * as TILE_FREQUENCIES lists.
   */
  ghost predicate IsFullSet(m: multiset<char>) {
    forall c {:trigger TableCount(c)} :: m[c] == TableCount(c)
  }

  /** A complete set of tiles has 144 tiles. */
  lemma {:induction false} FullSetSize(m: multiset<char>)
    requires IsFullSet(m)
    ensures |m| == TotalTiles
  {
    var generated := multiset(ExpandFrom(TileFrequencies, 0));
    forall c ensures m[c] == generated[c] {
      assert m[c] == TableCount(c);
      ExpandFromCount(TileFrequencies, 0, c);
    }
    assert m == generated;
    ExpandFromCount(TileFrequencies, 0, 'A');
    TableSize();
  }

  /** Two complete sets of tiles are the same multiset. */
  lemma {:induction false} FullSetsEqual(m: multiset<char>, n: multiset<char>)
    requires IsFullSet(m) && IsFullSet(n)
    ensures m == n
  {
    forall c ensures m[c] == n[c] {
      assert m[c] == TableCount(c);
    }
  }

  /** Builds the bag of `__init__` and `reset` before it is shuffled. */
  method GenerateTiles() returns (tiles: seq<char>)
    ensures |tiles| == TotalTiles
    ensures IsFullSet(multiset(tiles))
  {
    tiles := Expand(TileFrequencies);
    ExpandMatchesTable(TileFrequencies);
    TableSize();
  }

  /** `random.shuffle`: the tiles come back in an unspecified order. */
  method Shuffle(tiles: seq<char>) returns (shuffled: seq<char>)
    ensures multiset(shuffled) == multiset(tiles)
  {
    shuffled :| multiset(shuffled) == multiset(tiles);
  }

  /**
   * The tier table of `_divy_out_tiles`: tiles dealt to each player for a
   * player count, or `None` where the source raises "Invalid number of
   * players". Every tier leaves enough tiles for at least one more peel.
   */
  function TilesPerPlayer(n: int): (k: Option<nat>)
    ensures k.Some? <==> 2 <= n <= 8
    ensures k.Some? ==> n * k.value + n <= TotalTiles
    ensures k.Some? ==> Need(n, k.value) + n <= TotalTiles
  {
    if 2 <= n <= 4 then NeedIsProduct(n, 21); Some(21)
    else if 5 <= n <= 6 then NeedIsProduct(n, 15); Some(15)
    else if 7 <= n <= 8 then NeedIsProduct(n, 11); Some(11)
    else None
  }

  /** The `k` tiles that `k` successive `pop()`s take off the end of `bag`, in the order taken. */
  function Popped(bag: seq<char>, k: nat): (popped: seq<char>)
    requires k <= |bag|
    ensures |popped| == k
  {
    if k == 0 then [] else Popped(bag, k - 1) + [bag[|bag| - k]]
  }

  /** One pop takes the last tile. */
  lemma {:induction false} PoppedOne(bag: seq<char>)
    requires 0 < |bag|
    ensures Popped(bag, 1) == [bag[|bag| - 1]]
  {
    assert Popped(bag, 0) == [];
  }

  /** The `i`-th tile popped is the `i`-th from the end of the bag. */
  lemma {:induction false} PoppedAt(bag: seq<char>, k: nat, i: nat)
    requires i < k <= |bag|
    ensures Popped(bag, k)[i] == bag[|bag| - 1 - i]
  {
    if i < k - 1 {
      PoppedAt(bag, k - 1, i);
    }
  }

  /** Popping `k` tiles splits the bag: what is left and what was taken make up the bag. */
  lemma {:induction false} PoppedSplitsBag(bag: seq<char>, k: nat)
    requires k <= |bag|
    ensures multiset(bag[..|bag| - k]) + multiset(Popped(bag, k)) == multiset(bag)
  {
    if k > 0 {
      PoppedSplitsBag(bag, k - 1);
      assert bag[..|bag| - k + 1] == bag[..|bag| - k] + [bag[|bag| - k]];
    } else {
      assert bag[..|bag|] == bag;
    }
  }

  /** All tiles held in hands, counted with multiplicity. */
  ghost function HandsMultiset(hands: seq<seq<char>>): multiset<char> {
    if |hands| == 0 then multiset{}
    else HandsMultiset(hands[..|hands| - 1]) + multiset(hands[|hands| - 1])
  }

  /** The number of tiles held in hands. */
  function HandsSize(hands: seq<seq<char>>): nat {
    if |hands| == 0 then 0
    else HandsSize(hands[..|hands| - 1]) + |hands[|hands| - 1]|
  }

  lemma {:induction false} HandsMultisetSize(hands: seq<seq<char>>)
    ensures |HandsMultiset(hands)| == HandsSize(hands)
  {
    if |hands| > 0 {
      HandsMultisetSize(hands[..|hands| - 1]);
    }
  }

  /** Replacing one hand replaces its tiles in the total and leaves the rest. */
  lemma {:induction false} HandsMultisetUpdate(hands: seq<seq<char>>, i: nat, h: seq<char>)
    requires i < |hands|
    ensures HandsMultiset(hands[i := h]) + multiset(hands[i]) == HandsMultiset(hands) + multiset(h)
  {
    var last := |hands| - 1;
    if i == last {
      assert hands[i := h][..last] == hands[..last];
    } else {
      HandsMultisetUpdate(hands[..last], i, h);
      var init := hands[..last];
      assert hands[i := h][..last] == init[i := h];
      assert init[i] == hands[i];
      calc {
        HandsMultiset(hands[i := h]) + multiset(hands[i]);
        HandsMultiset(init[i := h]) + multiset(hands[last]) + multiset(hands[i]);
        HandsMultiset(init[i := h]) + multiset(init[i]) + multiset(hands[last]);
        HandsMultiset(init) + multiset(h) + multiset(hands[last]);
        HandsMultiset(init) + multiset(hands[last]) + multiset(h);
        HandsMultiset(hands) + multiset(h);
      }
    }
  }

  /** Empty hands hold no tiles. */
  lemma {:induction false} EmptyHandsHoldNothing(hands: seq<seq<char>>)
    requires forall i :: 0 <= i < |hands| ==> hands[i] == []
    ensures HandsMultiset(hands) == multiset{}
  {
    if |hands| > 0 {
      EmptyHandsHoldNothing(hands[..|hands| - 1]);
    }
  }

  /**
   * Moving tiles between the bag and hand `i` that keeps the two together
   * the same keeps the bag and all hands together the same.
   */
  lemma {:induction false} MoveIntoHand(bag: seq<char>, hands: seq<seq<char>>, i: nat, bag': seq<char>, hand: seq<char>)
    requires i < |hands|
    requires multiset(bag') + multiset(hand) == multiset(bag) + multiset(hands[i])
    ensures multiset(bag') + HandsMultiset(hands[i := hand]) == multiset(bag) + HandsMultiset(hands)
  {
    HandsMultisetUpdate(hands, i, hand);
    var after, before := HandsMultiset(hands[i := hand]), HandsMultiset(hands);
    forall c ensures (multiset(bag') + after)[c] == (multiset(bag) + before)[c] {
      assert (after + multiset(hands[i]))[c] == (before + multiset(hand))[c];
      assert (multiset(bag') + multiset(hand))[c] == (multiset(bag) + multiset(hands[i]))[c];
    }
  }

  /** How many tiles a deal of `num` tiles to each of `players` players takes, one player at a time. */
  function Need(players: nat, num: nat): (n: nat)
    ensures num == 1 ==> n == players
  {
    if players == 0 then 0 else Need(players - 1, num) + num
  }

  /** A deal of `num` tiles to each of `players` players takes `players * num` tiles. */
  lemma {:induction false} NeedIsProduct(players: nat, num: nat)
    ensures Need(players, num) == players * num
  {
    if players > 0 {
      NeedIsProduct(players - 1, num);
      assert players * num == (players - 1) * num + num;
    }
  }

  /**
   * The hands after each player in order appends `num` tiles popped off the
   * end of `bag`: the first player takes the last `num` tiles, the next
   * player the `num` before those, and so on.
   */
  function Deal(bag: seq<char>, hands: seq<seq<char>>, num: nat): (dealt: seq<seq<char>>)
    requires Need(|hands|, num) <= |bag|
    ensures |dealt| == |hands|
    decreases |hands|
  {
    if |hands| == 0 then []
    else [hands[0] + Popped(bag, num)] + Deal(bag[..|bag| - num], hands[1..], num)
  }

  /**
   * Player `p` ends up with its old hand followed by the `num` tiles popped
   * from what the `p` players before it left in the bag.
   */
  lemma {:induction false} DealAt(bag: seq<char>, hands: seq<seq<char>>, num: nat, p: nat)
    requires Need(|hands|, num) <= |bag| && p < |hands|
    ensures Need(p, num) + num <= |bag|
    ensures Deal(bag, hands, num)[p] == hands[p] + Popped(bag[..|bag| - Need(p, num)], num)
    decreases p
  {
    if p == 0 {
      assert bag[..|bag| - 0] == bag;
    } else {
      var rest := bag[..|bag| - num];
      DealAt(rest, hands[1..], num, p - 1);
      assert rest[..|rest| - Need(p - 1, num)] == bag[..|bag| - Need(p, num)];
    }
  }

  /** Dealing one tile each gives player `p` the `p`-th tile from the end of the bag. */
  lemma {:induction false} DealOneAt(bag: seq<char>, hands: seq<seq<char>>, p: nat)
    requires |hands| <= |bag| && p < |hands|
    ensures Deal(bag, hands, 1)[p] == hands[p] + [bag[|bag| - 1 - p]]
  {
    var rest := bag[..|bag| - p];
    calc {
      Deal(bag, hands, 1)[p];
    == { DealAt(bag, hands, 1, p); assert Need(p, 1) == p; }
      hands[p] + Popped(rest, 1);
    == { PoppedOne(rest); }
      hands[p] + [rest[|rest| - 1]];
    }
  }

  /** The first player's turn of a deal, and the rest of the deal on what it leaves. */
  lemma {:induction false} DealUnfold(bag: seq<char>, hands: seq<seq<char>>, num: nat)
    requires 0 < |hands| && Need(|hands|, num) <= |bag|
    ensures num <= |bag| && Need(|hands| - 1, num) <= |bag| - num
    ensures Deal(bag, hands, num)
            == [hands[0] + Popped(bag, num)] + Deal(bag[..|bag| - num], hands[1..], num)
  {
  }

  /** Replacing element `i` moves it from the part still to come to the part done. */
  lemma {:induction false} UpdateSplice<T>(s: seq<T>, i: nat, x: T, later: seq<T>)
    requires i < |s|
    ensures s[i..][1..] == s[i := x][i + 1..]
    ensures s[..i] + ([x] + later) == s[i := x][..i + 1] + later
  {
    assert s[i := x][..i + 1] == s[..i] + [x];
  }

  /**
   * One turn of a dealing loop: player `i` appends the `num` tiles popped
   * off the end of the bag, and the deal still to come is the rest of the
   * players' turns on what is left.
   */
  lemma {:induction false} DealStep(bag: seq<char>, dealt: seq<seq<char>>, num: nat, i: nat)
    requires i < |dealt| && Need(|dealt| - i, num) <= |bag|
    ensures num <= |bag| && Need(|dealt| - (i + 1), num) <= |bag| - num
    ensures var after := dealt[i := dealt[i] + Popped(bag, num)];
            dealt[..i] + Deal(bag, dealt[i..], num)
            == after[..i + 1] + Deal(bag[..|bag| - num], after[i + 1..], num)
  {
    var hand := dealt[i] + Popped(bag, num);
    var later := Deal(bag[..|bag| - num], dealt[i..][1..], num);
    DealUnfold(bag, dealt[i..], num);
    assert dealt[i..][0] == dealt[i];
    assert Deal(bag, dealt[i..], num) == [hand] + later;
    UpdateSplice(dealt, i, hand, later);
  }

  /** What a deal leaves after one more player's turn. */
  lemma {:induction false} LeftAfterTurn(bag: seq<char>, players: nat, num: nat)
    requires 0 < players && Need(players, num) <= |bag|
    ensures num <= |bag|
    ensures bag[..|bag| - Need(players, num)]
            == bag[..|bag| - num][..|bag| - num - Need(players - 1, num)]
  {
  }

  /**
   * `_divy_out_tiles`' loops: for each player in order, `num` times,
   * append `tiles.pop()` to that player's hand.
   */
  method DealTiles(tiles: seq<char>, hands: seq<seq<char>>, num: nat)
    returns (bag: seq<char>, dealt: seq<seq<char>>)
    requires Need(|hands|, num) <= |tiles|
    ensures bag == tiles[..|tiles| - Need(|hands|, num)]
    ensures dealt == Deal(tiles, hands, num)
    ensures multiset(bag) + HandsMultiset(dealt) == multiset(tiles) + HandsMultiset(hands)
  {
    bag, dealt := tiles, hands;
    var i := 0;
    while i < |hands|
      invariant 0 <= i <= |hands| && |dealt| == |hands|
      invariant Need(|hands| - i, num) <= |bag|
      invariant tiles[..|tiles| - Need(|hands|, num)] == bag[..|bag| - Need(|hands| - i, num)]
      invariant Deal(tiles, hands, num) == dealt[..i] + Deal(bag, dealt[i..], num)
      invariant multiset(bag) + HandsMultiset(dealt) == multiset(tiles) + HandsMultiset(hands)
    {
      LeftAfterTurn(bag, |hands| - i, num);
      bag, dealt := DealTurn(bag, dealt, num, i);
      i := i + 1;
    }
    assert bag[..|bag| - 0] == bag;
  }

  /** One turn of `_divy_out_tiles`' outer loop: player `i` appends `num` tiles popped off the bag. */
  method DealTurn(bag: seq<char>, dealt: seq<seq<char>>, num: nat, i: nat)
    returns (rest: seq<char>, after: seq<seq<char>>)
    requires i < |dealt| && Need(|dealt| - i, num) <= |bag|
    ensures num <= |bag| && rest == bag[..|bag| - num] && |after| == |dealt|
    ensures Need(|dealt| - (i + 1), num) <= |rest|
    ensures dealt[..i] + Deal(bag, dealt[i..], num) == after[..i + 1] + Deal(rest, after[i + 1..], num)
    ensures multiset(rest) + HandsMultiset(after) == multiset(bag) + HandsMultiset(dealt)
  {
    DealStep(bag, dealt, num, i);
    var hand;
    rest, hand := DrawInto(bag, dealt[i], num);
    MoveIntoHand(bag, dealt, i, rest, hand);
    after := dealt[i := hand];
  }

  /** `peel`'s loop: each player in order appends one `tiles.pop()`, a deal of one tile each. */
  method PeelRound(tiles: seq<char>, hands: seq<seq<char>>)
    returns (bag: seq<char>, dealt: seq<seq<char>>)
    requires |hands| <= |tiles|
    ensures bag == tiles[..|tiles| - |hands|]
    ensures dealt == Deal(tiles, hands, 1)
    ensures multiset(bag) + HandsMultiset(dealt) == multiset(tiles) + HandsMultiset(hands)
  {
    bag, dealt := tiles, hands;
    var i := 0;
    while i < |hands|
      invariant 0 <= i <= |hands| && |dealt| == |hands|
      invariant bag == tiles[..|tiles| - i]
      invariant Deal(tiles, hands, 1) == dealt[..i] + Deal(bag, dealt[i..], 1)
      invariant multiset(bag) + HandsMultiset(dealt) == multiset(tiles) + HandsMultiset(hands)
    {
      bag, dealt := PeelTurn(bag, dealt, i);
      i := i + 1;
    }
  }

  /** One turn of `peel`'s loop: player `i` appends `tiles.pop()`. */
  method PeelTurn(bag: seq<char>, dealt: seq<seq<char>>, i: nat)
    returns (rest: seq<char>, after: seq<seq<char>>)
    requires i < |dealt| && |dealt| - i <= |bag|
    ensures rest == bag[..|bag| - 1] && |after| == |dealt|
    ensures dealt[..i] + Deal(bag, dealt[i..], 1) == after[..i + 1] + Deal(rest, after[i + 1..], 1)
    ensures multiset(rest) + HandsMultiset(after) == multiset(bag) + HandsMultiset(dealt)
  {
    DealStep(bag, dealt, 1, i);
    var hand;
    rest, hand := PopOnto(bag, dealt[i]);
    MoveIntoHand(bag, dealt, i, rest, hand);
    after := dealt[i := hand];
  }

  /** `hand.append(bag.pop())`. */
  method PopOnto(bag: seq<char>, hand: seq<char>) returns (rest: seq<char>, drawn: seq<char>)
    requires 0 < |bag|
    ensures rest == bag[..|bag| - 1] && drawn == hand + Popped(bag, 1)
    ensures multiset(rest) + multiset(drawn) == multiset(bag) + multiset(hand)
  {
    var top := bag[|bag| - 1];
    rest, drawn := bag[..|bag| - 1], hand + [top];
    assert bag == rest + [top];
  }

  /** `swap`'s loop: the hand appends `tiles.pop()` `count` times. */
  method DrawInto(tiles: seq<char>, hand: seq<char>, count: nat)
    returns (bag: seq<char>, drawn: seq<char>)
    requires count <= |tiles|
    ensures bag == tiles[..|tiles| - count]
    ensures drawn == hand + Popped(tiles, count)
    ensures multiset(bag) + multiset(drawn) == multiset(tiles) + multiset(hand)
  {
    bag, drawn := tiles, hand;
    var k := 0;
    while k < count
      invariant 0 <= k <= count
      invariant bag == tiles[..|tiles| - k]
      invariant drawn == hand + Popped(tiles, k)
    {
      assert Popped(tiles, k + 1) == Popped(tiles, k) + [bag[|bag| - 1]];
      drawn := drawn + [bag[|bag| - 1]];
      bag := bag[..|bag| - 1];
      k := k + 1;
    }
    PoppedSplitsBag(tiles, count);
  }

  /**
   * The end of `swap`: the hand gives up its first `letter`, which goes
   * back into the bag, and the bag is shuffled.
   */
  method ReturnTile(bag: seq<char>, hand: seq<char>, letter: char)
    returns (bag': seq<char>, hand': seq<char>)
    requires letter in hand
    ensures hand' == RemoveFirst(hand, letter)
    ensures |hand'| == |hand| - 1 && |bag'| == |bag| + 1
    ensures multiset(bag') == multiset(bag) + multiset{letter}
    ensures multiset(bag') + multiset(hand') == multiset(bag) + multiset(hand)
  {
    hand' := RemoveFirst(hand, letter);
    var returned := bag + [letter];
    bag' := Shuffle(returned);
    assert |multiset(bag')| == |multiset(returned)|;
  }

  /**
   * The tile movements of `swap`: the hand takes `count` tiles popped from
   * the bag, gives up its first copy of `letter` (one it held before the
   * draw), and the letter goes back into the bag, which is then shuffled.
   */
  method SwapTiles(tiles: seq<char>, hand: seq<char>, letter: char, count: nat)
    returns (bag: seq<char>, swapped: seq<char>)
    requires letter in hand && count <= |tiles|
    ensures swapped == RemoveFirst(hand, letter) + Popped(tiles, count)
    ensures |swapped| == |hand| + count - 1 && |bag| == |tiles| - count + 1
    ensures multiset(bag) == multiset(tiles[..|tiles| - count]) + multiset{letter}
    ensures multiset(bag) + multiset(swapped) == multiset(tiles) + multiset(hand)
  {
    var rest, drawn := DrawInto(tiles, hand, count);
    RemoveFirstAppend(hand, Popped(tiles, count), letter);
    bag, swapped := ReturnTile(rest, drawn, letter);
  }

  /** The bag after a swap: the bag less its last `count` tiles, plus the returned letter, in any order. */
  predicate BagAfterSwap(bag: seq<char>, tiles: seq<char>, count: nat, letter: char) {
    count <= |tiles| && multiset(bag) == multiset(tiles[..|tiles| - count]) + multiset{letter}
  }

  /** `swap` on the players' hands: player `p` swaps `letter` for `count` tiles popped from the bag. */
  method SwapInHands(tiles: seq<char>, hands: seq<seq<char>>, p: nat, letter: char, count: nat)
    returns (bag: seq<char>, swapped: seq<seq<char>>)
    requires p < |hands| && letter in hands[p] && count <= |tiles|
    ensures swapped == hands[p := RemoveFirst(hands[p], letter) + Popped(tiles, count)]
    ensures |swapped[p]| == |hands[p]| + count - 1 && |bag| == |tiles| - count + 1
    ensures BagAfterSwap(bag, tiles, count, letter)
    ensures multiset(bag) + HandsMultiset(swapped) == multiset(tiles) + HandsMultiset(hands)
  {
    var hand;
    bag, hand := SwapTiles(tiles, hands[p], letter, count);
    MoveIntoHand(tiles, hands, p, bag, hand);
    swapped := hands[p := hand];
  }

  /** The tile generation of `__init__` and `reset` in both game revisions followed by `random.shuffle`. */
  method NewBag() returns (tiles: seq<char>)
    ensures |tiles| == TotalTiles && IsFullSet(multiset(tiles))
  {
    var generated := GenerateTiles();
    tiles := Shuffle(generated);
    assert |multiset(tiles)| == |multiset(generated)|;
  }

  /** The last loop of `reset`: every player keeps a place, with an empty hand. */
  method EmptyHands(hands: seq<seq<char>>) returns (emptied: seq<seq<char>>)
    ensures |emptied| == |hands| && forall p :: 0 <= p < |emptied| ==> emptied[p] == []
    ensures HandsMultiset(emptied) == multiset{}
  {
    emptied := hands;
    var i := 0;
    while i < |emptied|
      invariant 0 <= i <= |emptied| && |emptied| == |hands|
      invariant forall p :: 0 <= p < i ==> emptied[p] == []
    {
      emptied := emptied[i := []];
      i := i + 1;
    }
    EmptyHandsHoldNothing(emptied);
  }

  /** How many tiles a swap draws: `min(3, tiles_remaining)`. */
  function SwapCount(remaining: nat): (n: nat)
    ensures n <= remaining && n <= 3
    ensures n == 3 || n == remaining
  {
    if remaining < 3 then remaining else 3
  }
}
