/**
 * The browser helpers of the older jQuery client: the multiset
 * difference of two letter lists, and, over the 35 by 35 board of DOM
 * cells, a cell's neighbours, the words read along rows and columns,
 * and the check that the board may be submitted. The DOM is abstracted:
 * the board is the letter, if any, in each cell, or the list of cells
 * that hold a tile in document order.
 */
module Helpers {
  import opened Wrappers
  import opened Seqs
  import opened Grid
  import opened Runs
  import Text

  const Rows := 35
  const Columns := 35

  // ---------------------------------------------------------------------
  // findDifference

  /** `a` with, for each element of `b` in turn, the first remaining equal element taken out. */
  function Difference<T(==)>(a: seq<T>, b: seq<T>): seq<T>
    decreases |b|
  {
    if |b| == 0 then a else RemoveFirst(Difference(a, b[..|b| - 1]), b[|b| - 1])
  }

  /** `findDifference(a, b)`: a copy of `a` spliced once for each element of `b` found in it. */
  method FindDifference<T(==)>(a: seq<T>, b: seq<T>) returns (ret: seq<T>)
    ensures ret == Difference(a, b)
  {
    ret := a;
    for i := 0 to |b|
      invariant ret == Difference(a, b[..i])
    {
      var val := b[i];
      var index := IndexOf(ret, val);
      ghost var before := ret;
      if index > -1 {
        RemoveFirstIsSplice(ret, val);
        ret := ret[..index] + ret[index + 1..];
      }
      assert ret == RemoveFirst(before, val);
      DifferenceStep(a, b, i);
    }
    assert b[..|b|] == b;
  }

  lemma {:induction false} DifferenceStep<T>(a: seq<T>, b: seq<T>, i: nat)
    requires i < |b|
    ensures Difference(a, b[..i + 1]) == RemoveFirst(Difference(a, b[..i]), b[i])
  {
    assert b[..i + 1][..i] == b[..i];
  }

  /** The difference is the multiset difference: each element of `b` cancels one equal element of `a`. */
  lemma {:induction false} DifferenceMultiset<T>(a: seq<T>, b: seq<T>)
    ensures multiset(Difference(a, b)) == multiset(a) - multiset(b)
    decreases |b|
  {
    if |b| > 0 {
      var init := b[..|b| - 1];
      var x := b[|b| - 1];
      DifferenceMultiset(a, init);
      assert b == init + [x];
      assert multiset(b) == multiset(init) + multiset{x};
      MinusSnoc(multiset(a), multiset(init), x);
      var d := Difference(a, init);
      if x !in d {
        MinusAbsent(multiset(d), x);
      }
    }
  }

  lemma {:induction false} MinusSnoc<T>(m: multiset<T>, n: multiset<T>, x: T)
    ensures m - (n + multiset{x}) == (m - n) - multiset{x}
  {
    assert forall y :: (m - (n + multiset{x}))[y] == ((m - n) - multiset{x})[y];
  }

  lemma {:induction false} MinusAbsent<T>(m: multiset<T>, x: T)
    requires m[x] == 0
    ensures m - multiset{x} == m
  {
    assert forall y :: (m - multiset{x})[y] == m[y];
  }

  /** The surviving elements of `a` keep their order. */
  lemma {:induction false} DifferenceKeepsOrder<T>(a: seq<T>, b: seq<T>)
    ensures IsSubsequence(Difference(a, b), a)
    decreases |b|
  {
    if |b| == 0 {
      SubsequenceReflexive(a);
    } else {
      var d := Difference(a, b[..|b| - 1]);
      DifferenceKeepsOrder(a, b[..|b| - 1]);
      RemoveFirstIsSubsequence(d, b[|b| - 1]);
      SubsequenceTransitive(Difference(a, b), d, a);
    }
  }

  /** `findDifference(a, a)` is empty. */
  lemma {:induction false} DifferenceWithItself<T>(a: seq<T>)
    ensures Difference(a, a) == []
  {
    DifferenceMultiset(a, a);
    assert |multiset(Difference(a, a))| == 0;
  }

  // ---------------------------------------------------------------------
  // getTileNeighbors

  /** A cell of the 35 by 35 board. */
  predicate InGrid(p: Position) {
    0 <= p.row < Rows && 0 <= p.col < Columns
  }

  /**
   * `getTileNeighbors`: the cells above, below, left and right of `p`,
   * each only when `p` is not on that edge of the board.
   */
  function GetTileNeighbors(p: Position): (ns: seq<Position>)
    ensures |ns| <= 4 && Distinct(ns)
    ensures forall q :: q in ns ==> Adjacent(p, q)
    ensures InGrid(p) ==> forall q :: q in ns <==> InGrid(q) && Adjacent(p, q)
  {
    (if p.row > 0 then [Position(p.row - 1, p.col)] else []) +
    (if p.row < Rows - 1 then [Position(p.row + 1, p.col)] else []) +
    (if p.col > 0 then [Position(p.row, p.col - 1)] else []) +
    (if p.col < Columns - 1 then [Position(p.row, p.col + 1)] else [])
  }

  // ---------------------------------------------------------------------
  // getAllWords

  /** Row `r` of the board, columns 0 to 34. */
  function GridRow(at: Cells, r: int): (line: Line)
    ensures |line| == Columns
  {
    seq(Columns, c => at(r, c))
  }

  /** Column `c` of the board, rows 0 to 34. */
  function GridColumn(at: Cells, c: int): (line: Line)
    ensures |line| == Rows
  {
    seq(Rows, r => at(r, c))
  }

  /** What `getAllWords` takes from each row: the words of the runs an empty cell closes. */
  function RowScan(at: Cells): int -> seq<string> {
    (r: int) => Words(Runs.Closed(GridRow(at, r)), false)
  }

  /** What `getAllWords` takes from each column. */
  function ColumnScan(at: Cells): int -> seq<string> {
    (c: int) => Words(Runs.Closed(GridColumn(at, c)), false)
  }

  /** The list `getAllWords` returns: the rows' scans top to bottom, then the columns' left to right. */
  function ScannedWords(at: Cells): seq<string> {
    Flatten(Tabulate(RowScan(at), 0, Rows - 1)) + Flatten(Tabulate(ColumnScan(at), 0, Columns - 1))
  }

  /**
   * `getAllWords`, as written: a run is pushed only when an empty cell
   * follows it, so a run that reaches column 34 or row 34 is lost.
   */
  method GetAllWords(at: Cells) returns (allWords: seq<string>)
    ensures allWords == ScannedWords(at)
  {
    var across := GetAllWordsRows(at);
    var down := GetAllWordsColumns(at);
    allWords := across + down;
  }

  /** The row loop of `getAllWords`. */
  method GetAllWordsRows(at: Cells) returns (words: seq<string>)
    ensures words == Flatten(Tabulate(RowScan(at), 0, Rows - 1))
  {
    words := [];
    ghost var rows := RowScan(at);
    for r := 0 to Rows
      invariant words == Flatten(Tabulate(rows, 0, r - 1))
    {
      var found := ScanGridLine(GridRow(at, r));
      FlattenTabulateExtend(rows, 0, r - 1, found);
      words := words + found;
    }
  }

  /** The column loop of `getAllWords`. */
  method GetAllWordsColumns(at: Cells) returns (words: seq<string>)
    ensures words == Flatten(Tabulate(ColumnScan(at), 0, Columns - 1))
  {
    words := [];
    ghost var columns := ColumnScan(at);
    for c := 0 to Columns
      invariant words == Flatten(Tabulate(columns, 0, c - 1))
    {
      var found := ScanGridLine(GridColumn(at, c));
      FlattenTabulateExtend(columns, 0, c - 1, found);
      words := words + found;
    }
  }

  /** The inner loop of `getAllWords`: one row's or column's scan, whose open run is dropped. */
  method ScanGridLine(line: Line) returns (words: seq<string>)
    ensures words == Words(Runs.Closed(line), false)
  {
    var curWord;
    words, curWord := ScanLine(line, false);
  }

  /** The words of each row, every run longer than one code unit included. */
  function RowRuns(at: Cells): int -> seq<string> {
    (r: int) => LineWords(GridRow(at, r), false)
  }

  /** The words of each column, every run longer than one code unit included. */
  function ColumnRuns(at: Cells): int -> seq<string> {
    (c: int) => LineWords(GridColumn(at, c), false)
  }

  /** Every word on the board: the rows' words top to bottom, then the columns' left to right. */
  function AllWords(at: Cells): seq<string> {
    Flatten(Tabulate(RowRuns(at), 0, Rows - 1)) + Flatten(Tabulate(ColumnRuns(at), 0, Columns - 1))
  }

  /**
   * `getAllWords` with the run still open at the end of a row or column
   * pushed after the inner loop, as for the runs an empty cell closes.
   */
  method GetAllWordsFlushed(at: Cells) returns (allWords: seq<string>)
    ensures allWords == AllWords(at)
  {
    var across := GetAllWordsFlushedRows(at);
    var down := GetAllWordsFlushedColumns(at);
    allWords := across + down;
  }

  /** The row loop of the flushing `getAllWords`. */
  method GetAllWordsFlushedRows(at: Cells) returns (words: seq<string>)
    ensures words == Flatten(Tabulate(RowRuns(at), 0, Rows - 1))
  {
    words := [];
    ghost var rows := RowRuns(at);
    for r := 0 to Rows
      invariant words == Flatten(Tabulate(rows, 0, r - 1))
    {
      var found := ScanLineFlushed(GridRow(at, r));
      FlattenTabulateExtend(rows, 0, r - 1, found);
      words := words + found;
    }
  }

  /** The column loop of the flushing `getAllWords`. */
  method GetAllWordsFlushedColumns(at: Cells) returns (words: seq<string>)
    ensures words == Flatten(Tabulate(ColumnRuns(at), 0, Columns - 1))
  {
    words := [];
    ghost var columns := ColumnRuns(at);
    for c := 0 to Columns
      invariant words == Flatten(Tabulate(columns, 0, c - 1))
    {
      var found := ScanLineFlushed(GridColumn(at, c));
      FlattenTabulateExtend(columns, 0, c - 1, found);
      words := words + found;
    }
  }

  /** One line's scan followed by the push of the word still open at its end. */
  method ScanLineFlushed(line: Line) returns (words: seq<string>)
    ensures words == LineWords(line, false)
  {
    var curWord;
    words, curWord := ScanLine(line, false);
    if Text.Utf16Length(curWord) > 1 {
      words := words + [curWord];
    }
    LineWordsSplit(line, false);
  }

  /** A word is listed exactly when some row or some column of the board spells it. */
  lemma {:induction false} AllWordsSpelled(at: Cells, w: string)
    ensures w in AllWords(at) <==>
      (exists r :: 0 <= r <= Rows - 1 && w in RowRuns(at)(r)) ||
      (exists c :: 0 <= c <= Columns - 1 && w in ColumnRuns(at)(c))
  {
    FlattenTabulateMembers(RowRuns(at), 0, Rows - 1, w);
    FlattenTabulateMembers(ColumnRuns(at), 0, Columns - 1, w);
  }

  /** What `getAllWords` as written lists is a word of the board. */
  lemma {:induction false} ScannedWordsAreWords(at: Cells, w: string)
    requires w in ScannedWords(at)
    ensures w in AllWords(at)
  {
    FlattenTabulateMembers(RowScan(at), 0, Rows - 1, w);
    FlattenTabulateMembers(ColumnScan(at), 0, Columns - 1, w);
    AllWordsSpelled(at, w);
    if exists r :: 0 <= r <= Rows - 1 && w in RowScan(at)(r) {
      var r :| 0 <= r <= Rows - 1 && w in RowScan(at)(r);
      LineWordsSplit(GridRow(at, r), false);
      assert w in RowRuns(at)(r);
    } else {
      var c :| 0 <= c <= Columns - 1 && w in ColumnScan(at)(c);
      LineWordsSplit(GridColumn(at, c), false);
      assert w in ColumnRuns(at)(c);
    }
  }

  /**
   * A board whose top row is empty but for "a" and "b" in its last two
   * cells: that row spells "ab", yet the scan of `getAllWords` as written
   * takes nothing from it.
   */
  lemma {:induction false} CornerWordLost(at: Cells)
    requires forall c :: 0 <= c < Columns - 2 ==> at(0, c) == None
    requires at(0, Columns - 2) == Some("a") && at(0, Columns - 1) == Some("b")
    ensures RowScan(at)(0) == []
    ensures RowRuns(at)(0) == ["ab"]
  {
    var line := GridRow(at, 0);
    assert line == Blank(Columns - 2) + Filled(["a", "b"]);
    RunAtEnd(Columns - 2, ["a", "b"], false);
    assert Concat(["a", "b"]) == "ab" by {
      assert ["a", "b"][..1] == ["a"];
      assert ["a"][..0] == [];
    }
    Text.Utf16LengthBmp("ab");
  }

  // ---------------------------------------------------------------------
  // isValidBoard

  /** Every listed cell can be reached from `start` over the tiles. */
  ghost predicate AllReachable(occupied: set<Position>, start: Position, cells: seq<Position>) {
    forall x :: x in cells ==> Reachable(occupied, start, x)
  }

  /** Every tile next to a seen tile is seen or waiting on the stack. */
  predicate Frontier(occupied: set<Position>, seen: seq<Position>, stack: seq<Position>) {
    forall s, q :: s in seen && q in Neighbours(s) && q in occupied ==> q in seen || q in stack
  }

  /** How many stack entries are tiles already seen. */
  function SeenEntries(stack: seq<Position>, seen: seq<Position>): nat
    decreases |stack|
  {
    if |stack| == 0 then 0
    else SeenEntries(stack[..|stack| - 1], seen) + (if stack[|stack| - 1] in seen then 1 else 0)
  }

  /** What the search keeps true between two pops. */
  ghost predicate SearchState(tiles: seq<Position>, seen: seq<Position>, stack: seq<Position>) {
    var occupied := Elements(tiles);
    |tiles| > 0 &&
    Distinct(seen) && Elements(seen) <= occupied &&
    (forall x :: x in stack ==> x in occupied) &&
    AllReachable(occupied, tiles[0], seen) && AllReachable(occupied, tiles[0], stack) &&
    (tiles[0] in seen || stack == [tiles[0]]) &&
    Frontier(occupied, seen, stack)
  }

  /**
   * `isValidBoard`: false while the bench holds a tile; otherwise a
   * search from the first tile in document order, popping a stack and
   * pushing every unseen tile next to the popped one, must see every
   * tile. With no tile at all the search starts from `undefined` and
   * reading its row throws, which is `None` here. `tiles` lists the
   * cells that hold a tile, in document order.
   */
  method IsValidBoard(bench: nat, tiles: seq<Position>) returns (result: Option<bool>)
    requires Distinct(tiles) && forall i :: 0 <= i < |tiles| ==> InGrid(tiles[i])
    ensures bench > 0 ==> result == Some(false)
    ensures bench == 0 && |tiles| == 0 ==> result == None
    ensures bench == 0 && |tiles| > 0 ==>
      result.Some? && (result.value <==> forall t :: t in tiles ==> Reachable(Elements(tiles), tiles[0], t))
  {
    if bench > 0 {
      return Some(false);
    }
    if |tiles| == 0 {
      return None;
    }
    ghost var occupied := Elements(tiles);
    ReachableFromItself(occupied, tiles[0]);
    var stack := [tiles[0]];
    var seen: seq<Position> := [];
    while |stack| > 0
      invariant SearchState(tiles, seen, stack)
      decreases |occupied - Elements(seen)|, SeenEntries(stack, seen)
    {
      ghost var full := stack;
      var curTile := stack[|stack| - 1];
      stack := stack[..|stack| - 1];
      ghost var before := seen;
      if curTile !in seen {
        seen := seen + [curTile];
        SeeingShrinksUnseen(occupied, before, curTile);
      }
      PopKeeps(tiles, before, full, curTile, seen);
      ghost var popped := stack;
      stack := PushNeighbours(tiles, seen, stack, curTile);
      PushedKeeps(tiles, seen, popped, curTile, stack);
    }
    Covered(tiles, seen);
    result := Some(|seen| == |tiles|);
  }

  /**
   * The neighbour loop of one step: every tile next to `curTile` that is
   * not seen goes on the stack. `stack` is the stack after the pop.
   */
  method PushNeighbours(tiles: seq<Position>, seen: seq<Position>, stack: seq<Position>, curTile: Position)
    returns (stack': seq<Position>)
    requires |tiles| > 0 && Reachable(Elements(tiles), tiles[0], curTile)
    requires forall x :: x in stack ==> x in tiles
    requires AllReachable(Elements(tiles), tiles[0], stack)
    ensures forall x :: x in stack' ==> x in tiles
    ensures AllReachable(Elements(tiles), tiles[0], stack')
    ensures forall x :: x in stack ==> x in stack'
    ensures forall q :: q in GetTileNeighbors(curTile) && q in tiles ==> q in seen || q in stack'
    ensures SeenEntries(stack', seen) == SeenEntries(stack, seen)
  {
    stack' := stack;
    var neighbors := GetTileNeighbors(curTile);
    ghost var occupied := Elements(tiles);
    for k := 0 to |neighbors|
      invariant forall x :: x in stack' ==> x in tiles
      invariant AllReachable(occupied, tiles[0], stack')
      invariant forall x :: x in stack ==> x in stack'
      invariant forall j :: 0 <= j < k && neighbors[j] in tiles ==> neighbors[j] in seen || neighbors[j] in stack'
      invariant SeenEntries(stack', seen) == SeenEntries(stack, seen)
    {
      var neighbor := neighbors[k];
      if neighbor in tiles && neighbor !in seen {
        ReachableStep(occupied, tiles[0], curTile, neighbor);
        assert (stack' + [neighbor])[..|stack'|] == stack';
        stack' := stack' + [neighbor];
      }
    }
  }

  /** After the neighbour loop the search state holds again. */
  lemma {:induction false} PushedKeeps(tiles: seq<Position>, seen: seq<Position>, stack: seq<Position>,
                                       curTile: Position, stack': seq<Position>)
    requires Popped(tiles, seen, stack, curTile)
    requires forall i :: 0 <= i < |tiles| ==> InGrid(tiles[i])
    requires forall x :: x in stack' ==> x in tiles
    requires AllReachable(Elements(tiles), tiles[0], stack')
    requires forall x :: x in stack ==> x in stack'
    requires forall q :: q in GetTileNeighbors(curTile) && q in tiles ==> q in seen || q in stack'
    ensures SearchState(tiles, seen, stack')
  {
    var occupied := Elements(tiles);
    forall s, q | s in seen && q in Neighbours(s) && q in occupied ensures q in seen || q in stack' {
      if s == curTile {
        assert InGrid(q);
        assert q in GetTileNeighbors(curTile);
      }
    }
  }

  /** Every tile next to a seen tile other than `curTile` is seen, waiting on the stack, or `curTile` itself. */
  predicate FrontierBut(occupied: set<Position>, seen: seq<Position>, stack: seq<Position>, curTile: Position) {
    forall s, q :: s in seen && s != curTile && q in Neighbours(s) && q in occupied ==>
      q in seen || q in stack || q == curTile
  }

  /** The search's state once `curTile` is popped and seen, before its neighbours are pushed. */
  ghost predicate Popped(tiles: seq<Position>, seen: seq<Position>, stack: seq<Position>, curTile: Position) {
    var occupied := Elements(tiles);
    |tiles| > 0 && curTile in seen && curTile in occupied &&
    Distinct(seen) && Elements(seen) <= occupied &&
    (forall x :: x in stack ==> x in occupied) &&
    AllReachable(occupied, tiles[0], seen) && AllReachable(occupied, tiles[0], stack) &&
    tiles[0] in seen &&
    FrontierBut(occupied, seen, stack, curTile)
  }

  /** Seeing one more tile leaves fewer tiles unseen. */
  lemma {:induction false} SeeingShrinksUnseen(occupied: set<Position>, before: seq<Position>, curTile: Position)
    requires curTile in occupied && curTile !in before
    ensures |occupied - Elements(before + [curTile])| < |occupied - Elements(before)|
  {
    assert Elements(before + [curTile]) == Elements(before) + {curTile};
    assert curTile in occupied - Elements(before);
    SubsetSmaller(occupied - Elements(before + [curTile]), occupied - Elements(before));
  }

  /** Popping `curTile` off `full` and recording it as seen. */
  lemma {:induction false} PopKeeps(tiles: seq<Position>, before: seq<Position>, full: seq<Position>,
                                    curTile: Position, seen: seq<Position>)
    requires SearchState(tiles, before, full)
    requires |full| > 0 && curTile == full[|full| - 1]
    requires seen == if curTile in before then before else before + [curTile]
    ensures Popped(tiles, seen, full[..|full| - 1], curTile)
    ensures Reachable(Elements(tiles), tiles[0], curTile)
    ensures curTile in before ==> SeenEntries(full[..|full| - 1], before) < SeenEntries(full, before)
  {
    var occupied := Elements(tiles);
    var stack := full[..|full| - 1];
    assert full == stack + [curTile];
    assert curTile in stack + [curTile];
    if curTile !in before {
      DistinctAppend(before, curTile);
    }
    assert forall x :: x in stack ==> x in stack + [curTile];
    forall x | x in seen ensures Reachable(occupied, tiles[0], x) {
      if x != curTile {
        assert x in before;
      }
    }
    forall s, q | s in seen && s != curTile && q in Neighbours(s) && q in occupied
      ensures q in seen || q in stack || q == curTile
    {
      assert s in before;
      assert q in before || q in stack + [curTile];
    }
  }

  /**
   * When the stack is empty the seen tiles are closed under adjacency,
   * so they are all the tiles exactly when every tile is reachable.
   */
  lemma {:induction false} Covered(tiles: seq<Position>, seen: seq<Position>)
    requires Distinct(tiles) && SearchState(tiles, seen, [])
    ensures |seen| == |tiles| <==> forall t :: t in tiles ==> Reachable(Elements(tiles), tiles[0], t)
  {
    var occupied := Elements(tiles);
    var visited := Elements(seen);
    DistinctElements(seen);
    DistinctElements(tiles);
    if forall t :: t in tiles ==> Reachable(occupied, tiles[0], t) {
      SeenClosed(tiles, seen);
      forall t | t in occupied ensures t in visited {
        ClosedHoldsReachable(occupied, visited, tiles[0], t);
      }
      assert visited == occupied;
    }
    if |seen| == |tiles| {
      if visited < occupied {
        SubsetSmaller(visited, occupied);
      }
      assert visited == occupied;
      forall t | t in tiles ensures Reachable(occupied, tiles[0], t) {
        assert t in seen;
      }
    }
  }

  /** With the stack empty, no step over the tiles leaves the seen ones. */
  lemma {:induction false} SeenClosed(tiles: seq<Position>, seen: seq<Position>)
    requires SearchState(tiles, seen, [])
    ensures Grid.Closed(Elements(tiles), Elements(seen))
  {
    var occupied := Elements(tiles);
    var visited := Elements(seen);
    forall p | p in visited ensures NeighboursSeen(occupied, visited, p) {
      assert p in seen;
    }
  }
}
