/**
 * Cells of a board addressed by row and column, their four orthogonal
 * neighbours, and reachability over a set of occupied cells: the notion
 * of "connected" that both the client board store and the older
 * board helpers check with a graph search.
 */
module Grid {
  datatype Position = Position(row: int, col: int)

  /** `p` and `q` share an edge. */
  predicate Adjacent(p: Position, q: Position) {
    (p.row == q.row && (p.col - q.col == 1 || q.col - p.col == 1)) ||
    (p.col == q.col && (p.row - q.row == 1 || q.row - p.row == 1))
  }

  /** The four neighbours in the order the searches visit them: up, down, left, right. */
  function Neighbours(p: Position): (ns: seq<Position>)
    ensures |ns| == 4
    ensures forall q :: q in ns <==> Adjacent(p, q)
  {
    [Position(p.row - 1, p.col), Position(p.row + 1, p.col),
     Position(p.row, p.col - 1), Position(p.row, p.col + 1)]
  }

  /** A walk over occupied cells, each step to an adjacent cell. */
  predicate IsPath(occupied: set<Position>, path: seq<Position>) {
    |path| > 0 &&
    (forall i :: 0 <= i < |path| ==> path[i] in occupied) &&
    (forall i :: 0 <= i < |path| - 1 ==> Adjacent(path[i], path[i + 1]))
  }

  /** Some walk over occupied cells leads from `s` to `t`. */
  ghost predicate Reachable(occupied: set<Position>, s: Position, t: Position) {
    exists path :: IsPath(occupied, path) && path[0] == s && path[|path| - 1] == t
  }

  /** Every occupied neighbour of `p` is in `seen`. */
  predicate NeighboursSeen(occupied: set<Position>, seen: set<Position>, p: Position) {
    forall q :: q in Neighbours(p) && q in occupied ==> q in seen
  }

  /** No walk over occupied cells leaves `seen`. */
  predicate Closed(occupied: set<Position>, seen: set<Position>) {
    forall p :: p in seen ==> NeighboursSeen(occupied, seen, p)
  }

  lemma {:induction false} ReachableFromItself(occupied: set<Position>, s: Position)
    requires s in occupied
    ensures Reachable(occupied, s, s)
  {
    assert IsPath(occupied, [s]);
  }

  /** A reachable cell's occupied neighbour is reachable too. */
  lemma {:induction false} ReachableStep(occupied: set<Position>, s: Position, t: Position, u: Position)
    requires Reachable(occupied, s, t) && u in occupied && Adjacent(t, u)
    ensures Reachable(occupied, s, u)
  {
    var path :| IsPath(occupied, path) && path[0] == s && path[|path| - 1] == t;
    var longer := path + [u];
    assert forall i :: 0 <= i < |path| ==> longer[i] == path[i];
    assert IsPath(occupied, longer);
  }

  /**
   * A set of cells that holds `s` and that no walk leaves holds every
   * cell reachable from `s`: the completeness half of a graph search.
   */
  lemma {:induction false} ClosedHoldsReachable(occupied: set<Position>, seen: set<Position>, s: Position, t: Position)
    requires s in seen && Closed(occupied, seen) && Reachable(occupied, s, t)
    ensures t in seen
  {
    var path :| IsPath(occupied, path) && path[0] == s && path[|path| - 1] == t;
    var i := 0;
    while i < |path| - 1
      invariant 0 <= i < |path|
      invariant path[i] in seen
    {
      assert NeighboursSeen(occupied, seen, path[i]);
      assert Adjacent(path[i], path[i + 1]) && path[i + 1] in occupied;
      assert path[i + 1] in Neighbours(path[i]);
      i := i + 1;
    }
  }

  /** Both ends of a walk are occupied. */
  lemma {:induction false} ReachableEnds(occupied: set<Position>, s: Position, t: Position)
    requires Reachable(occupied, s, t)
    ensures s in occupied && t in occupied
  {
    var path :| IsPath(occupied, path) && path[0] == s && path[|path| - 1] == t;
  }
}
