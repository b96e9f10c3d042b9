/**
 * Sequence operations that the game engine and the client share: the
 * first-occurrence search of `list.index` / `Array.prototype.indexOf`, the
 * single removal of `list.remove` / `splice(indexOf(x), 1)`, and the
 * order-keeping de-duplication of `[...new Set(xs)]`.
 */
module Seqs {

  /** No element occurs twice. */
  predicate Distinct<T(==)>(s: seq<T>) {
    forall i, j :: 0 <= i < j < |s| ==> s[i] != s[j]
  }

  /** Position of the first `x` in `s`, or -1 when there is none. */
  function IndexOf<T(==)>(s: seq<T>, x: T): (i: int)
    ensures -1 <= i < |s|
    ensures i == -1 <==> x !in s
    ensures 0 <= i ==> s[i] == x && x !in s[..i]
  {
    if |s| == 0 then -1
    else if s[0] == x then 0
    else
      var j := IndexOf(s[1..], x);
      assert s[1..][..j + 1] == s[1..j + 2] by { if j >= 0 { assert s[1..][..j] == s[1..j + 1]; } }
      if j == -1 then -1 else j + 1
  }

  /** Removes the first `x` from `s`; leaves `s` as it is when `x` is absent. */
  function RemoveFirst<T(==)>(s: seq<T>, x: T): (r: seq<T>)
    ensures x in s ==> |r| == |s| - 1 && multiset(r) == multiset(s) - multiset{x}
    ensures x !in s ==> r == s
  {
    if |s| == 0 then s
    else if s[0] == x then
      assert s == [s[0]] + s[1..];
      s[1..]
    else
      assert s == [s[0]] + s[1..];
      [s[0]] + RemoveFirst(s[1..], x)
  }

  /** Removing the first `x` is cutting out the element at `IndexOf(s, x)`. */
  lemma {:induction false} RemoveFirstIsSplice<T>(s: seq<T>, x: T)
    requires x in s
    ensures RemoveFirst(s, x) == s[..IndexOf(s, x)] + s[IndexOf(s, x) + 1..]
  {
    if s[0] != x {
      var t := s[1..];
      RemoveFirstIsSplice(t, x);
      var j := IndexOf(t, x);
      assert s == [s[0]] + t;
      ConsSplice(s[0], t, j);
    }
  }

  lemma {:induction false} ConsSplice<T>(a: T, t: seq<T>, j: nat)
    requires j < |t|
    ensures [a] + (t[..j] + t[j + 1..]) == ([a] + t)[..j + 1] + ([a] + t)[j + 2..]
  {
    var s := [a] + t;
    assert s[..j + 1] == [a] + t[..j];
    assert s[j + 2..] == t[j + 1..];
  }

  /** When `x` already occurs in `s`, appending after `s` does not affect which `x` goes. */
  lemma {:induction false} RemoveFirstAppend<T>(s: seq<T>, t: seq<T>, x: T)
    requires x in s
    ensures RemoveFirst(s + t, x) == RemoveFirst(s, x) + t
  {
    if s[0] == x {
      assert (s + t)[1..] == s[1..] + t;
    } else {
      assert (s + t)[1..] == s[1..] + t;
      RemoveFirstAppend(s[1..], t, x);
    }
  }

  /** `r` is obtained from `s` by deleting some of its elements. */
  predicate IsSubsequence<T(==)>(r: seq<T>, s: seq<T>)
    decreases |s|
  {
    |r| == 0 ||
    (|s| > 0 && ((r[0] == s[0] && IsSubsequence(r[1..], s[1..])) || IsSubsequence(r, s[1..])))
  }

  /** Every sequence is a subsequence of itself. */
  lemma {:induction false} SubsequenceReflexive<T>(s: seq<T>)
    ensures IsSubsequence(s, s)
    decreases |s|
  {
    if |s| > 0 { SubsequenceReflexive(s[1..]); }
  }

  /** Putting one element in front of the longer sequence keeps a subsequence one. */
  lemma {:induction false} SubsequenceOfLonger<T>(r: seq<T>, s: seq<T>, y: T)
    requires IsSubsequence(r, s)
    ensures IsSubsequence(r, [y] + s)
  {
    assert ([y] + s)[1..] == s;
  }

  /** Subsequence is transitive. */
  lemma {:induction false} SubsequenceTransitive<T>(a: seq<T>, b: seq<T>, c: seq<T>)
    requires IsSubsequence(a, b) && IsSubsequence(b, c)
    ensures IsSubsequence(a, c)
    decreases |c|
  {
    if |a| > 0 {
      if IsSubsequence(b, c[1..]) {
        SubsequenceTransitive(a, b, c[1..]);
      } else if a[0] == b[0] && IsSubsequence(a[1..], b[1..]) {
        SubsequenceTransitive(a[1..], b[1..], c[1..]);
      } else {
        SubsequenceTransitive(a, b[1..], c[1..]);
      }
    }
  }

  /** What `RemoveFirst` leaves is a subsequence of what it was given. */
  lemma {:induction false} RemoveFirstIsSubsequence<T>(s: seq<T>, x: T)
    ensures IsSubsequence(RemoveFirst(s, x), s)
  {
    if |s| > 0 {
      if s[0] == x {
        SubsequenceReflexive(s[1..]);
      } else {
        RemoveFirstIsSubsequence(s[1..], x);
        assert ([s[0]] + RemoveFirst(s[1..], x))[1..] == RemoveFirst(s[1..], x);
      }
    } else {
      SubsequenceReflexive(s);
    }
  }

  /**
   * `[...new Set(s)]`: every element once, at the place of its first
   * occurrence.
   */
  function Dedup<T(==)>(s: seq<T>): (r: seq<T>)
    ensures Distinct(r)
    ensures forall i :: 0 <= i < |r| ==> r[i] in s
    ensures forall i :: 0 <= i < |s| ==> s[i] in r
  {
    if |s| == 0 then []
    else
      var d := Dedup(s[..|s| - 1]);
      assert s == s[..|s| - 1] + [s[|s| - 1]];
      if s[|s| - 1] in d then d else d + [s[|s| - 1]]
  }

  /** The kept elements stand in the order of their first occurrences in `s`. */
  lemma {:induction false} DedupKeepsFirstOccurrenceOrder<T>(s: seq<T>, i: int, j: int)
    requires 0 <= i < j < |Dedup(s)|
    ensures IndexOf(s, Dedup(s)[i]) < IndexOf(s, Dedup(s)[j])
  {
    var init := s[..|s| - 1];
    var d := Dedup(init);
    assert s == init + [s[|s| - 1]];
    forall x | x in init ensures IndexOf(s, x) == IndexOf(init, x) {
      IndexOfPrefix(init, [s[|s| - 1]], x);
    }
    if j < |d| {
      DedupKeepsFirstOccurrenceOrder(init, i, j);
    } else {
      // the last element is new: its first occurrence is at the very end
      assert Dedup(s)[j] == s[|s| - 1] && s[|s| - 1] !in init;
      assert IndexOf(s, s[|s| - 1]) == |s| - 1;
    }
  }

  lemma {:induction false} IndexOfPrefix<T>(s: seq<T>, t: seq<T>, x: T)
    requires x in s
    ensures IndexOf(s + t, x) == IndexOf(s, x)
  {
    if s[0] != x {
      assert (s + t)[1..] == s[1..] + t;
      IndexOfPrefix(s[1..], t, x);
    }
  }

  /** Appending an element not yet present keeps a sequence free of repeats. */
  lemma {:induction false} DistinctAppend<T>(s: seq<T>, x: T)
    requires Distinct(s) && x !in s
    ensures Distinct(s + [x])
  {
    var t := s + [x];
    forall i, j | 0 <= i < j < |t| ensures t[i] != t[j] {
      if j == |s| { assert t[i] == s[i]; }
    }
  }

  /** The empty sequence is a subsequence of every sequence. */
  lemma {:induction false} SubsequenceEmpty<T>(s: seq<T>)
    ensures IsSubsequence([], s)
  {
  }

  /** A common first element can be put in front of both sides. */
  lemma {:induction false} SubsequenceCons<T>(r: seq<T>, s: seq<T>, y: T)
    requires IsSubsequence(r, s)
    ensures IsSubsequence([y] + r, [y] + s)
  {
    assert ([y] + r)[1..] == r;
    assert ([y] + s)[1..] == s;
  }

  /** An element can be put in front of the longer side only. */
  lemma {:induction false} SubsequenceSkip<T>(r: seq<T>, s: seq<T>, y: T)
    requires IsSubsequence(r, s)
    ensures IsSubsequence(r, [y] + s)
  {
    SubsequenceOfLonger(r, s, y);
  }

  /** Every element of a subsequence occurs in the longer sequence. */
  lemma {:induction false} SubsequenceMembers<T>(r: seq<T>, s: seq<T>, x: T)
    requires IsSubsequence(r, s) && x in r
    ensures x in s
    decreases |s|
  {
    if r[0] == s[0] && IsSubsequence(r[1..], s[1..]) {
      if x != r[0] {
        assert x in r[1..] by { assert r == [r[0]] + r[1..]; }
        SubsequenceMembers(r[1..], s[1..], x);
      }
    } else {
      SubsequenceMembers(r, s[1..], x);
    }
  }

  /** A subsequence of a repeat-free sequence is repeat-free. */
  lemma {:induction false} SubsequenceDistinct<T>(r: seq<T>, s: seq<T>)
    requires IsSubsequence(r, s) && Distinct(s)
    ensures Distinct(r)
    decreases |s|
  {
    if |r| > 0 {
      assert Distinct(s[1..]);
      if r[0] == s[0] && IsSubsequence(r[1..], s[1..]) {
        SubsequenceDistinct(r[1..], s[1..]);
        forall j | 0 < j < |r| ensures r[0] != r[j] {
          assert r[j] in r[1..] by { assert r[1..][j - 1] == r[j]; }
          SubsequenceMembers(r[1..], s[1..], r[j]);
          assert s[0] !in s[1..];
        }
        forall i, j | 0 <= i < j < |r| ensures r[i] != r[j] {
          if i > 0 { assert r[1..][i - 1] == r[i] && r[1..][j - 1] == r[j]; }
        }
      } else {
        SubsequenceDistinct(r, s[1..]);
      }
    }
  }

  /** The elements of `s` as a set. */
  function Elements<T>(s: seq<T>): set<T> {
    set x | x in s
  }

  /** A repeat-free sequence has as many elements as its set. */
  lemma {:induction false} DistinctElements<T>(s: seq<T>)
    requires Distinct(s)
    ensures |Elements(s)| == |s|
    decreases |s|
  {
    if |s| > 0 {
      assert Distinct(s[1..]);
      DistinctElements(s[1..]);
      assert Elements(s) == {s[0]} + Elements(s[1..]) by {
        assert s == [s[0]] + s[1..];
      }
      assert s[0] !in s[1..];
    } else {
      assert Elements(s) == {};
    }
  }

  /** A proper subset is smaller. */
  lemma {:induction false} SubsetSmaller<T>(a: set<T>, b: set<T>)
    requires a < b
    ensures |a| < |b|
  {
    var x :| x in b && x !in a;
    SubsetNotLarger(a, b - {x});
  }

  /** A subset is no larger. */
  lemma {:induction false} SubsetNotLarger<T>(a: set<T>, b: set<T>)
    requires a <= b
    ensures |a| <= |b|
    decreases |b|
  {
    if a != {} {
      var x :| x in a;
      SubsetNotLarger(a - {x}, b - {x});
    }
  }

  /** `s.filter(keep)`: the elements that pass, in their order. */
  function Filter<T>(s: seq<T>, keep: T -> bool): (r: seq<T>)
    ensures |r| <= |s|
    decreases |s|
  {
    if |s| == 0 then []
    else if keep(s[0]) then [s[0]] + Filter(s[1..], keep)
    else Filter(s[1..], keep)
  }

  /** An element survives the filter exactly when it is in `s` and passes. */
  lemma {:induction false} FilterMembers<T>(s: seq<T>, keep: T -> bool, x: T)
    ensures x in Filter(s, keep) <==> x in s && keep(x)
    decreases |s|
  {
    if |s| > 0 {
      FilterMembers(s[1..], keep, x);
      assert s == [s[0]] + s[1..];
    }
  }

  /** The filter keeps the survivors in their order. */
  lemma {:induction false} FilterIsSubsequence<T>(s: seq<T>, keep: T -> bool)
    ensures IsSubsequence(Filter(s, keep), s)
    decreases |s|
  {
    if |s| > 0 {
      FilterIsSubsequence(s[1..], keep);
      if keep(s[0]) {
        SubsequenceCons(Filter(s[1..], keep), s[1..], s[0]);
        assert [s[0]] + s[1..] == s;
      } else {
        SubsequenceSkip(Filter(s[1..], keep), s[1..], s[0]);
        assert [s[0]] + s[1..] == s;
      }
    }
  }

  /** Filtering distributes over concatenation. */
  lemma {:induction false} FilterAppend<T>(s: seq<T>, t: seq<T>, keep: T -> bool)
    ensures Filter(s + t, keep) == Filter(s, keep) + Filter(t, keep)
    decreases |s|
  {
    if |s| > 0 {
      assert (s + t)[1..] == s[1..] + t;
      FilterAppend(s[1..], t, keep);
    } else {
      assert s + t == t;
    }
  }

  /** The sequences of `ss` joined end to end. */
  function Flatten<T>(ss: seq<seq<T>>): seq<T>
    decreases |ss|
  {
    if |ss| == 0 then [] else Flatten(ss[..|ss| - 1]) + ss[|ss| - 1]
  }

  /** Joining one more sequence appends it. */
  lemma {:induction false} FlattenSnoc<T>(ss: seq<seq<T>>, s: seq<T>)
    ensures Flatten(ss + [s]) == Flatten(ss) + s
  {
    assert (ss + [s])[..|ss|] == ss;
  }

  /** An element of the joined sequence is an element of one of the parts. */
  lemma {:induction false} FlattenMembers<T>(ss: seq<seq<T>>, x: T)
    ensures x in Flatten(ss) <==> exists i :: 0 <= i < |ss| && x in ss[i]
    decreases |ss|
  {
    if |ss| > 0 {
      var init := ss[..|ss| - 1];
      FlattenMembers(init, x);
      if x in Flatten(init) {
        var i :| 0 <= i < |init| && x in init[i];
        assert ss[i] == init[i];
      }
      if exists i :: 0 <= i < |ss| && x in ss[i] {
        var i :| 0 <= i < |ss| && x in ss[i];
        if i < |init| {
          assert init[i] == ss[i];
        }
      }
    }
  }

  /** `f(lo)`, `f(lo + 1)`, ..., `f(hi)`: one sequence for each index from `lo` to `hi`. */
  function Tabulate<T>(f: int -> seq<T>, lo: int, hi: int): (ss: seq<seq<T>>)
    ensures |ss| == if hi < lo then 0 else hi - lo + 1
  {
    seq(if hi < lo then 0 else hi - lo + 1, i => f(lo + i))
  }

  /** Joining the table up to one more index appends that index's sequence. */
  lemma {:induction false} FlattenTabulateExtend<T>(f: int -> seq<T>, lo: int, hi: int, s: seq<T>)
    requires lo <= hi + 1 && s == f(hi + 1)
    ensures Flatten(Tabulate(f, lo, hi + 1)) == Flatten(Tabulate(f, lo, hi)) + s
  {
    assert Tabulate(f, lo, hi + 1) == Tabulate(f, lo, hi) + [s];
    FlattenSnoc(Tabulate(f, lo, hi), s);
  }

  /** An element of the joined table is an element of the sequence at some index between `lo` and `hi`. */
  lemma {:induction false} FlattenTabulateMembers<T>(f: int -> seq<T>, lo: int, hi: int, x: T)
    ensures x in Flatten(Tabulate(f, lo, hi)) <==> exists k :: lo <= k <= hi && x in f(k)
  {
    var ss := Tabulate(f, lo, hi);
    FlattenMembers(ss, x);
    if x in Flatten(ss) {
      var i :| 0 <= i < |ss| && x in ss[i];
      assert x in f(lo + i);
    }
    if exists k :: lo <= k <= hi && x in f(k) {
      var k :| lo <= k <= hi && x in f(k);
      assert ss[k - lo] == f(k);
    }
  }

  /** Taking a prefix of a sequence extended at the back. */
  lemma TakeSnoc<T>(s: seq<T>, x: T, m: nat)
    requires m <= |s|
    ensures (s + [x])[..m] == s[..m]
  {
  }

  /** A prefix one longer is the prefix followed by the next element. */
  lemma TakeNext<T>(s: seq<T>, n: nat)
    requires n < |s|
    ensures s[..n] + [s[n]] == s[..n + 1]
  {
  }

  /** A prefix of a prefix. */
  lemma TakeTake<T>(s: seq<T>, i: nat, j: nat)
    requires i <= j <= |s|
    ensures s[..j][..i] == s[..i]
  {
  }

  /** The prefix as long as the sequence is the sequence. */
  lemma TakeAll<T>(s: seq<T>)
    ensures s[..|s|] == s
  {
  }
}
