/**
 * A JavaScript object used as a dictionary: its own string keys in
 * insertion order, each with its value. Assigning to a present key keeps
 * its place, assigning to a new key appends it, `delete` drops it, and
 * object spread `{...a, ...b}` assigns `b`'s entries onto `a` in order.
 * (Keys that look like array indices, which JavaScript lists first in
 * numeric order, are not distinguished.)
 */
module OrderedMaps {
  import opened Wrappers
  import opened Seqs

  type Entries<V> = seq<(string, V)>

  /** `Object.keys`. */
  function Keys<V>(m: Entries<V>): (ks: seq<string>)
    ensures |ks| == |m| && forall i :: 0 <= i < |m| ==> ks[i] == m[i].0
    decreases |m|
  {
    if |m| == 0 then [] else [m[0].0] + Keys(m[1..])
  }

  /** An object never holds a key twice. */
  predicate WellFormed<V>(m: Entries<V>) {
    Distinct(Keys(m))
  }

  /** `obj[k]`, with `None` for a missing key. */
  function Get<V>(m: Entries<V>, k: string): (r: Option<V>)
    ensures r.Some? <==> k in Keys(m)
    decreases |m|
  {
    if |m| == 0 then None
    else if m[0].0 == k then Some(m[0].1)
    else
      assert Keys(m) == [m[0].0] + Keys(m[1..]);
      Get(m[1..], k)
  }

  /** `obj[k] = v`. */
  function Put<V>(m: Entries<V>, k: string, v: V): (r: Entries<V>)
    ensures |m| <= |r| <= |m| + 1
    decreases |m|
  {
    if |m| == 0 then [(k, v)]
    else if m[0].0 == k then [(k, v)] + m[1..]
    else [m[0]] + Put(m[1..], k, v)
  }

  /** `delete obj[k]`. */
  function Remove<V>(m: Entries<V>, k: string): (r: Entries<V>)
    decreases |m|
  {
    if |m| == 0 then []
    else if m[0].0 == k then Remove(m[1..], k)
    else [m[0]] + Remove(m[1..], k)
  }

  /** `{...a, ...b}`: `b`'s entries assigned onto `a` one by one. */
  function Merge<V>(a: Entries<V>, b: Entries<V>): (r: Entries<V>)
    ensures |a| <= |r|
    decreases |b|
  {
    if |b| == 0 then a else Merge(Put(a, b[0].0, b[0].1), b[1..])
  }

  /** The entry found for `k` is the one at `k`'s place among the keys. */
  lemma {:induction false} GetAt<V>(m: Entries<V>, i: nat)
    requires WellFormed(m) && i < |m|
    ensures Get(m, m[i].0) == Some(m[i].1)
  {
    if i > 0 {
      assert Keys(m[1..]) == Keys(m)[1..];
      assert m[0].0 != m[i].0 by { assert Keys(m)[0] != Keys(m)[i]; }
      GetAt(m[1..], i - 1);
    }
  }

  /** After `obj[k] = v`, `obj[k]` is `v` and every other key reads as before. */
  lemma {:induction false} GetPut<V>(m: Entries<V>, k: string, v: V, j: string)
    ensures Get(Put(m, k, v), j) == if j == k then Some(v) else Get(m, j)
    decreases |m|
  {
    if |m| > 0 && m[0].0 != k {
      GetPut(m[1..], k, v, j);
    }
  }

  /** `obj[k] = v` keeps the place of a present key and appends a new one. */
  lemma {:induction false} KeysPut<V>(m: Entries<V>, k: string, v: V)
    ensures Keys(Put(m, k, v)) == if k in Keys(m) then Keys(m) else Keys(m) + [k]
    decreases |m|
  {
    if |m| > 0 {
      assert Keys(m) == [m[0].0] + Keys(m[1..]);
      if m[0].0 != k {
        KeysPut(m[1..], k, v);
        assert Keys(Put(m, k, v)) == [m[0].0] + Keys(Put(m[1..], k, v));
      } else {
        assert Keys(Put(m, k, v)) == [k] + Keys(m[1..]);
      }
    }
  }

  /** Assignment keeps an object well formed. */
  lemma {:induction false} PutWellFormed<V>(m: Entries<V>, k: string, v: V)
    requires WellFormed(m)
    ensures WellFormed(Put(m, k, v))
  {
    KeysPut(m, k, v);
    if k !in Keys(m) {
      DistinctAppend(Keys(m), k);
    }
  }

  /** After `delete obj[k]`, `obj[k]` is missing and every other key reads as before. */
  lemma {:induction false} GetRemove<V>(m: Entries<V>, k: string, j: string)
    ensures Get(Remove(m, k), j) == if j == k then None else Get(m, j)
    decreases |m|
  {
    if |m| > 0 {
      GetRemove(m[1..], k, j);
    }
  }

  /** `delete` keeps the other keys in their order. */
  lemma {:induction false} KeysRemove<V>(m: Entries<V>, k: string)
    ensures IsSubsequence(Keys(Remove(m, k)), Keys(m))
    ensures forall j :: j in Keys(Remove(m, k)) <==> j in Keys(m) && j != k
    decreases |m|
  {
    if |m| > 0 {
      KeysRemove(m[1..], k);
      assert Keys(m) == [m[0].0] + Keys(m[1..]);
      if m[0].0 != k {
        assert Keys(Remove(m, k)) == [m[0].0] + Keys(Remove(m[1..], k));
        SubsequenceCons(Keys(Remove(m[1..], k)), Keys(m[1..]), m[0].0);
      } else {
        SubsequenceSkip(Keys(Remove(m[1..], k)), Keys(m[1..]), m[0].0);
      }
    } else {
      assert Keys(Remove(m, k)) == [];
      SubsequenceEmpty(Keys(m));
    }
  }

  /** `delete` keeps an object well formed. */
  lemma {:induction false} RemoveWellFormed<V>(m: Entries<V>, k: string)
    requires WellFormed(m)
    ensures WellFormed(Remove(m, k))
  {
    KeysRemove(m, k);
    SubsequenceDistinct(Keys(Remove(m, k)), Keys(m));
  }

  /** Spread: a key reads from `b` when `b` has it and from `a` otherwise. */
  lemma {:induction false} GetMerge<V>(a: Entries<V>, b: Entries<V>, j: string)
    requires WellFormed(b)
    ensures Get(Merge(a, b), j) == if j in Keys(b) then Get(b, j) else Get(a, j)
    decreases |b|
  {
    if |b| > 0 {
      var a' := Put(a, b[0].0, b[0].1);
      assert Keys(b) == [b[0].0] + Keys(b[1..]);
      assert WellFormed(b[1..]) by { assert Keys(b[1..]) == Keys(b)[1..]; }
      GetMerge(a', b[1..], j);
      GetPut(a, b[0].0, b[0].1, j);
      if j == b[0].0 {
        assert j !in Keys(b[1..]) by { assert Keys(b)[0] == j; }
      }
    }
  }

  /** Spread keeps `a`'s keys in place and appends `b`'s new keys in `b`'s order. */
  lemma {:induction false} KeysMerge<V>(a: Entries<V>, b: Entries<V>)
    ensures forall j :: j in Keys(Merge(a, b)) <==> j in Keys(a) || j in Keys(b)
    ensures Keys(Merge(a, b))[..|a|] == Keys(a)
    decreases |b|
  {
    if |b| > 0 {
      var a' := Put(a, b[0].0, b[0].1);
      KeysPut(a, b[0].0, b[0].1);
      KeysMerge(a', b[1..]);
      assert Keys(b) == [b[0].0] + Keys(b[1..]);
      assert Keys(a')[..|a|] == Keys(a);
      assert Keys(Merge(a, b))[..|a'|] == Keys(a');
      assert |a| <= |a'|;
    } else {
      assert Keys(a)[..|a|] == Keys(a);
    }
  }

  /** Spread keeps an object well formed. */
  lemma {:induction false} MergeWellFormed<V>(a: Entries<V>, b: Entries<V>)
    requires WellFormed(a)
    ensures WellFormed(Merge(a, b))
    decreases |b|
  {
    if |b| > 0 {
      PutWellFormed(a, b[0].0, b[0].1);
      MergeWellFormed(Put(a, b[0].0, b[0].1), b[1..]);
    }
  }

  /** `delete` of a missing key changes nothing. */
  lemma {:induction false} RemoveAbsent<V>(m: Entries<V>, k: string)
    requires k !in Keys(m)
    ensures Remove(m, k) == m
    decreases |m|
  {
    if |m| > 0 {
      RemoveAbsent(m[1..], k);
      assert m == [m[0]] + m[1..];
    }
  }

  /** `delete` of a present key drops exactly one entry. */
  lemma {:induction false} RemoveSize<V>(m: Entries<V>, k: string)
    requires WellFormed(m) && k in Keys(m)
    ensures |Remove(m, k)| == |m| - 1
    decreases |m|
  {
    assert Keys(m[1..]) == Keys(m)[1..];
    if m[0].0 == k {
      assert k !in Keys(m[1..]) by { assert Keys(m)[0] == k; }
      RemoveAbsent(m[1..], k);
    } else {
      RemoveSize(m[1..], k);
    }
  }
}
