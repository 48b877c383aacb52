/**
 * `looped_sequence(l)`: a generator that yields the elements of a fixed list
 * forever, in list order, keeping a local index that it advances modulo the
 * list's length after each yield.
 */
module Sequences {
  import Cyclic
  import Wrappers

  /**
   * The first n values the generator yields when its local index is i: the
   * generator's loop read as a recursive definition.
   */
  function Generated<T>(l: seq<T>, i: nat, n: nat): (r: seq<T>)
    requires i < |l|
    ensures |r| == n
    decreases n
  {
    if n == 0 then [] else [l[i]] + Generated(l, Cyclic.Advance(i, |l|), n - 1)
  }

  /** Started at index i, the k-th yielded value (counting from 0) is l[(i + k) mod |l|]. */
  lemma {:induction false} GeneratedAt<T>(l: seq<T>, i: nat, n: nat, k: nat)
    requires i < |l| && k < n
    ensures Generated(l, i, n)[k] == l[(i + k) % |l|]
    decreases n
  {
    if k == 0 {
      Cyclic.ModUnique(i, |l|, 0, i);
    } else {
      var i' := Cyclic.Advance(i, |l|);
      GeneratedAt(l, i', n - 1, k - 1);
      Cyclic.ModAddLeft(i + 1, k - 1, |l|);
    }
  }

  /** From a fresh generator, the k-th yielded value is l[k mod |l|]. */
  lemma LoopedAt<T>(l: seq<T>, n: nat, k: nat)
    requires 0 < |l| && k < n
    ensures Generated(l, 0, n)[k] == l[k % |l|]
  {
    GeneratedAt(l, 0, n, k);
  }

  /** The first |l| values are the list itself, in its order. */
  lemma FirstRoundIsList<T>(l: seq<T>)
    requires 0 < |l|
    ensures Generated(l, 0, |l|) == l
  {
    forall k | 0 <= k < |l|
      ensures Generated(l, 0, |l|)[k] == l[k]
    {
      LoopedAt(l, |l|, k);
      Cyclic.ModUnique(k, |l|, 0, k);
    }
  }

  /** Each value recurs exactly |l| steps later: the list order is preserved cyclically. */
  lemma GeneratedPeriodic<T>(l: seq<T>, n: nat, k: nat)
    requires 0 < |l| && k + |l| < n
    ensures Generated(l, 0, n)[k + |l|] == Generated(l, 0, n)[k]
  {
    LoopedAt(l, n, k);
    LoopedAt(l, n, k + |l|);
    Cyclic.ModAddLeft(|l|, k, |l|);
    Cyclic.ModUnique(|l|, |l|, 1, 0);
  }

  /**
   * A running generator. `yielded` records every value handed out so far;
   * `i` is the generator's local index.
   */
  class LoopedSequence<T> {
    const items: seq<T>
    var i: nat
    ghost var yielded: seq<T>

    /** Over an empty list the generator never yields anything. */
    ghost predicate Valid()
      reads this
    {
      if |items| == 0 then i == 0 && yielded == []
      else i == |yielded| % |items| && yielded == Generated(items, 0, |yielded|)
    }

    /** `looped_sequence(l)` before its first `next`: the index starts at 0. */
    constructor (l: seq<T>)
      ensures Valid() && items == l && yielded == []
    {
      items := l;
      i := 0;
      yielded := [];
      if 0 < |l| {
        Cyclic.ModUnique(0, |l|, 0, 0);
      }
    }

    /**
     * One `next`: yields the element at the index, then advances the index.
     * Over an empty list, `l[i]` raises instead and nothing is yielded.
     */
    method Next() returns (x: Wrappers.Option<T>)
      requires Valid()
      modifies this
      ensures Valid()
      ensures x.None? <==> |items| == 0
      ensures x.Some? ==> x.value == items[|old(yielded)| % |items|] && yielded == old(yielded) + [x.value]
      ensures x.None? ==> unchanged(this)
    {
      if |items| == 0 {
        return Wrappers.None;
      }
      x := Wrappers.Some(items[i]);
      i := Cyclic.Advance(i, |items|);
      ghost var n := |yielded|;
      yielded := yielded + [x.value];
      Cyclic.ModAddLeft(n, 1, |items|);
      SnocGenerated(items, n);
    }
  }

  /** Running the generator one step more appends the element at the advanced index. */
  lemma SnocGenerated<T>(l: seq<T>, n: nat)
    requires 0 < |l|
    ensures Generated(l, 0, n + 1) == Generated(l, 0, n) + [l[n % |l|]]
  {
    var a, b := Generated(l, 0, n + 1), Generated(l, 0, n) + [l[n % |l|]];
    forall k | 0 <= k < n + 1
      ensures a[k] == b[k]
    {
      LoopedAt(l, n + 1, k);
      if k < n {
        LoopedAt(l, n, k);
      }
    }
  }
}
