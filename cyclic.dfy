/**
 * Cyclic index arithmetic shared by the modes controller and the looped
 * sequence generator: both keep an index into a fixed non-empty list and
 * advance it with `i = (i + 1) % len`.
 */
module Cyclic {

  /** One advance of an index over a list of length n, written as the source writes it. */
  function Advance(i: nat, n: nat): (j: nat)
    requires i < n
    ensures j < n
    ensures j == if i + 1 == n then 0 else i + 1
  {
    (i + 1) % n
  }

  /** The index reached from 0 after k advances. */
  function IndexAfter(n: nat, k: nat): (i: nat)
    requires n > 0
    ensures i < n
    decreases k
  {
    if k == 0 then 0 else Advance(IndexAfter(n, k - 1), n)
  }

  /** After k advances from 0 the index is k mod n. */
  lemma {:induction false} IndexAfterIsMod(n: nat, k: nat)
    requires n > 0
    ensures IndexAfter(n, k) == k % n
    decreases k
  {
    if k == 0 {
      ModUnique(0, n, 0, 0);
    } else {
      IndexAfterIsMod(n, k - 1);
      ModAddLeft(k - 1, 1, n);
      assert IndexAfter(n, k - 1) + 1 <= n;
      if IndexAfter(n, k - 1) + 1 < n {
        ModUnique(IndexAfter(n, k - 1) + 1, n, 0, IndexAfter(n, k - 1) + 1);
      } else {
        ModUnique(n, n, 1, 0);
      }
    }
  }

  /** During the first round the k-th advance lands on index k, so the indices 1..n-1 are visited in order. */
  lemma FirstRoundInOrder(n: nat, k: nat)
    requires 0 < n && k < n
    ensures IndexAfter(n, k) == k
  {
    IndexAfterIsMod(n, k);
    ModUnique(k, n, 0, k);
  }

  /** n advances bring the index back to 0. */
  lemma FullRoundReturnsToStart(n: nat)
    requires n > 0
    ensures IndexAfter(n, n) == 0
  {
    IndexAfterIsMod(n, n);
    ModUnique(n, n, 1, 0);
  }

  /** The index sequence is periodic with period n. */
  lemma Periodic(n: nat, k: nat)
    requires n > 0
    ensures IndexAfter(n, k + n) == IndexAfter(n, k)
  {
    IndexAfterIsMod(n, k);
    IndexAfterIsMod(n, k + n);
    ModAddLeft(n, k, n);
    ModUnique(n, n, 1, 0);
  }

  // Arithmetic helpers: Euclidean division facts the solver does not find unaided.

  lemma MulAtLeast(d: int, n: int)
    requires d >= 1 && n > 0
    ensures d * n >= n
  {
  }

  /** The remainder is determined by any decomposition k == q * n + r with 0 <= r < n. */
  lemma ModUnique(k: int, n: int, q: int, r: int)
    requires n > 0 && 0 <= r < n && k == q * n + r
    ensures k % n == r
  {
    var q', r' := k / n, k % n;
    assert k == q' * n + r';
    if q > q' {
      assert (q - q') * n == q * n - q' * n;
      MulAtLeast(q - q', n);
    } else if q < q' {
      assert (q' - q) * n == q' * n - q * n;
      MulAtLeast(q' - q, n);
    }
  }

  /** Reducing the left summand first does not change the remainder. */
  lemma ModAddLeft(a: nat, b: nat, n: nat)
    requires n > 0
    ensures (a % n + b) % n == (a + b) % n
  {
    var q, r := a / n, a % n;
    var q2, r2 := (r + b) / n, (r + b) % n;
    assert r + b == q2 * n + r2;
    assert a + b == (q + q2) * n + r2 by {
      assert (q + q2) * n == q * n + q2 * n;
    }
    ModUnique(a + b, n, q + q2, r2);
  }
}
