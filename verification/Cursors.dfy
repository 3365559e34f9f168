/** Arithmetic of the wrapping 16-bit cursors against unbounded counters. */
module Cursors {
  import opened Bytes
  import opened Virtqueue

  lemma {:induction false} PowersDivide(m: nat, n: nat)
    requires IsPowerOfTwo(m) && IsPowerOfTwo(n) && n <= m
    ensures m % n == 0
  {
    if n > 1 {
      PowersDivide(m / 2, n / 2);
      var q := m / 2 / (n / 2);
      assert m / 2 == n / 2 * q;
      assert m == n * q;
      Multiple(n, q);
    }
  }

  lemma Multiple(n: nat, q: int)
    requires n > 0
    ensures n * q % n == 0
  {
    RemainderUnique(n * q, n, q, 0);
  }

  /** A wrapped cursor picks the slot the unbounded counter would. */
  lemma WrappedSlot(k: nat, size: nat)
    requires GoodSize(size)
    ensures k % U16_LIMIT % size == k % size
  {
    assert IsPowerOfTwo(65536);
    PowersDivide(U16_LIMIT, size);
    var m := U16_LIMIT / size;
    var turns, wrapped := k / U16_LIMIT, k % U16_LIMIT;
    var q, r := wrapped / size, wrapped % size;
    assert U16_LIMIT == size * m;
    assert k == size * m * turns + wrapped;
    assert size * m * turns == size * (m * turns);
    assert k == size * (m * turns + q) + r;
    RemainderUnique(k, size, m * turns + q, r);
  }

  /** Fewer than a ring apart, two counters pick different slots. */
  lemma SlotsDiffer(i: nat, j: nat, size: nat)
    requires i < j < i + size
    ensures i % size != j % size
  {
    var d := j / size - i / size;
    assert j - i == size * d + j % size - i % size;
    Stride(size, d);
  }

  /** Less than a wrap apart, wrapped counters compare as unbounded ones. */
  lemma WrappedEqual(i: nat, j: nat)
    requires i <= j < i + U16_LIMIT
    ensures i % U16_LIMIT == j % U16_LIMIT <==> i == j
  {
    if i < j {
      SlotsDiffer(i, j, U16_LIMIT);
    }
  }

  lemma WrappedNext(k: nat)
    ensures (k % U16_LIMIT + 1) % U16_LIMIT == (k + 1) % U16_LIMIT
    ensures ((k + 1) % U16_LIMIT + U16_LIMIT - 1) % U16_LIMIT == k % U16_LIMIT
  {
  }

  /** Wrapped counters are equal when whole wraps apart. */
  lemma WrappedDifference(i: nat, j: nat)
    requires i <= j
    ensures i % U16_LIMIT == j % U16_LIMIT <==> (j - i) % U16_LIMIT == 0
  {
  }
}
