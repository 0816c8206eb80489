/** Bit-level index arithmetic on basis-state indices.
    Qubit k of a register is bit k of an index (qubit 0 is the least
    significant bit). The gates never build matrices: they pair index i with
    `i ^ (1 << k)` and test `(i >> k) & 1`. Both operators are defined here on
    natural numbers, bit by bit, and their laws are proved. */
module Bits {

  /** 2^k, the length of a k-qubit register and the value of `1 << k`. */
  function Pow2(k: nat): (r: nat)
    ensures r >= 1
  {
    if k == 0 then 1 else 2 * Pow2(k - 1)
  }

  /** `i >> k` for a non-negative i: k halvings, each rounding down. */
  function Shr(i: nat, k: nat): (r: nat)
    ensures r <= i
  {
    if k == 0 then i else Shr(i / 2, k - 1)
  }

  /** `(i >> k) & 1`: the value of qubit k in basis state i. */
  function Bit(i: nat, k: nat): (b: nat)
    ensures b == 0 || b == 1
  {
    Shr(i, k) % 2
  }

  /** `i ^ (1 << k)`: basis state i with qubit k toggled. The XOR with a
      one-hot mask subtracts 2^k when bit k is set and adds it when it is
      clear. */
  function Flip(i: nat, k: nat): (j: nat)
    ensures j < i <==> Bit(i, k) == 1
  {
    if Bit(i, k) == 1 then BitSetBound(i, k); i - Pow2(k) else i + Pow2(k)
  }

  /** Python's `int.bit_length()` for a non-negative value. */
  function BitLength(x: nat): (b: nat)
    ensures x < Pow2(b)
    ensures x == 0 <==> b == 0
    ensures b > 0 ==> Pow2(b - 1) <= x
  {
    if x == 0 then 0 else 1 + BitLength(x / 2)
  }

  /** An index with bit k set is at least 2^k. */
  lemma BitSetBound(i: nat, k: nat)
    requires Bit(i, k) == 1
    ensures i >= Pow2(k)
  {
    if i < Pow2(k) {
      ShrBelow(i, k);
    }
  }

  /** Shifting an index below 2^k right by k gives 0. */
  lemma {:induction false} ShrBelow(i: nat, k: nat)
    requires i < Pow2(k)
    ensures Shr(i, k) == 0
    decreases k
  {
    if k > 0 {
      ShrBelow(i / 2, k - 1);
    }
  }

  /** The toggle of qubit k > 0 keeps the low bit and toggles qubit k - 1
      of the remaining upper bits: the recursive shape of the XOR. */
  lemma FlipStep(i: nat, k: nat)
    ensures k == 0 ==> Flip(i, k) == if i % 2 == 0 then i + 1 else i - 1
    ensures k > 0 ==> Flip(i, k) == 2 * Flip(i / 2, k - 1) + i % 2
  {
    if k > 0 {
      assert Bit(i, k) == Bit(i / 2, k - 1);
      assert Pow2(k) == 2 * Pow2(k - 1);
      if Bit(i, k) == 1 {
        BitSetBound(i / 2, k - 1);
      }
    }
  }

  /** Flipping qubit k toggles bit k. */
  lemma {:induction false} FlipToggles(i: nat, k: nat)
    ensures Bit(Flip(i, k), k) == 1 - Bit(i, k)
    decreases k
  {
    FlipStep(i, k);
    if k > 0 {
      FlipToggles(i / 2, k - 1);
      assert Flip(i, k) / 2 == Flip(i / 2, k - 1);
    }
  }

  /** Flipping qubit k leaves every other bit as it was. */
  lemma {:induction false} FlipKeepsOtherBits(i: nat, k: nat, j: nat)
    requires j != k
    ensures Bit(Flip(i, k), j) == Bit(i, j)
    decreases k
  {
    FlipStep(i, k);
    if k == 0 {
      assert Flip(i, k) / 2 == i / 2;
    } else if j > 0 {
      FlipKeepsOtherBits(i / 2, k - 1, j - 1);
      assert Flip(i, k) / 2 == Flip(i / 2, k - 1);
    }
  }

  /** Flipping the same qubit twice gives back the original index. */
  lemma FlipFlip(i: nat, k: nat)
    ensures Flip(Flip(i, k), k) == i
  {
    FlipToggles(i, k);
  }

  /** Two indices with the same bits below n are equal when both are below
      2^n; so flipping a qubit of the register changes nothing but that qubit. */
  lemma {:induction false} BitsDetermineIndex(i: nat, i': nat, n: nat)
    requires i < Pow2(n) && i' < Pow2(n)
    requires forall j :: 0 <= j < n ==> Bit(i, j) == Bit(i', j)
    ensures i == i'
    decreases n
  {
    if n > 0 {
      forall j | 0 <= j < n - 1
        ensures Bit(i / 2, j) == Bit(i' / 2, j)
      {
        assert Bit(i, j + 1) == Bit(i', j + 1);
      }
      BitsDetermineIndex(i / 2, i' / 2, n - 1);
      assert Bit(i, 0) == Bit(i', 0);
    }
  }

  /** Flipping a qubit of an n-qubit register keeps the index inside the
      register, so `statevector[i ^ (1 << k)]` never leaves the vector. */
  lemma {:induction false} FlipBelow(i: nat, k: nat, n: nat)
    requires i < Pow2(n) && k < n
    ensures Flip(i, k) < Pow2(n)
    decreases k
  {
    FlipStep(i, k);
    if k == 0 {
      assert Pow2(n) == 2 * Pow2(n - 1);
    } else {
      FlipBelow(i / 2, k - 1, n - 1);
    }
  }

  /** FlipBelow for every index of the register at once. */
  lemma FlipBelowAll(k: nat, n: nat)
    requires k < n
    ensures forall i :: 0 <= i < Pow2(n) ==> Flip(i, k) < Pow2(n)
  {
    forall i | 0 <= i < Pow2(n)
      ensures Flip(i, k) < Pow2(n)
    {
      FlipBelow(i, k, n);
    }
  }

  /** Bits at or above n of an index below 2^n are clear: a qubit outside
      the register is never set. */
  lemma {:induction false} BitOutsideRegister(i: nat, k: nat, n: nat)
    requires i < Pow2(n) && n <= k
    ensures Bit(i, k) == 0
    decreases k
  {
    if n > 0 {
      BitOutsideRegister(i / 2, k - 1, n - 1);
    }
  }

  /** A register of n qubits has `bit_length(2^n) - 1 == n`, which is how
      the source recovers the qubit count from the vector length. */
  lemma {:induction false} BitLengthPow2(n: nat)
    ensures BitLength(Pow2(n)) == n + 1
    decreases n
  {
    if n == 0 {
      assert BitLength(1) == 1 + BitLength(0);
    } else {
      var p := Pow2(n - 1);
      assert Pow2(n) == 2 * p;
      BitLengthPow2(n - 1);
      BitLengthDouble(p);
    }
  }

  /** Doubling a positive value adds one bit. */
  lemma BitLengthDouble(x: nat)
    requires x >= 1
    ensures BitLength(2 * x) == BitLength(x) + 1
  {
    assert (2 * x) / 2 == x;
  }
}
