/** Whole requests worked through to their listings: the Bell circuit, a
    single Hadamard gate, the empty circuit, a circuit whose state vanishes,
    and gates that raise. Each request is stated with the source's butterfly
    (`AsWritten`) and, where the two differ, with the intended one. */
module Scenarios {
  import opened Bits
  import opened Sums
  import opened Statevector
  import opened Binary
  import opened Format
  import opened Simulator

  /** `{"gate": "H", "qubit": q}`; the unused entries are 0. */
  function H(q: int): Gate { Gate(Some("H"), q, 0, 0) }

  /** `{"gate": "CNOT", "control": c, "target": t}`. */
  function CX(c: int, t: int): Gate { Gate(Some("CNOT"), 0, c, t) }

  /** The indices 0..3 of a two-qubit register, bit by bit. */
  lemma TwoQubitBits()
    ensures Pow2(2) == 4
    ensures Bit(0, 0) == 0 && Bit(1, 0) == 1 && Bit(2, 0) == 0 && Bit(3, 0) == 1
    ensures Flip(0, 0) == 1 && Flip(1, 0) == 0 && Flip(2, 0) == 3 && Flip(3, 0) == 2
    ensures Flip(1, 1) == 3 && Flip(3, 1) == 1
  {
  }

  /** Two amplitudes of magnitude 1/sqrt(2) make a unit vector. */
  lemma HalfAndHalf(a: real, root2: real)
    requires IsRoot2(root2) && a == 1.0 / root2
    ensures a != 0.0 && -a == -1.0 / root2 && -1.0 / root2 != 0.0
    ensures a * a + a * a == 1.0
    ensures a * a + (-a) * (-a) == 1.0
    ensures a * a + (-1.0 / root2) * (-1.0 / root2) == 1.0
  {
  }

  /** Both butterflies on qubit 0 of |00>. */
  lemma BellHadamard(root2: real)
    requires IsRoot2(root2)
    ensures HadamardAsWritten(Initial(2), 2, 0, root2) == [1.0 / root2, -1.0 / root2, 0.0, 0.0]
    ensures Hadamard(Initial(2), 2, 0, root2) == [1.0 / root2, 1.0 / root2, 0.0, 0.0]
  {
    TwoQubitBits();
    var a := 1.0 / root2;
    var s := Initial(2);
    assert s == [1.0, 0.0, 0.0, 0.0];
    var w := HadamardAsWritten(s, 2, 0, root2);
    assert w[1] == (0.0 - 1.0) / root2 == -a;
    var h := Hadamard(s, 2, 0, root2);
    assert w[0] == h[0] == h[1] == a;
  }

  /** CNOT from qubit 0 to qubit 1 moves the amplitude of |01> to |11>. */
  lemma BellCnot(x: real, y: real)
    ensures Cnot([x, y, 0.0, 0.0], 2, 0, 1) == [x, 0.0, 0.0, y]
  {
    TwoQubitBits();
    var h := [x, y, 0.0, 0.0];
    var c := Cnot(h, 2, 0, 1);
    assert c[1] == h[3] && c[3] == h[1];
  }

  /** Running H(0) and then CNOT(0, 1) on |00> is the CNOT of the butterfly's
      result. */
  lemma BellSteps(root2: real, bf: Butterfly)
    requires IsRoot2(root2)
    ensures Run(Initial(2), 2, [H(0), CX(0, 1)], root2, bf) ==
      Success(Cnot(HadamardBy(bf, Initial(2), 2, 0, root2), 2, 0, 1))
  {
    var s := Initial(2);
    var h := HadamardBy(bf, s, 2, 0, root2);
    assert Dispatch(H(0), 2) == Success(ApplyH(0));
    assert Dispatch(CX(0, 1), 2) == Success(ApplyCnot(0, 1));
    RunCons(s, 2, H(0), [CX(0, 1)], root2, bf);
    RunCons(h, 2, CX(0, 1), [], root2, bf);
    assert [H(0), CX(0, 1)] == [H(0)] + [CX(0, 1)] && [CX(0, 1)] == [CX(0, 1)] + [];
  }

  /** H on qubit 0 and then CNOT from qubit 0 to qubit 1, with the source's
      butterfly, take |00> to (|00> - |11>) / sqrt(2). */
  lemma BellRun(root2: real)
    requires IsRoot2(root2)
    ensures Run(Initial(2), 2, [H(0), CX(0, 1)], root2, AsWritten) ==
      Success([1.0 / root2, 0.0, 0.0, -1.0 / root2])
  {
    BellSteps(root2, AsWritten);
    BellHadamard(root2);
    BellCnot(1.0 / root2, -1.0 / root2);
  }

  /** The same circuit with the intended butterfly reaches the Bell state
      (|00> + |11>) / sqrt(2). */
  lemma BellRunIntended(root2: real)
    requires IsRoot2(root2)
    ensures Run(Initial(2), 2, [H(0), CX(0, 1)], root2, Intended) ==
      Success([1.0 / root2, 0.0, 0.0, 1.0 / root2])
  {
    BellSteps(root2, Intended);
    BellHadamard(root2);
    BellCnot(1.0 / root2, 1.0 / root2);
  }

  /** The listing of a state of the form [a, 0, 0, c]: two entries,
      labelled "00" and "11". */
  lemma BellListing(a: real, c: real)
    requires a != 0.0 && c != 0.0
    ensures FormatState([a, 0.0, 0.0, c]) == [Entry("00", a), Entry("11", c)]
  {
    var v := [a, 0.0, 0.0, c];
    assert NonzeroFrom(v, 3) == [3];
    assert NonzeroFrom(v, 1) == [3];
    assert Support(v) == [0, 3];
    assert Width(4) == 2;
    assert Digits(3) == ['1', '1'];
    assert Label(0, 2) == "00" && Label(3, 2) == "11";
  }

  /** The squared norm of [a, 0, 0, c]. */
  lemma BellSumSq(a: real, c: real)
    ensures SumSq([a, 0.0, 0.0, c]) == a * a + c * c
  {
    SumSqCons(a, [0.0, 0.0, c]);
    SumSqCons(0.0, [0.0, c]);
    SumSqCons(0.0, [c]);
    SumSqCons(c, []);
    assert SumSq([]) == 0.0 by {
      SumSqOfZero([]);
    }
    assert [a, 0.0, 0.0, c] == [a] + [0.0, 0.0, c];
    assert [0.0, 0.0, c] == [0.0] + [0.0, c];
    assert [0.0, c] == [0.0] + [c];
    assert [c] == [c] + [];
  }

  /** The Bell circuit `[{"gate": "H", "qubit": 0}, {"gate": "CNOT",
      "control": 0, "target": 1}]`: the source lists "00" with amplitude
      1/sqrt(2) and "11" with amplitude -1/sqrt(2). */
  lemma SimulateBell(sqrt: real -> real)
    requires IsSqrt(sqrt)
    ensures Simulate([H(0), CX(0, 1)], sqrt, AsWritten) ==
      Success([Entry("00", 1.0 / sqrt(2.0)), Entry("11", -1.0 / sqrt(2.0))])
  {
    SqrtOfTwo(sqrt);
    var root2 := sqrt(2.0);
    var a := 1.0 / root2;
    var b := -1.0 / root2;
    var s := [a, 0.0, 0.0, b];
    BellRun(root2);
    HalfAndHalf(a, root2);
    BellSumSq(a, b);
    BellListing(a, b);
    SimulateUnit([H(0), CX(0, 1)], sqrt, AsWritten, s);
  }

  /** With the intended butterfly the Bell circuit lists "00" and "11",
      each with amplitude 1/sqrt(2). */
  lemma SimulateBellIntended(sqrt: real -> real)
    requires IsSqrt(sqrt)
    ensures Simulate([H(0), CX(0, 1)], sqrt, Intended) ==
      Success([Entry("00", 1.0 / sqrt(2.0)), Entry("11", 1.0 / sqrt(2.0))])
  {
    SqrtOfTwo(sqrt);
    var root2 := sqrt(2.0);
    var a := 1.0 / root2;
    var s := [a, 0.0, 0.0, a];
    BellRunIntended(root2);
    HalfAndHalf(a, root2);
    BellSumSq(a, a);
    BellListing(a, a);
    SimulateUnit([H(0), CX(0, 1)], sqrt, Intended, s);
  }

  /** The empty circuit: a register of 0 qubits whose one amplitude is 1,
      listed under the label "0". */
  lemma SimulateEmpty(sqrt: real -> real, bf: Butterfly)
    requires IsSqrt(sqrt)
    ensures Simulate([], sqrt, bf) == Success([Entry("0", 1.0)])
  {
    SqrtOfTwo(sqrt);
    var s := Initial(0);
    assert s == [1.0];
    assert Run(s, 0, [], sqrt(2.0), bf) == Success(s);
    assert SumSq(s) == 1.0 by {
      SumSqCons(1.0, []);
      SumSqOfZero([]);
      assert [1.0] == [1.0] + [];
    }
    assert FormatState(s) == [Entry("0", 1.0)] by {
      assert NonzeroFrom(s, 1) == [];
      assert Support(s) == [0];
      assert Width(1) == 0;
      assert Label(0, 0) == "0";
    }
    assert Simulate([], sqrt, bf).value == Listing(s, sqrt);
  }

  /** One qubit after H with the source's butterfly: [a, -a], a = 1/sqrt(2). */
  lemma SingleHadamardRun(root2: real)
    requires IsRoot2(root2)
    ensures Run(Initial(1), 1, [H(0)], root2, AsWritten) == Success([1.0 / root2, -1.0 / root2])
  {
    var a := 1.0 / root2;
    var s := Initial(1);
    assert s == [1.0, 0.0];
    assert Bit(0, 0) == 0 && Bit(1, 0) == 1 && Flip(0, 0) == 1 && Flip(1, 0) == 0;
    var h := HadamardAsWritten(s, 1, 0, root2);
    assert h[1] == (0.0 - 1.0) / root2 == -a;
    assert h == [a, -a];
    RunCons(s, 1, H(0), [], root2, AsWritten);
    assert [H(0)] == [H(0)] + [];
  }

  /** One qubit after H with the intended butterfly: [a, a], a = 1/sqrt(2). */
  lemma SingleHadamardRunIntended(root2: real)
    requires IsRoot2(root2)
    ensures Run(Initial(1), 1, [H(0)], root2, Intended) == Success([1.0 / root2, 1.0 / root2])
  {
    var a := 1.0 / root2;
    var s := Initial(1);
    assert s == [1.0, 0.0];
    assert Bit(0, 0) == 0 && Bit(1, 0) == 1 && Flip(0, 0) == 1 && Flip(1, 0) == 0;
    var h := Hadamard(s, 1, 0, root2);
    assert h == [a, a];
    RunCons(s, 1, H(0), [], root2, Intended);
    assert [H(0)] == [H(0)] + [];
  }

  /** The listing of a one-qubit state [a, c]: labels "0" and "1". */
  lemma SingleHadamardListing(a: real, c: real)
    requires a != 0.0 && c != 0.0
    ensures SumSq([a, c]) == a * a + c * c
    ensures FormatState([a, c]) == [Entry("0", a), Entry("1", c)]
  {
    var h := [a, c];
    SumSqCons(a, [c]);
    SumSqCons(c, []);
    SumSqOfZero([]);
    assert h == [a] + [c] && [c] == [c] + [];
    assert NonzeroFrom(h, 1) == [1];
    assert Support(h) == [0, 1];
    assert Width(2) == 1;
    assert Label(0, 1) == "0" && Label(1, 1) == "1";
  }

  /** A single Hadamard gate on qubit 0: the source lists "0" with
      amplitude 1/sqrt(2) and "1" with amplitude -1/sqrt(2), the listing
      "1: -0.7071". */
  lemma SimulateSingleHadamard(sqrt: real -> real)
    requires IsSqrt(sqrt)
    ensures Simulate([H(0)], sqrt, AsWritten) ==
      Success([Entry("0", 1.0 / sqrt(2.0)), Entry("1", -1.0 / sqrt(2.0))])
  {
    SqrtOfTwo(sqrt);
    var root2 := sqrt(2.0);
    var a := 1.0 / root2;
    HalfAndHalf(a, root2);
    SingleHadamardRun(root2);
    SingleHadamardListing(a, -a);
    SimulateUnit([H(0)], sqrt, AsWritten, [a, -a]);
  }

  /** With the intended butterfly a single H(0) lists "0" and "1", each with
      amplitude 1/sqrt(2). */
  lemma SimulateSingleHadamardIntended(sqrt: real -> real)
    requires IsSqrt(sqrt)
    ensures Simulate([H(0)], sqrt, Intended) ==
      Success([Entry("0", 1.0 / sqrt(2.0)), Entry("1", 1.0 / sqrt(2.0))])
  {
    SqrtOfTwo(sqrt);
    var root2 := sqrt(2.0);
    var a := 1.0 / root2;
    HalfAndHalf(a, root2);
    SingleHadamardRunIntended(root2);
    SingleHadamardListing(a, a);
    SimulateUnit([H(0)], sqrt, Intended, [a, a]);
  }

  /** With the source's butterfly, two Hadamard gates on qubit 0 take
      |0...0> to -|0...01>, and a CNOT whose control is its own target
      then copies the zero amplitude at even indices over the odd ones:
      the state vanishes. */
  lemma VanishingState(n: nat, root2: real)
    requires IsRoot2(root2) && 1 <= n
    ensures var hh := HadamardAsWritten(HadamardAsWritten(Initial(n), n, 0, root2), n, 0, root2);
      forall i :: 0 <= i < Pow2(n) ==> Cnot(hh, n, 0, 0)[i] == 0.0
  {
    var s := Initial(n);
    var hh := HadamardAsWritten(HadamardAsWritten(s, n, 0, root2), n, 0, root2);
    HadamardAsWrittenTwice(s, n, 0, root2);
    InitialIsBasisState(n);
    var z := Cnot(hh, n, 0, 0);
    forall i | 0 <= i < Pow2(n)
      ensures z[i] == 0.0
    {
      var j := Flip(i, 0);
      FlipToggles(i, 0);
      FlipFlip(i, 0);
      FlipStep(i, 0);
      if Bit(i, 0) == 0 {
        assert z[i] == hh[i] == s[j] && j == i + 1;
      } else {
        assert z[i] == hh[j] && Bit(j, 0) == 0;
        assert hh[j] == s[i] && i > 0;
      }
    }
  }

  /** `[H(0), H(0), CNOT(0, 0)]` runs to the CNOT of the two butterflies'
      result. */
  lemma VanishingRun(root2: real, bf: Butterfly)
    requires IsRoot2(root2)
    ensures Pow2(3) == 8
    ensures var hh := HadamardBy(bf, HadamardBy(bf, Initial(3), 3, 0, root2), 3, 0, root2);
      Run(Initial(3), 3, [H(0), H(0), CX(0, 0)], root2, bf) == Success(Cnot(hh, 3, 0, 0))
  {
    var s := Initial(3);
    var h := HadamardBy(bf, s, 3, 0, root2);
    var hh := HadamardBy(bf, h, 3, 0, root2);
    assert Dispatch(H(0), 3) == Success(ApplyH(0));
    assert Dispatch(CX(0, 0), 3) == Success(ApplyCnot(0, 0));
    RunCons(s, 3, H(0), [H(0), CX(0, 0)], root2, bf);
    RunCons(h, 3, H(0), [CX(0, 0)], root2, bf);
    RunCons(hh, 3, CX(0, 0), [], root2, bf);
    assert [H(0), H(0), CX(0, 0)] == [H(0)] + [H(0), CX(0, 0)];
    assert [H(0), CX(0, 0)] == [H(0)] + [CX(0, 0)] && [CX(0, 0)] == [CX(0, 0)] + [];
  }

  /** `[H(0), H(0), CNOT(0, 0)]` with the source's butterfly: the state after
      the gates is the zero vector, no entry of a listing scaled from it can
      be nonzero, and the listing is empty. */
  lemma SimulateVanishingState(sqrt: real -> real)
    requires IsSqrt(sqrt)
    ensures Simulate([H(0), H(0), CX(0, 0)], sqrt, AsWritten) == Success([])
  {
    SqrtOfTwo(sqrt);
    var root2 := sqrt(2.0);
    var gates := [H(0), H(0), CX(0, 0)];
    VanishingRun(root2, AsWritten);
    VanishingState(3, root2);
    var z := Cnot(HadamardAsWritten(HadamardAsWritten(Initial(3), 3, 0, root2), 3, 0, root2), 3, 0, 0);
    assert FinalState(gates, sqrt, AsWritten) == Success(z);
    SumSqOfZero(z);
    assert Simulate(gates, sqrt, AsWritten).value == Listing(z, sqrt);
  }

  /** With the intended butterfly the two H gates of `[H(0), H(0),
      CNOT(0, 0)]` cancel, the CNOT leaves |000> alone, and the amplitude 1
      at index 0 is listed. */
  lemma SimulateVanishingStateIntended(sqrt: real -> real)
    requires IsSqrt(sqrt)
    ensures Simulate([H(0), H(0), CX(0, 0)], sqrt, Intended).Success?
    ensures |Simulate([H(0), H(0), CX(0, 0)], sqrt, Intended).value| > 0
  {
    SqrtOfTwo(sqrt);
    var gates := [H(0), H(0), CX(0, 0)];
    var c := Cnot(Initial(3), 3, 0, 0);
    assert FinalState(gates, sqrt, Intended) == Success(c) && c[0] == 1.0 by {
      CancelledRun(sqrt(2.0));
    }
    assert Covers(Simulate(gates, sqrt, Intended).value, c);
  }

  /** With the intended butterfly the two H gates cancel, and the CNOT keeps
      the amplitude 1 of |000>. */
  lemma CancelledRun(root2: real)
    requires IsRoot2(root2)
    ensures Pow2(3) == 8
    ensures Run(Initial(3), 3, [H(0), H(0), CX(0, 0)], root2, Intended) == Success(Cnot(Initial(3), 3, 0, 0))
    ensures Cnot(Initial(3), 3, 0, 0)[0] == 1.0
  {
    var s := Initial(3);
    VanishingRun(root2, Intended);
    HadamardSelfInverse(s, 3, 0, root2);
    InitialIsBasisState(3);
    assert Bit(0, 0) == 0;
  }

  /** A Hadamard gate on a qubit beyond the register reads past the end of
      the vector; one on a negative qubit shifts by a negative count. */
  lemma SimulateHadamardOutsideRegister(sqrt: real -> real, bf: Butterfly)
    requires IsSqrt(sqrt)
    ensures Simulate([H(2)], sqrt, bf) == Failure(IndexOutOfRange)
    ensures Simulate([H(-1)], sqrt, bf) == Failure(NegativeShiftCount)
  {
    SqrtOfTwo(sqrt);
    RunCons(Initial(1), 1, H(2), [], sqrt(2.0), bf);
    RunCons(Initial(1), 1, H(-1), [], sqrt(2.0), bf);
    assert [H(2)] == [H(2)] + [] && [H(-1)] == [H(-1)] + [];
  }

  /** A CNOT whose control is inside the register but whose target is not
      reads past the end of the vector, while one whose control is outside
      the register does what an unknown gate does: nothing, whatever its
      target. */
  lemma SimulateCnotOutsideRegister(sqrt: real -> real, bf: Butterfly)
    requires IsSqrt(sqrt)
    ensures Simulate([CX(0, 5), H(0)], sqrt, bf) == Failure(IndexOutOfRange)
    ensures Simulate([CX(3, 5), H(0)], sqrt, bf) == Simulate([Gate(Some("X"), 0, 0, 0), H(0)], sqrt, bf)
  {
    SqrtOfTwo(sqrt);
    var root2 := sqrt(2.0);
    var x := Gate(Some("X"), 0, 0, 0);
    RunCons(Initial(2), 2, CX(0, 5), [H(0)], root2, bf);
    RunCons(Initial(2), 2, CX(3, 5), [H(0)], root2, bf);
    RunCons(Initial(2), 2, x, [H(0)], root2, bf);
    assert [CX(0, 5), H(0)] == [CX(0, 5)] + [H(0)];
    assert [CX(3, 5), H(0)] == [CX(3, 5)] + [H(0)];
    assert [x, H(0)] == [x] + [H(0)];
  }
}
