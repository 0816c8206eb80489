/** The statevector of an n-qubit register and the gate transformations of
    the engine: the initial basis state, the Hadamard butterfly, the CNOT
    index remap and normalisation. Amplitudes are exact reals; the factor
    1/sqrt(2) enters through a value `root2` whose square is 2. */
module Statevector {
  import opened Bits
  import opened Sums

  /** Amplitudes indexed by basis state; entry i belongs to the basis state
      whose bit k is the value of qubit k. */
  type State = seq<real>

  /** `root2` is the positive square root of 2, the divisor of the butterfly. */
  predicate IsRoot2(root2: real)
  {
    root2 > 0.0 && root2 * root2 == 2.0
  }

  /** The basis state |00...0> of an n-qubit register. */
  function Initial(n: nat): (s: State)
    ensures |s| == Pow2(n)
  {
    seq(Pow2(n), i => if i == 0 then 1.0 else 0.0)
  }

  /** The Hadamard gate on qubit q as the source writes it: an entry whose
      bit q is 0 becomes (s[i] + s[i ^ 2^q]) / sqrt(2), an entry whose bit q
      is 1 becomes (s[i] - s[i ^ 2^q]) / sqrt(2). Every entry is read from the
      vector before the gate. */
  function HadamardAsWritten(s: State, n: nat, q: nat, root2: real): (r: State)
    requires |s| == Pow2(n) && q < n && IsRoot2(root2)
    ensures |r| == |s|
  {
    FlipBelowAll(q, n);
    seq(|s|, i requires 0 <= i < |s| =>
      if Bit(i, q) == 1 then (s[i] - s[Flip(i, q)]) / root2
      else (s[i] + s[Flip(i, q)]) / root2)
  }

  /** The Hadamard gate on qubit q: each pair (a, b) of amplitudes whose
      indices differ only in bit q, a with bit q clear, becomes
      ((a + b) / sqrt(2), (a - b) / sqrt(2)), computed from the vector before
      the gate. */
  function Hadamard(s: State, n: nat, q: nat, root2: real): (r: State)
    requires |s| == Pow2(n) && q < n && IsRoot2(root2)
    ensures |r| == |s|
  {
    FlipBelowAll(q, n);
    seq(|s|, i requires 0 <= i < |s| =>
      if Bit(i, q) == 1 then (s[Flip(i, q)] - s[i]) / root2
      else (s[i] + s[Flip(i, q)]) / root2)
  }

  /** The two butterflies the model knows: the one the source computes and
      the Hadamard gate it evidently intends (see `HadamardAsWrittenTwice`). */
  datatype Butterfly = AsWritten | Intended

  /** The Hadamard gate on qubit q with the butterfly `bf`; both keep the
      squared norm. */
  function HadamardBy(bf: Butterfly, s: State, n: nat, q: nat, root2: real): (r: State)
    requires |s| == Pow2(n) && q < n && IsRoot2(root2)
    ensures |r| == |s|
    ensures SumSq(r) == SumSq(s)
  {
    if bf == AsWritten then
      HadamardAsWrittenPreservesSumSq(s, n, q, root2);
      HadamardAsWritten(s, n, q, root2)
    else
      HadamardPreservesSumSq(s, n, q, root2);
      Hadamard(s, n, q, root2)
  }

  /** The index whose amplitude lands at index i under CNOT(control, target). */
  function CnotSource(i: nat, control: nat, target: nat): (j: nat)
    ensures control != target ==> Bit(j, control) == Bit(i, control)
  {
    if Bit(i, control) == 1 then
      if control != target then FlipKeepsOtherBits(i, target, control); Flip(i, target)
      else Flip(i, target)
    else i
  }

  /** The CNOT gate: every index whose control bit is 1 takes the amplitude,
      in the vector before the gate, of the index with the target bit
      flipped; every other index keeps its amplitude. */
  function Cnot(s: State, n: nat, control: nat, target: nat): (r: State)
    requires |s| == Pow2(n) && control < n && target < n
    ensures |r| == |s|
    ensures forall i :: 0 <= i < |s| && Bit(i, control) == 0 ==> r[i] == s[i]
    ensures forall i :: 0 <= i < |s| && Bit(i, control) == 1 ==>
      Flip(i, target) < |s| && r[i] == s[Flip(i, target)]
  {
    FlipBelowAll(target, n);
    seq(|s|, i requires 0 <= i < |s| => s[CnotSource(i, control, target)])
  }

  /** Division of every amplitude by the Euclidean norm `norm`, the square
      root of the squared norm; the zero vector (norm 0) is returned as it is. */
  function Normalize(s: State, norm: real): (r: State)
    requires norm >= 0.0 && norm * norm == SumSq(s)
    ensures |r| == |s|
    ensures norm == 0.0 ==> r == s
    ensures norm != 0.0 ==> SumSq(r) == 1.0
    ensures norm != 0.0 ==> forall i :: 0 <= i < |s| ==> r[i] * norm == s[i]
  {
    if norm == 0.0 then s
    else
      var r := seq(|s|, i requires 0 <= i < |s| => s[i] / norm);
      SumSqScale(s, r, 1.0 / norm);
      r
  }

  /** The initial state is a unit vector whose only non-zero amplitude is
      the 1 at index 0. */
  lemma InitialIsBasisState(n: nat)
    ensures |Initial(n)| == Pow2(n)
    ensures Initial(n)[0] == 1.0
    ensures forall i :: 0 < i < Pow2(n) ==> Initial(n)[i] == 0.0
    ensures SumSq(Initial(n)) == 1.0
  {
    var s := Initial(n);
    var rest := s[1..];
    SumSqOfZero(rest);
    assert Squares(s)[1..] == Squares(rest);
  }

  /** Flipping qubit q is an involution of the indices of an n-qubit register. */
  lemma FlipIsInvolution(n: nat, q: nat)
    requires q < n
    ensures IsInvolution(i => Flip(i, q), Pow2(n))
  {
    forall i | 0 <= i < Pow2(n)
      ensures Flip(i, q) < Pow2(n) && Flip(Flip(i, q), q) == i
    {
      FlipBelow(i, q, n);
      FlipFlip(i, q);
    }
  }

  /** Entry i of the Hadamard gate's result, from the vector before the gate. */
  lemma HadamardAt(s: State, n: nat, q: nat, root2: real, i: nat)
    requires |s| == Pow2(n) && q < n && IsRoot2(root2) && i < |s|
    ensures Flip(i, q) < |s|
    ensures Bit(i, q) == 0 ==> Hadamard(s, n, q, root2)[i] == (s[i] + s[Flip(i, q)]) / root2
    ensures Bit(i, q) == 1 ==> Hadamard(s, n, q, root2)[i] == (s[Flip(i, q)] - s[i]) / root2
  {
    FlipBelow(i, q, n);
  }

  /** The butterfly of the Hadamard gate, pair by pair: for the pair
      (i, i ^ 2^q) with bit q of i clear, the new amplitudes are
      (a + b) / sqrt(2) at i and (a - b) / sqrt(2) at its partner. */
  lemma HadamardButterfly(s: State, n: nat, q: nat, root2: real, i: nat)
    requires |s| == Pow2(n) && q < n && IsRoot2(root2)
    requires i < |s| && Bit(i, q) == 0
    ensures Flip(i, q) < |s|
    ensures Hadamard(s, n, q, root2)[i] == (s[i] + s[Flip(i, q)]) / root2
    ensures Hadamard(s, n, q, root2)[Flip(i, q)] == (s[i] - s[Flip(i, q)]) / root2
  {
    var h := Hadamard(s, n, q, root2);
    var j := Flip(i, q);
    HadamardAt(s, n, q, root2, i);
    assert Bit(j, q) == 1 && Flip(j, q) == i by {
      FlipToggles(i, q);
      FlipFlip(i, q);
    }
    assert h[j] == (s[i] - s[j]) / root2 by {
      HadamardAt(s, n, q, root2, j);
    }
  }

  /** The Hadamard gate is its own inverse. */
  lemma HadamardSelfInverse(s: State, n: nat, q: nat, root2: real)
    requires |s| == Pow2(n) && q < n && IsRoot2(root2)
    ensures Hadamard(Hadamard(s, n, q, root2), n, q, root2) == s
  {
    var h := Hadamard(s, n, q, root2);
    var hh := Hadamard(h, n, q, root2);
    forall i | 0 <= i < |s|
      ensures hh[i] == s[i]
    {
      var j := Flip(i, q);
      FlipBelow(i, q, n);
      FlipToggles(i, q);
      FlipFlip(i, q);
      var a := s[i];
      var b := s[j];
      if Bit(i, q) == 0 {
        assert h[i] == (a + b) / root2 && h[j] == (a - b) / root2;
        assert hh[i] == (h[i] + h[j]) / root2;
        ButterflyTwice(a, b, root2);
      } else {
        assert h[i] == (b - a) / root2 && h[j] == (b + a) / root2;
        assert hh[i] == (h[j] - h[i]) / root2;
        ButterflyTwice(b, a, root2);
      }
    }
  }

  /** The arithmetic behind the two butterflies undoing each other. */
  lemma ButterflyTwice(a: real, b: real, root2: real)
    requires IsRoot2(root2)
    ensures ((a + b) / root2 + (a - b) / root2) / root2 == a
    ensures ((a + b) / root2 - (a - b) / root2) / root2 == b
  {
  }

  /** The arithmetic behind the butterfly keeping the squared norm of a pair. */
  lemma ButterflySquares(a: real, b: real, root2: real)
    requires IsRoot2(root2)
    ensures ((a + b) / root2) * ((a + b) / root2) == 0.5 * (a * a) + 0.5 * (b * b) + a * b
    ensures ((b - a) / root2) * ((b - a) / root2) == 0.5 * (a * a) + 0.5 * (b * b) - a * b
  {
  }

  /** The Hadamard gate keeps the squared norm: it is unitary. */
  lemma HadamardPreservesSumSq(s: State, n: nat, q: nat, root2: real)
    requires |s| == Pow2(n) && q < n && IsRoot2(root2)
    ensures SumSq(Hadamard(s, n, q, root2)) == SumSq(s)
  {
    var h := Hadamard(s, n, q, root2);
    FlipIsInvolution(n, q);
    FlipBelowAll(q, n);
    // Each squared amplitude of h is half its own square, half its
    // partner's square, and a cross term that changes sign under the flip.
    var cross := seq(|s|, i requires 0 <= i < |s| => CrossTerm(s, q, i));
    forall i | 0 <= i < |s|
      ensures Squares(h)[i] == 0.5 * Squares(s)[i] + 0.5 * Squares(s)[Flip(i, q)] + cross[i]
    {
      HadamardSquareAt(s, n, q, root2, i);
    }
    forall i | 0 <= i < |s|
      ensures cross[Flip(i, q)] == -cross[i]
    {
      FlipBelow(i, q, n);
      CrossTermFlips(s, q, i);
    }
    SumSqOfButterfly(h, s, i => Flip(i, q), cross);
  }

  /** The product of an amplitude and its partner's under qubit q, signed by
      bit q. */
  function CrossTerm(s: State, q: nat, i: nat): real
    requires i < |s| && Flip(i, q) < |s|
  {
    if Bit(i, q) == 0 then s[i] * s[Flip(i, q)] else -(s[i] * s[Flip(i, q)])
  }

  /** The cross term changes sign under the flip of qubit q. */
  lemma CrossTermFlips(s: State, q: nat, i: nat)
    requires i < |s| && Flip(i, q) < |s|
    ensures Flip(Flip(i, q), q) == i
    ensures CrossTerm(s, q, Flip(i, q)) == -CrossTerm(s, q, i)
  {
    FlipToggles(i, q);
    FlipFlip(i, q);
    var a := s[i];
    var b := s[Flip(i, q)];
    assert b * a == a * b;
  }

  /** One squared amplitude after the Hadamard gate. */
  lemma HadamardSquareAt(s: State, n: nat, q: nat, root2: real, i: nat)
    requires |s| == Pow2(n) && q < n && IsRoot2(root2) && i < |s|
    ensures Flip(i, q) < |s|
    ensures Squares(Hadamard(s, n, q, root2))[i] ==
      0.5 * Squares(s)[i] + 0.5 * Squares(s)[Flip(i, q)] + CrossTerm(s, q, i)
  {
    FlipBelow(i, q, n);
    var h := Hadamard(s, n, q, root2);
    var a := s[i];
    var b := s[Flip(i, q)];
    assert Squares(h)[i] == h[i] * h[i];
    assert Squares(s)[i] == a * a && Squares(s)[Flip(i, q)] == b * b;
    ButterflySquares(a, b, root2);
    if Bit(i, q) == 0 {
      assert h[i] == (a + b) / root2;
    } else {
      assert h[i] == (b - a) / root2;
    }
  }

  /** The CNOT index map is an involution of the register's indices when
      control and target differ. */
  lemma CnotSourceIsInvolution(n: nat, control: nat, target: nat)
    requires control < n && target < n && control != target
    ensures IsInvolution(i => CnotSource(i, control, target), Pow2(n))
  {
    forall i | 0 <= i < Pow2(n)
      ensures CnotSource(i, control, target) < Pow2(n)
      ensures CnotSource(CnotSource(i, control, target), control, target) == i
    {
      FlipBelow(i, target, n);
      FlipFlip(i, target);
      FlipKeepsOtherBits(i, target, control);
    }
  }

  /** CNOT with distinct control and target permutes the amplitudes: the
      result is the input read through an involution of the indices, so it
      holds the same multiset of amplitudes and the same squared norm. */
  lemma CnotPermutes(s: State, n: nat, control: nat, target: nat)
    requires |s| == Pow2(n) && control < n && target < n && control != target
    ensures IsInvolution(i => CnotSource(i, control, target), |s|)
    ensures forall i :: 0 <= i < |s| ==>
      CnotSource(i, control, target) < |s| && Cnot(s, n, control, target)[i] == s[CnotSource(i, control, target)]
    ensures multiset(Cnot(s, n, control, target)) == multiset(s)
    ensures SumSq(Cnot(s, n, control, target)) == SumSq(s)
  {
    CnotSourceIsInvolution(n, control, target);
    SumSqOfPermutation(Cnot(s, n, control, target), s, i => CnotSource(i, control, target));
  }

  /** CNOT with distinct control and target is its own inverse. */
  lemma CnotSelfInverse(s: State, n: nat, control: nat, target: nat)
    requires |s| == Pow2(n) && control < n && target < n && control != target
    ensures Cnot(Cnot(s, n, control, target), n, control, target) == s
  {
    var c := Cnot(s, n, control, target);
    var cc := Cnot(c, n, control, target);
    CnotSourceIsInvolution(n, control, target);
    forall i | 0 <= i < |s|
      ensures cc[i] == s[i]
    {
      var j := CnotSource(i, control, target);
      FlipBelow(i, target, n);
      FlipKeepsOtherBits(i, target, control);
      FlipFlip(i, target);
      assert cc[i] == c[j] && c[j] == s[CnotSource(j, control, target)];
    }
  }

  /** A unit vector has norm 1, so dividing it by its norm changes nothing:
      normalisation is idempotent. */
  lemma NormalizeUnit(s: State, norm: real)
    requires norm >= 0.0 && norm * norm == SumSq(s)
    ensures SumSq(s) == 1.0 ==> norm == 1.0 && Normalize(s, norm) == s
  {
    if SumSq(s) == 1.0 {
      var d := norm - 1.0;
      assert d * (norm + 1.0) == 0.0;
      assert d == (d * (norm + 1.0)) / (norm + 1.0);
    }
  }

  /** The source's butterfly differs from the Hadamard gate by a sign on
      every entry whose bit q is 1: it is the Hadamard gate followed by a
      phase flip (Pauli Z) on qubit q. */
  lemma HadamardAsWrittenIsPhaseFlipped(s: State, n: nat, q: nat, root2: real)
    requires |s| == Pow2(n) && q < n && IsRoot2(root2)
    ensures forall i :: 0 <= i < |s| ==>
      HadamardAsWritten(s, n, q, root2)[i] ==
        if Bit(i, q) == 1 then -Hadamard(s, n, q, root2)[i] else Hadamard(s, n, q, root2)[i]
  {
  }

  /** The source's butterfly keeps the squared norm too: it differs from the
      Hadamard gate only in signs. */
  lemma HadamardAsWrittenPreservesSumSq(s: State, n: nat, q: nat, root2: real)
    requires |s| == Pow2(n) && q < n && IsRoot2(root2)
    ensures SumSq(HadamardAsWritten(s, n, q, root2)) == SumSq(s)
  {
    var w := HadamardAsWritten(s, n, q, root2);
    var h := Hadamard(s, n, q, root2);
    HadamardAsWrittenIsPhaseFlipped(s, n, q, root2);
    HadamardPreservesSumSq(s, n, q, root2);
    SumSqIgnoresSigns(w, h);
  }

  /** Applying the source's butterfly twice does not give back the input:
      each pair (a, b), a at the index with bit q clear, ends as (b, -a). */
  lemma HadamardAsWrittenTwice(s: State, n: nat, q: nat, root2: real)
    requires |s| == Pow2(n) && q < n && IsRoot2(root2)
    ensures forall i :: 0 <= i < |s| ==>
      Flip(i, q) < |s| &&
      HadamardAsWritten(HadamardAsWritten(s, n, q, root2), n, q, root2)[i] ==
        if Bit(i, q) == 0 then s[Flip(i, q)] else -s[Flip(i, q)]
  {
    FlipBelowAll(q, n);
    forall i | 0 <= i < |s|
      ensures HadamardAsWritten(HadamardAsWritten(s, n, q, root2), n, q, root2)[i] ==
        if Bit(i, q) == 0 then s[Flip(i, q)] else -s[Flip(i, q)]
    {
      HadamardAsWrittenTwiceAt(s, n, q, root2, i);
    }
  }

  /** One entry of the source's butterfly applied twice. */
  lemma HadamardAsWrittenTwiceAt(s: State, n: nat, q: nat, root2: real, i: nat)
    requires |s| == Pow2(n) && q < n && IsRoot2(root2) && i < |s|
    ensures Flip(i, q) < |s|
    ensures HadamardAsWritten(HadamardAsWritten(s, n, q, root2), n, q, root2)[i] ==
      if Bit(i, q) == 0 then s[Flip(i, q)] else -s[Flip(i, q)]
  {
    FlipBelow(i, q, n);
    var h := HadamardAsWritten(s, n, q, root2);
    var hh := HadamardAsWritten(h, n, q, root2);
    var j := Flip(i, q);
    FlipToggles(i, q);
    FlipFlip(i, q);
    var a := s[i];
    var b := s[j];
    if Bit(i, q) == 0 {
      assert h[i] == (a + b) / root2 && h[j] == (b - a) / root2;
      assert hh[i] == (h[i] + h[j]) / root2;
      ButterflyTwice(b, a, root2);
    } else {
      assert h[i] == (a - b) / root2 && h[j] == (b + a) / root2;
      assert hh[i] == (h[i] - h[j]) / root2;
      ButterflyTwice(b, a, root2);
    }
  }

  /** A concrete input on which the source's butterfly, applied twice, does
      not return its input: one qubit in |0> ends in -|1>. */
  lemma HadamardAsWrittenNotSelfInverse(root2: real)
    requires IsRoot2(root2)
    ensures HadamardAsWritten(HadamardAsWritten(Initial(1), 1, 0, root2), 1, 0, root2) == [0.0, -1.0]
    ensures HadamardAsWritten(HadamardAsWritten(Initial(1), 1, 0, root2), 1, 0, root2) != Initial(1)
  {
    var s := Initial(1);
    assert s == [1.0, 0.0];
    HadamardAsWrittenTwice(s, 1, 0, root2);
    var hh := HadamardAsWritten(HadamardAsWritten(s, 1, 0, root2), 1, 0, root2);
    assert Flip(0, 0) == 1 && Flip(1, 0) == 0;
    assert Bit(0, 0) == 0 && Bit(1, 0) == 1;
    assert hh[0] == 0.0 && hh[1] == -1.0;
  }

  /** On one qubit in |0> the source's butterfly gives (|0> - |1>) / sqrt(2)
      where the Hadamard gate gives (|0> + |1>) / sqrt(2). */
  lemma HadamardAsWrittenOnZero(root2: real)
    requires IsRoot2(root2)
    ensures HadamardAsWritten(Initial(1), 1, 0, root2) == [1.0 / root2, -1.0 / root2]
    ensures Hadamard(Initial(1), 1, 0, root2) == [1.0 / root2, 1.0 / root2]
  {
    assert Initial(1) == [1.0, 0.0];
    assert Bit(0, 0) == 0 && Bit(1, 0) == 1 && Flip(0, 0) == 1 && Flip(1, 0) == 0;
  }

  /** A CNOT whose control is its own target is not a permutation: every
      index with that bit set copies the amplitude of its partner with the
      bit clear, so one qubit in |0> ends as [1, 1], of squared norm 2. */
  lemma CnotSelfTargetedCopies()
    ensures Cnot(Initial(1), 1, 0, 0) == [1.0, 1.0]
    ensures SumSq(Cnot(Initial(1), 1, 0, 0)) == 2.0
  {
    assert Initial(1) == [1.0, 0.0];
    assert Bit(0, 0) == 0 && Bit(1, 0) == 1 && Flip(1, 0) == 0;
    var c := Cnot(Initial(1), 1, 0, 0);
    assert c == [1.0, 1.0];
    SumSqCons(1.0, [1.0]);
    SumSqCons(1.0, []);
    SumSqOfZero([]);
    assert c == [1.0] + [1.0] && [1.0] == [1.0] + [];
  }
}
