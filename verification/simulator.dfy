/** The `/simulate` pipeline as a pure function: the register size is the
    number of gates in the request, the state starts in |00...0>, the gates
    are applied in list order, and the result is normalised and listed.
    Gate dictionaries are read as `Gate` values; a gate whose type is neither
    "H" nor "CNOT", or that has no type, is skipped. Applying a gate can
    raise, as Python does, and the whole request then fails. Every operation
    takes the butterfly of its Hadamard gates as a parameter `bf`: with
    `AsWritten` it is the source's request, with `Intended` the request with
    the corrected gate. */
module Simulator {
  import opened Bits
  import opened Sums
  import opened Statevector
  import opened Binary
  import opened Format

  datatype Option<T> = None | Some(value: T)

  /** One gate dictionary of the request: its "gate" entry when present, and
      its "qubit", "control" and "target" entries. */
  datatype Gate = Gate(kind: Option<string>, qubit: int, control: int, target: int)

  /** The exceptions applying a gate raises. */
  datatype Error =
    | NegativeShiftCount  // Python's ValueError for `>>` or `<<` by a negative count
    | IndexOutOfRange     // Python's IndexError for reading past the end of the vector

  datatype Result<T> = Success(value: T) | Failure(error: Error)

  /** What a gate does to an n-qubit register once it has been dispatched. */
  datatype Op =
    | Skip
    | ApplyH(qubit: nat)
    | ApplyCnot(control: nat, target: nat)

  /** The qubits an operation touches lie in the register. */
  predicate Fits(op: Op, n: nat)
  {
    match op
    case Skip => true
    case ApplyH(q) => q < n
    case ApplyCnot(c, t) => c < n && t < n
  }

  /** The operation keeps the squared norm: every operation except a CNOT
      whose control is its own target. */
  predicate Unitary(op: Op)
  {
    !(op.ApplyCnot? && op.control == op.target)
  }

  /** The gate's type, when it is one the dispatch acts on. */
  predicate IsH(g: Gate) { g.kind == Some("H") }
  predicate IsCnot(g: Gate) { g.kind == Some("CNOT") }

  /** Dispatch of one gate on an n-qubit register (n = number of gates): the
      operation it performs, or the exception Python raises applying it.
      A negative qubit index fails at the first shift; a Hadamard qubit at or
      beyond n reads past the vector at index 0; a CNOT whose control is at
      or beyond n never finds its control bit set and changes nothing, while
      one with the control inside the register fails on a negative or
      too-large target as soon as it reaches index 2^control. */
  function Dispatch(g: Gate, n: nat): (r: Result<Op>)
    ensures r.Success? ==> Fits(r.value, n)
    ensures !IsH(g) && !IsCnot(g) ==> r == Success(Skip)
    ensures IsH(g) ==> (r.Success? <==> 0 <= g.qubit < n)
    ensures IsH(g) && r.Success? ==> r.value == ApplyH(g.qubit)
    ensures IsCnot(g) ==>
      (r.Success? <==> 0 <= g.control && (g.control < n ==> 0 <= g.target < n))
    ensures IsCnot(g) && r.Success? && g.control < n ==>
      r.value.ApplyCnot? && r.value.control == g.control && r.value.target == g.target
    ensures IsCnot(g) && r.Success? && g.control >= n ==> r.value == Skip
  {
    match g.kind
    case None => Success(Skip)
    case Some(name) =>
      if name == "H" then
        if g.qubit < 0 then Failure(NegativeShiftCount)
        else if g.qubit >= n then Failure(IndexOutOfRange)
        else Success(ApplyH(g.qubit))
      else if name == "CNOT" then
        if g.control < 0 then Failure(NegativeShiftCount)
        else if g.control >= n then Success(Skip)
        else if g.target < 0 then Failure(NegativeShiftCount)
        else if g.target >= n then Failure(IndexOutOfRange)
        else Success(ApplyCnot(g.control, g.target))
      else Success(Skip)
  }

  /** Performing a dispatched operation on the state. */
  function Apply(s: State, n: nat, op: Op, root2: real, bf: Butterfly): (r: State)
    requires |s| == Pow2(n) && Fits(op, n) && IsRoot2(root2)
    ensures |r| == |s|
    ensures Unitary(op) ==> SumSq(r) == SumSq(s)
  {
    match op
    case Skip => s
    case ApplyH(q) => HadamardBy(bf, s, n, q, root2)
    case ApplyCnot(c, t) =>
      if c != t then CnotPermutes(s, n, c, t); Cnot(s, n, c, t)
      else Cnot(s, n, c, t)
  }

  /** Applying the gates in list order, stopping at the first exception. */
  function Run(s: State, n: nat, gates: seq<Gate>, root2: real, bf: Butterfly): (r: Result<State>)
    requires |s| == Pow2(n) && IsRoot2(root2)
    ensures r.Success? ==> |r.value| == |s|
    ensures r.Success? <==> forall k :: 0 <= k < |gates| ==> Dispatch(gates[k], n).Success?
    decreases |gates|
  {
    if |gates| == 0 then Success(s)
    else
      match Dispatch(gates[0], n)
      case Failure(e) => Failure(e)
      case Success(op) =>
        var r := Run(Apply(s, n, op, root2, bf), n, gates[1..], root2, bf);
        assert forall k :: 1 <= k < |gates| ==> gates[k] == gates[1..][k - 1];
        r
  }

  /** `sqrt` returns the non-negative square root of every non-negative real. */
  ghost predicate IsSqrt(sqrt: real -> real)
  {
    forall x :: 0.0 <= x ==> 0.0 <= sqrt(x) && sqrt(x) * sqrt(x) == x
  }

  /** The square root of 2 is the divisor of the butterfly. */
  lemma SqrtOfTwo(sqrt: real -> real)
    requires IsSqrt(sqrt)
    ensures IsRoot2(sqrt(2.0))
  {
    var y := sqrt(2.0);
    assert 0.0 <= y && y * y == 2.0;
  }

  /** Every entry of r names, by its binary label, an index whose amplitude
      in s is non-zero and equals the entry's amplitude times `norm`. */
  ghost predicate ListsScaled(r: seq<Entry>, s: State, norm: real)
  {
    forall j :: 0 <= j < |r| ==>
      IsBinary(r[j].basisLabel) && Value(r[j].basisLabel) < |s| &&
      r[j].amplitude != 0.0 && s[Value(r[j].basisLabel)] != 0.0 &&
      r[j].amplitude * norm == s[Value(r[j].basisLabel)]
  }

  /** Every non-zero amplitude of s has an entry of r labelled with its index. */
  ghost predicate Covers(r: seq<Entry>, s: State)
  {
    forall i :: 0 <= i < |s| && s[i] != 0.0 ==>
      exists j :: 0 <= j < |r| && Value(r[j].basisLabel) == i
  }

  /** The labels of r denote strictly increasing indices: every index is
      listed at most once, in ascending order. */
  ghost predicate Ascending(r: seq<Entry>)
  {
    forall j, j' :: 0 <= j < j' < |r| ==> Value(r[j].basisLabel) < Value(r[j'].basisLabel)
  }

  /** A listing read against the vector it was made from: every entry's
      amplitude is the amplitude at its label, and every non-zero amplitude
      has an entry. */
  /** Every label of r is the w-digit padding of the index it denotes: no
      label is shorter than w, and none carries more leading zeros than the
      padding to w puts there. */
  ghost predicate Padded(r: seq<Entry>, w: nat)
  {
    forall j :: 0 <= j < |r| ==> r[j].basisLabel == Label(Value(r[j].basisLabel), w)
  }

  /** The listing of u pads every label to the register width of u. */
  lemma ListingPadded(u: State)
    ensures Padded(FormatState(u), Width(|u|))
  {
    var r := FormatState(u);
    forall j | 0 <= j < |r|
      ensures r[j].basisLabel == Label(Value(r[j].basisLabel), Width(|u|))
    {
      LabelRoundTrip(Support(u)[j], Width(|u|));
    }
  }

  lemma ListingOfItself(u: State)
    ensures ListsScaled(FormatState(u), u, 1.0)
    ensures Covers(FormatState(u), u)
    ensures Ascending(FormatState(u))
  {
    FormatListsNonzeroAmplitudes(u);
  }

  /** A listing of u, read against s where u times a non-zero factor is s:
      each entry's amplitude times the factor is the amplitude of s at its
      label, which is non-zero. */
  lemma ListsRescaled(r: seq<Entry>, u: State, s: State, norm: real)
    requires |u| == |s| && norm != 0.0
    requires forall i :: 0 <= i < |s| ==> u[i] * norm == s[i]
    requires ListsScaled(r, u, 1.0)
    ensures ListsScaled(r, s, norm)
  {
    forall j | 0 <= j < |r|
      ensures IsBinary(r[j].basisLabel) && Value(r[j].basisLabel) < |s| &&
        r[j].amplitude != 0.0 && s[Value(r[j].basisLabel)] != 0.0 &&
        r[j].amplitude * norm == s[Value(r[j].basisLabel)]
    {
      var k := Value(r[j].basisLabel);
      var a := r[j].amplitude;
      assert a * 1.0 == u[k] && a != 0.0;
      assert u[k] * norm == s[k];
      ProductZero(a, norm);
    }
  }

  /** A listing that covers u covers s when u times a factor is s: a
      non-zero amplitude of s comes from a non-zero amplitude of u. */
  lemma CoversRescaled(r: seq<Entry>, u: State, s: State, norm: real)
    requires |u| == |s|
    requires forall i :: 0 <= i < |s| ==> u[i] * norm == s[i]
    requires Covers(r, u)
    ensures Covers(r, s)
  {
    forall i | 0 <= i < |s| && s[i] != 0.0
      ensures exists j :: 0 <= j < |r| && Value(r[j].basisLabel) == i
    {
      assert u[i] * norm == s[i];
      assert u[i] != 0.0;
    }
  }

  /** The only state of squared norm 0 is the zero vector, which has an
      empty listing. */
  lemma ListingOfZero(s: State)
    requires SumSq(s) == 0.0
    ensures forall i :: 0 <= i < |s| ==> s[i] == 0.0
    ensures FormatState(s) == []
  {
    SumSqZeroIsZero(s);
    NonzeroFromZero(s, 0);
  }

  /** The listing of u, where u times a non-zero factor is s, read
      against s. */
  lemma ListingOfDivided(s: State, u: State, norm: real)
    requires |u| == |s| && norm != 0.0
    requires forall i :: 0 <= i < |s| ==> u[i] * norm == s[i]
    ensures ListsScaled(FormatState(u), s, norm)
    ensures Covers(FormatState(u), s)
  {
    var r := FormatState(u);
    ListingOfItself(u);
    ListsRescaled(r, u, s, norm);
    CoversRescaled(r, u, s, norm);
  }

  /** The listing of a state divided by its norm: each entry's amplitude
      times the norm is the state's amplitude at its label, every non-zero
      amplitude is listed, and the zero vector, of norm 0, has no entries. */
  lemma ListingOfNormalized(s: State, norm: real)
    requires norm >= 0.0 && norm * norm == SumSq(s)
    ensures ListsScaled(FormatState(Normalize(s, norm)), s, norm)
    ensures Covers(FormatState(Normalize(s, norm)), s)
    ensures SumSq(s) == 0.0 ==> FormatState(Normalize(s, norm)) == []
  {
    SquareZero(norm);
    if norm == 0.0 {
      assert Normalize(s, norm) == s;
      ListingOfZero(s);
    } else {
      ListingOfDivided(s, Normalize(s, norm), norm);
    }
  }

  /** The tail of the request: the state divided by its Euclidean norm and
      listed. A state with a non-zero amplitude is listed as a unit vector;
      the zero vector is listed as it is, with no entries. */
  function Listing(s: State, sqrt: real -> real): (r: seq<Entry>)
    requires IsSqrt(sqrt)
    ensures ListsScaled(r, s, sqrt(SumSq(s)))
    ensures Covers(r, s)
    ensures SumSq(s) != 0.0 ==> SumSq(Amplitudes(r)) == 1.0
    ensures SumSq(s) == 1.0 ==> r == FormatState(s)
    ensures SumSq(s) == 0.0 ==> r == []
    ensures Ascending(r)
    ensures Padded(r, Width(|s|))
  {
    var norm := sqrt(SumSq(s));
    assert norm >= 0.0 && norm * norm == SumSq(s);
    var u := Normalize(s, norm);
    ListingOfItself(u);
    ListingPadded(u);
    FormatKeepsSumSq(u);
    NormalizeUnit(s, norm);
    ListingOfNormalized(s, norm);
    FormatState(u)
  }

  /** The state after the gates of the request, from the all-zero basis
      state of n qubits, n the number of gates. */
  function FinalState(circuit: seq<Gate>, sqrt: real -> real, bf: Butterfly): (r: Result<State>)
    requires IsSqrt(sqrt)
    ensures r.Success? ==> |r.value| == Pow2(|circuit|)
    ensures r.Success? <==> forall k :: 0 <= k < |circuit| ==> Dispatch(circuit[k], |circuit|).Success?
  {
    SqrtOfTwo(sqrt);
    Run(Initial(|circuit|), |circuit|, circuit, sqrt(2.0), bf)
  }

  /** The whole request: n is the number of gates, the state starts in the
      all-zero basis state, the gates run in order, and the result is divided
      by its Euclidean norm and listed. `sqrt` stands for the square root the
      source takes (1/sqrt(2) in the butterfly, the norm in normalisation).
      The request succeeds exactly when every gate dispatches. The listing
      has one entry per non-zero amplitude of the final state, in index
      order, each labelled with n binary digits ("0" for the empty circuit)
      and carrying that amplitude divided by the norm. */
  function Simulate(circuit: seq<Gate>, sqrt: real -> real, bf: Butterfly): (r: Result<seq<Entry>>)
    requires IsSqrt(sqrt)
    ensures r.Success? <==> forall k :: 0 <= k < |circuit| ==> Dispatch(circuit[k], |circuit|).Success?
    ensures r.Success? ==> forall j :: 0 <= j < |r.value| ==>
      r.value[j].amplitude != 0.0 &&
      |r.value[j].basisLabel| == (if |circuit| == 0 then 1 else |circuit|) &&
      Value(r.value[j].basisLabel) < Pow2(|circuit|)
    ensures r.Success? ==> FinalState(circuit, sqrt, bf).Success?
    ensures r.Success? ==>
      ListsScaled(r.value, FinalState(circuit, sqrt, bf).value, sqrt(SumSq(FinalState(circuit, sqrt, bf).value)))
    ensures r.Success? ==> Covers(r.value, FinalState(circuit, sqrt, bf).value)
    ensures r.Success? ==> Ascending(r.value)
    ensures r.Success? ==> Padded(r.value, Width(Pow2(|circuit|)))
    ensures r.Success? && SumSq(FinalState(circuit, sqrt, bf).value) != 0.0 ==>
      SumSq(Amplitudes(r.value)) == 1.0
  {
    var n := |circuit|;
    match FinalState(circuit, sqrt, bf)
    case Failure(e) => Failure(e)
    case Success(s) =>
      var norm := sqrt(SumSq(s));
      assert norm >= 0.0 && norm * norm == SumSq(s);
      FormatLabelWidth(Normalize(s, norm), n);
      Success(Listing(s, sqrt))
  }

  /** A request whose gates end in a unit vector lists that vector as it is. */
  lemma SimulateUnit(circuit: seq<Gate>, sqrt: real -> real, bf: Butterfly, s: State)
    requires IsSqrt(sqrt)
    requires FinalState(circuit, sqrt, bf) == Success(s) && SumSq(s) == 1.0
    ensures Simulate(circuit, sqrt, bf) == Success(FormatState(s))
  {
    assert Simulate(circuit, sqrt, bf).value == Listing(s, sqrt);
  }

  /** A CNOT whose control lies outside the register changes nothing: no
      index of the register has that bit set, so the source's loop never
      writes. This is why dispatch turns it into `Skip`. */
  lemma CnotControlOutsideRegister(s: State, n: nat, control: nat)
    requires |s| == Pow2(n) && n <= control
    ensures forall i :: 0 <= i < |s| ==> Bit(i, control) == 0
  {
    forall i | 0 <= i < |s|
      ensures Bit(i, control) == 0
    {
      BitOutsideRegister(i, control, n);
    }
  }

  /** Gates are applied strictly in list order: running a + b is running a,
      then running b on its result, and a failure in a stops everything. */
  lemma {:induction false} RunAppend(s: State, n: nat, a: seq<Gate>, b: seq<Gate>, root2: real, bf: Butterfly)
    requires |s| == Pow2(n) && IsRoot2(root2)
    ensures Run(s, n, a, root2, bf).Failure? ==> Run(s, n, a + b, root2, bf) == Run(s, n, a, root2, bf)
    ensures Run(s, n, a, root2, bf).Success? ==>
      Run(s, n, a + b, root2, bf) == Run(Run(s, n, a, root2, bf).value, n, b, root2, bf)
    decreases |a|
  {
    if |a| == 0 {
      assert a + b == b;
    } else {
      assert (a + b)[0] == a[0];
      assert (a + b)[1..] == a[1..] + b;
      match Dispatch(a[0], n)
      case Failure(e) =>
      case Success(op) =>
        RunAppend(Apply(s, n, op, root2, bf), n, a[1..], b, root2, bf);
    }
  }

  /** A gate whose type is neither "H" nor "CNOT" (an X, Y or Z gate, any
      other name, or no "gate" entry at all) is skipped: removing it from
      the circuit changes nothing, wherever it stands. */
  lemma RunSkipsOtherGates(s: State, n: nat, a: seq<Gate>, g: Gate, b: seq<Gate>, root2: real, bf: Butterfly)
    requires |s| == Pow2(n) && IsRoot2(root2)
    requires !IsH(g) && !IsCnot(g)
    ensures Run(s, n, a + [g] + b, root2, bf) == Run(s, n, a + b, root2, bf)
  {
    RunAppend(s, n, a + [g], b, root2, bf);
    RunAppend(s, n, a, [g], root2, bf);
    RunAppend(s, n, a, b, root2, bf);
    match Run(s, n, a, root2, bf)
    case Failure(e) =>
    case Success(s') =>
      assert [g][1..] == [];
  }

  /** The request fails with the exception of its first failing gate. */
  lemma {:induction false} RunFailsAtFirstBadGate(s: State, n: nat, gates: seq<Gate>, k: nat, root2: real, bf: Butterfly)
    requires |s| == Pow2(n) && IsRoot2(root2)
    requires k < |gates| && Dispatch(gates[k], n).Failure?
    requires forall j :: 0 <= j < k ==> Dispatch(gates[j], n).Success?
    ensures Run(s, n, gates, root2, bf) == Failure(Dispatch(gates[k], n).error)
    decreases k
  {
    if k > 0 {
      var op := Dispatch(gates[0], n).value;
      forall j | 0 <= j < k - 1
        ensures Dispatch(gates[1..][j], n).Success?
      {
        assert gates[1..][j] == gates[j + 1];
      }
      RunFailsAtFirstBadGate(Apply(s, n, op, root2, bf), n, gates[1..], k - 1, root2, bf);
    }
  }

  /** No gate of the circuit is a CNOT whose control, inside the register,
      is also its target. */
  ghost predicate NoSelfTargetedCnot(gates: seq<Gate>, n: nat)
  {
    forall k :: 0 <= k < |gates| && IsCnot(gates[k]) && 0 <= gates[k].control < n ==>
      gates[k].control != gates[k].target
  }

  /** Every gate the dispatch accepts is unitary unless it is a CNOT with
      control equal to target, so such circuits keep the squared norm. */
  lemma {:induction false} RunKeepsSumSq(s: State, n: nat, gates: seq<Gate>, root2: real, bf: Butterfly)
    requires |s| == Pow2(n) && IsRoot2(root2)
    requires NoSelfTargetedCnot(gates, n)
    requires Run(s, n, gates, root2, bf).Success?
    ensures SumSq(Run(s, n, gates, root2, bf).value) == SumSq(s)
    decreases |gates|
  {
    if |gates| > 0 {
      var op := Dispatch(gates[0], n).value;
      assert Unitary(op);
      assert forall j :: 0 <= j < |gates| - 1 ==> gates[1..][j] == gates[j + 1];
      RunKeepsSumSq(Apply(s, n, op, root2, bf), n, gates[1..], root2, bf);
    }
  }

  /** Running one gate more: its dispatch, then the rest. */
  lemma RunCons(s: State, n: nat, g: Gate, rest: seq<Gate>, root2: real, bf: Butterfly)
    requires |s| == Pow2(n) && IsRoot2(root2)
    ensures Dispatch(g, n).Failure? ==>
      Run(s, n, [g] + rest, root2, bf) == Failure(Dispatch(g, n).error)
    ensures Dispatch(g, n).Success? ==>
      Run(s, n, [g] + rest, root2, bf) == Run(Apply(s, n, Dispatch(g, n).value, root2, bf), n, rest, root2, bf)
  {
    assert ([g] + rest)[0] == g && ([g] + rest)[1..] == rest;
  }

  /** Two identical Hadamard gates in a row: with the intended butterfly
      they leave the state as it was; with the source's butterfly each pair
      (a, b), a at the index whose bit q is clear, ends as (b, -a). */
  lemma RunHadamardTwice(s: State, n: nat, q: nat, root2: real, bf: Butterfly)
    requires |s| == Pow2(n) && IsRoot2(root2) && q < n
    ensures var r := Run(s, n, [Gate(Some("H"), q, 0, 0), Gate(Some("H"), q, 0, 0)], root2, bf);
      r.Success? && |r.value| == |s| &&
      (bf == Intended ==> r.value == s) &&
      (bf == AsWritten ==> forall i :: 0 <= i < |s| ==>
        Flip(i, q) < |s| && r.value[i] == if Bit(i, q) == 0 then s[Flip(i, q)] else -s[Flip(i, q)])
  {
    var g := Gate(Some("H"), q, 0, 0);
    assert Dispatch(g, n) == Success(ApplyH(q));
    var h := HadamardBy(bf, s, n, q, root2);
    assert Apply(s, n, ApplyH(q), root2, bf) == h;
    var hh := HadamardBy(bf, h, n, q, root2);
    assert Apply(h, n, ApplyH(q), root2, bf) == hh;
    RunCons(s, n, g, [g], root2, bf);
    RunCons(h, n, g, [], root2, bf);
    assert [g, g] == [g] + [g] && [g] == [g] + [];
    assert Run(s, n, [g, g], root2, bf) == Success(hh);
    if bf == Intended {
      HadamardSelfInverse(s, n, q, root2);
    } else {
      HadamardAsWrittenTwice(s, n, q, root2);
    }
  }

  /** Applying the same CNOT gate twice in a row, control and target distinct
      and inside the register, leaves the state as it was. */
  lemma RunCnotTwice(s: State, n: nat, c: nat, t: nat, root2: real, bf: Butterfly)
    requires |s| == Pow2(n) && IsRoot2(root2) && c < n && t < n && c != t
    ensures Run(s, n, [Gate(Some("CNOT"), 0, c, t), Gate(Some("CNOT"), 0, c, t)], root2, bf) == Success(s)
  {
    var g := Gate(Some("CNOT"), 0, c, t);
    assert Dispatch(g, n) == Success(ApplyCnot(c, t));
    var x := Cnot(s, n, c, t);
    assert Apply(s, n, ApplyCnot(c, t), root2, bf) == x;
    assert Apply(x, n, ApplyCnot(c, t), root2, bf) == s by {
      CnotSelfInverse(s, n, c, t);
    }
    RunCons(s, n, g, [g], root2, bf);
    RunCons(x, n, g, [], root2, bf);
    assert [g, g] == [g] + [g] && [g] == [g] + [];
  }

  /** Starting from the all-zero basis state, a circuit without a
      self-targeted CNOT ends in a unit vector. */
  lemma RunFromInitialIsUnit(circuit: seq<Gate>, root2: real, bf: Butterfly)
    requires IsRoot2(root2)
    requires NoSelfTargetedCnot(circuit, |circuit|)
    requires Run(Initial(|circuit|), |circuit|, circuit, root2, bf).Success?
    ensures SumSq(Run(Initial(|circuit|), |circuit|, circuit, root2, bf).value) == 1.0
  {
    InitialIsBasisState(|circuit|);
    RunKeepsSumSq(Initial(|circuit|), |circuit|, circuit, root2, bf);
  }

  /** For a circuit without a self-targeted CNOT, the state after the gates
      is already a unit vector, so normalisation changes nothing and the
      squared amplitudes of the listing sum to 1. */
  lemma SimulateListsUnitVector(circuit: seq<Gate>, sqrt: real -> real, bf: Butterfly)
    requires IsSqrt(sqrt)
    requires NoSelfTargetedCnot(circuit, |circuit|)
    requires forall k :: 0 <= k < |circuit| ==> Dispatch(circuit[k], |circuit|).Success?
    ensures Simulate(circuit, sqrt, bf).Success?
    ensures FinalState(circuit, sqrt, bf).Success?
    ensures SumSq(FinalState(circuit, sqrt, bf).value) == 1.0
    ensures Simulate(circuit, sqrt, bf).value == FormatState(FinalState(circuit, sqrt, bf).value)
    ensures SumSq(Amplitudes(Simulate(circuit, sqrt, bf).value)) == 1.0
  {
    var n := |circuit|;
    var root2 := sqrt(2.0);
    SqrtOfTwo(sqrt);
    var s := FinalState(circuit, sqrt, bf).value;
    assert s == Run(Initial(n), n, circuit, root2, bf).value;
    assert Simulate(circuit, sqrt, bf).value == Listing(s, sqrt);
    RunFromInitialIsUnit(circuit, root2, bf);
  }
}
