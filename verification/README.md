# Statevector engine of the quantum circuit simulator

This Dafny project models the hand-written statevector engine of the
simulator's `/simulate` request in `smain.py`. The engine works as follows:

- A register of n qubits is a sequence of 2^n real amplitudes. Qubit k is bit
  k of the index.
- The state starts in |00...0>.
- The gates of the request are applied in list order:
  - a Hadamard gate is a butterfly over the index pairs `i`, `i ^ (1 << q)`;
  - a CNOT copies, at every index whose control bit is set, the old amplitude
    of the index with the target bit flipped;
  - any other gate is skipped.
- The result is divided by its Euclidean norm and listed as
  `<binary label>: <amplitude>`, one entry per non-zero amplitude.

Modules:

- `Bits` (`bits.dfy`) defines `(i >> k) & 1`, `i ^ (1 << k)` and
  `int.bit_length()` on natural numbers, with their laws.
- `Sums` (`sums.dfy`) defines sums of squares. It proves that a permutation,
  a sign change of entries, or the Hadamard butterfly keeps the sum.
- `Statevector` (`statevector.dfy`) holds:
  - the initial state;
  - the gates: `HadamardAsWritten`, the butterfly `apply_hadamard` computes;
    `Hadamard`, the Hadamard gate (see Findings); `HadamardBy`, which picks
    one of the two; and `Cnot`;
  - normalisation.
- `Binary` (`binary.dfy`) models `format(i, '0<w>b')` and its decoding.
- `Format` (`format.dfy`) models the sparse listing.
- `Simulator` (`simulator.dfy`) models the request as a whole. It covers gate
  dispatch, including the exceptions Python raises, running the gates in
  order, and normalising and listing the result.
- `Scenarios` (`scenarios.dfy`) works through whole requests: the Bell
  circuit, a single H gate, two H gates followed by a self-targeted CNOT, the
  empty circuit, and gates that raise.

Amplitudes are exact reals. The source divides by `np.sqrt(2)` and by
`np.linalg.norm(...)`. Here these are a parameter `sqrt`, required only to
return a non-negative square root of every non-negative real. The gates receive
`sqrt(2.0)` as `root2`, with `root2 * root2 == 2`.

Every operation of `Simulator` takes a `Butterfly` parameter `bf`:

- `bf == AsWritten` is the source: the H branch of the dispatch loop calls
  `apply_hadamard` (smain.py:37), and `HadamardAsWritten` is that function.
  Every statement about the source's output is made with `AsWritten`.
- `bf == Intended` is the same request with the Hadamard gate in place of
  that butterfly, and nothing else changed.

Facts about the code that the model keeps:

- **Register size.** n is the number of gates in the request
  (`len(circuit_model.circuit)`).
- **Unknown gates.** A gate whose type is not "H" or "CNOT", or that has no
  "gate" entry, is skipped.
- **Empty circuit.** Its one label is `format(0, '00b') == "0"`.
- **Indices out of range.** Nothing checks them before the gate runs. Python
  raises while applying the gate, and the model returns that exception as a
  `Failure`:
  - a negative index raises ValueError (negative shift count);
  - an H qubit or a CNOT target beyond the register, but small enough for
    `1 << q` to be built, raises IndexError (a shift count too large for
    that is listed under "Left out");
  - a CNOT whose control lies beyond the register never finds its control bit
    set, so it does nothing.
- **CNOT with control equal to target.** It is accepted. Every index with
  that bit set copies the amplitude of its partner, which is not a
  permutation. `Statevector.CnotSelfTargetedCopies` exhibits this.
- **Zero state.** A state of norm 0 is returned unchanged by
  normalisation and listed with no entries. With the source's butterfly,
  `[H(0), H(0), CNOT(0, 0)]` reaches it (`Scenarios.SimulateVanishingState`).

## Model

| member | source | states |
|---|---|---|
| Bits.Bit | smain.py:57 | `(i >> k) & 1` is 0 or 1; its laws are in `FlipToggles`, `FlipKeepsOtherBits` and `BitOutsideRegister` |
| Bits.Flip | smain.py:58 | `i ^ (1 << k)` is below i exactly when bit k of i is set; `FlipToggles` and `FlipKeepsOtherBits` carry its law |
| Bits.Shr | smain.py:57 | `i >> k` (here and at smain.py:68) on a non-negative i is never larger than i; `ShrBelow` proves that shifting an index below 2^k right by k gives 0 |
| Bits.BitLength | smain.py:52 | `x.bit_length()` (here and at smain.py:82) is the least b with x < 2^b: x lies below 2^b, at or above 2^(b-1) when b > 0, and b is 0 exactly for x = 0; `BitLengthPow2` proves the bit length of 2^n is n + 1 |
| Bits.FlipToggles | smain.py:57-58 | `i ^ (1 << k)` toggles bit k of i |
| Bits.FlipKeepsOtherBits | smain.py:57-58 | `i ^ (1 << k)` keeps every bit other than k |
| Bits.FlipFlip | smain.py:58 | flipping qubit k twice gives back the index |
| Bits.FlipStep | smain.py:58 | `i ^ 1` is i + 1 for even i and i - 1 for odd i; `i ^ (1 << k)` for k > 0 keeps the lowest bit of i and XORs the rest, `i >> 1`, with `1 << (k - 1)` |
| Bits.FlipBelow | smain.py:58 | for k < n, flipping qubit k of an index below 2^n stays below 2^n, so the paired read stays inside the vector |
| Bits.BitsDetermineIndex | smain.py:57-58 | two indices below 2^n with the same n low bits are equal |
| Bits.BitOutsideRegister | smain.py:68 | bit k of an index below 2^n is 0 when k >= n |
| Bits.BitLengthPow2 | smain.py:52 | `(2^n).bit_length() - 1 == n`, so the qubit count recovered from the vector length is n |
| Sums.SumSqIgnoresSigns | smain.py:58-60 | two vectors whose entries agree up to sign have the same sum of squares |
| Sums.SumSqZeroIsZero | smain.py:73-75 | a vector whose sum of squares is 0 has every entry 0, so the norm is 0 only for the zero vector |
| Statevector.Initial | smain.py:28-29 | the initial state has length 2^n; `InitialIsBasisState` carries its contents |
| Statevector.InitialIsBasisState | smain.py:28-29 | the initial state has length 2^n, amplitude 1 at index 0 and 0 elsewhere, and is a unit vector |
| Statevector.HadamardAsWritten | smain.py:51-62 | `apply_hadamard` keeps the length; `HadamardAsWrittenIsPhaseFlipped` relates it entry by entry to the Hadamard gate, and `HadamardAsWrittenPreservesSumSq` and `HadamardAsWrittenTwice` carry its laws |
| Statevector.HadamardAsWrittenIsPhaseFlipped | smain.py:51-62 | the source's butterfly equals the Hadamard gate with every bit-q-set entry negated, i.e. H followed by Z |
| Statevector.HadamardAsWrittenPreservesSumSq | smain.py:51-62 | the source's butterfly keeps the sum of squared amplitudes |
| Statevector.HadamardAsWrittenTwice | smain.py:51-62 | the source's butterfly applied twice maps each pair (a, b) to (b, -a) |
| Statevector.HadamardAsWrittenNotSelfInverse | smain.py:57-60 | on one qubit in 0, the source's butterfly applied twice gives [0, -1], not the input |
| Statevector.HadamardAsWrittenOnZero | smain.py:57-60 | on one qubit in 0, the source's butterfly gives [1/sqrt 2, -1/sqrt 2] where H gives [1/sqrt 2, 1/sqrt 2] |
| Statevector.Hadamard | smain.py:51-62 | the Hadamard gate that `apply_hadamard` evidently intends, not the source's butterfly (that is `Statevector.HadamardAsWritten`; see Findings): it keeps the length, `HadamardButterfly` gives its pairwise action and `HadamardSelfInverse` proves it is its own inverse |
| Statevector.HadamardButterfly | smain.py:51-62 | the corrected gate maps each pair (a at bit q clear, b at bit q set) to ((a+b)/sqrt 2, (a-b)/sqrt 2), read from the vector before the gate |
| Statevector.HadamardSelfInverse | smain.py:51-62 | the corrected gate applied twice gives back the state |
| Statevector.HadamardPreservesSumSq | smain.py:51-62 | the corrected gate keeps the sum of squared amplitudes |
| Statevector.HadamardBy | smain.py:37 | whichever butterfly the H branch applies keeps the length and the sum of squares |
| Statevector.Cnot | smain.py:64-70 | indices with control bit 0 keep their amplitude; indices with control bit 1 take the old amplitude at the target-flipped index, which lies in the vector |
| Statevector.CnotSource | smain.py:68-69 | the index `apply_cnot` reads for index i, `i ^ (1 << target)` when control bit is set and i itself otherwise, keeps the control bit when control != target; `CnotSourceIsInvolution` proves it pairs up the register's indices |
| Statevector.CnotSourceIsInvolution | smain.py:66-69 | for control != target, the CNOT index map is an involution of the register's indices |
| Statevector.CnotPermutes | smain.py:64-70 | for control != target, CNOT reads through an involution, keeps the multiset of amplitudes and keeps the sum of squares |
| Statevector.CnotSelfInverse | smain.py:64-70 | for control != target, CNOT applied twice gives back the state |
| Statevector.CnotSelfTargetedCopies | smain.py:64-70 | with control == target, CNOT on one qubit in 0 gives [1, 1] of squared norm 2, so it is not a permutation |
| Statevector.Normalize | smain.py:72-76 | for norm 0 the vector is returned unchanged; otherwise every amplitude times the norm gives back the input, and the result has sum of squares 1 |
| Statevector.NormalizeUnit | smain.py:72-76 | a vector of sum of squares 1 has norm 1, and normalising it changes nothing |
| Binary.Digits | smain.py:82 | `format(i, 'b')` is never empty; `DigitsRoundTrip` proves it is a binary string that reads back as i |
| Binary.Label | smain.py:82 | `format(i, '0<w>b')` is never shorter than w and never empty; `LabelRoundTrip` proves it reads back as i |
| Binary.LabelRoundTrip | smain.py:82 | the label is a binary string that reads back as its index, so distinct indices get distinct labels |
| Binary.LabelLength | smain.py:82 | the label of an index below 2^w is w characters long for w >= 1, and "0" for w == 0 |
| Binary.LabelSpellsBits | smain.py:82 | reading from the right, character k of the label is bit k of the index (most significant qubit first) |
| Format.NonzeroFrom | smain.py:79-81 | the selected indices are exactly the non-zero amplitudes from a position on, strictly increasing |
| Format.NonzeroFromZero | smain.py:79-81 | the zero vector selects no index |
| Format.FormatState | smain.py:78-84 | the listing has one entry per selected non-zero index; `FormatListsNonzeroAmplitudes` carries its law |
| Format.FormatListsNonzeroAmplitudes | smain.py:78-84 | every entry's label decodes to an index whose amplitude is the entry's non-zero amplitude; labels increase down the listing; every non-zero amplitude has an entry |
| Format.Width | smain.py:82 | `len(statevector).bit_length() - 1` is the w with 2^w <= len < 2^(w+1) for a non-empty vector; `FormatLabelWidth` proves it is n for a vector of length 2^n |
| Format.FormatLabelWidth | smain.py:82 | for a vector of length 2^n, the label width is n and every label has n characters (1 when n == 0) |
| Format.NonzeroKeepTotal | smain.py:79-81 | leaving out the indices whose amplitude is zero keeps the sum of any per-index values that vanish where the amplitude does |
| Format.FormatKeepsSumSq | smain.py:78-84 | dropping the zero amplitudes keeps the sum of squares of the listed amplitudes |
| Simulator.Dispatch | smain.py:32-41 | non-H/CNOT gates are skipped; H succeeds iff 0 <= qubit < n; CNOT succeeds iff control >= 0 and, when control < n, 0 <= target < n; an out-of-register control gives a skip |
| Simulator.Apply | smain.py:35-41 | applying a dispatched gate keeps the length, and keeps the sum of squares unless it is a self-targeted CNOT |
| Simulator.Run | smain.py:32-41 | the gates run to completion exactly when every gate dispatches, keeping the vector length |
| Simulator.RunCons | smain.py:32-41 | the first gate is dispatched and applied before the rest; its exception ends the run |
| Simulator.RunAppend | smain.py:32-41 | running a + b is running a and then b on its result; a failure in a is the result |
| Simulator.RunSkipsOtherGates | smain.py:33-38 | for a fixed register size, removing a gate that is neither "H" nor "CNOT" from anywhere in the gate list changes nothing (in a whole request it also shrinks n) |
| Simulator.RunFailsAtFirstBadGate | smain.py:32-41 | the request fails with the exception of its first failing gate |
| Simulator.RunKeepsSumSq | smain.py:32-41 | a circuit without a self-targeted CNOT keeps the sum of squares |
| Simulator.RunHadamardTwice | smain.py:35-37 | two identical H gates in a row map each pair (a, b) to (b, -a) with the source's butterfly, and leave the state unchanged with the corrected one |
| Simulator.RunCnotTwice | smain.py:38-41 | two identical CNOT gates with distinct in-register control and target leave the state unchanged |
| Simulator.RunFromInitialIsUnit | smain.py:28-41 | from the initial state, a circuit without a self-targeted CNOT ends in a unit vector |
| Simulator.CnotControlOutsideRegister | smain.py:66-68 | with the control beyond the register no index has its control bit set, so CNOT writes nothing |
| Simulator.ListingOfItself | smain.py:78-84 | the listing of a vector lists each entry with the vector's amplitude at its label, in ascending index order, and covers every non-zero amplitude |
| Simulator.ListsRescaled | smain.py:76 | an entry listed from the vector divided by a non-zero norm, times the norm, is the undivided amplitude at its label, which is non-zero |
| Simulator.CoversRescaled | smain.py:76 | dividing by the norm keeps the non-zero amplitudes non-zero, so every one of them is still listed |
| Simulator.ListingOfZero | smain.py:73-75 | a state of squared norm 0 is the zero vector and has an empty listing |
| Simulator.ListingOfNormalized | smain.py:72-84 | each entry of the listing of the normalised state, times the norm, is the state's non-zero amplitude at its label; every non-zero amplitude is listed; the zero state is listed with no entries |
| Simulator.ListingPadded | smain.py:82 | every label of a listing is the binary of the index it denotes, zero-padded to the register width |
| Simulator.Listing | smain.py:43-47 | entries are the state's non-zero amplitudes divided by its norm, each index once and in ascending order, and all of them are listed; a non-zero state is listed as a unit vector, a unit state without change, the zero state as an empty listing; every label is the index it denotes written in binary and zero-padded to the register width |
| Simulator.FinalState | smain.py:28-41 | the gates run from the initial state of n = number of gates qubits, ending in a vector of length 2^n exactly when every gate dispatches |
| Simulator.Simulate | smain.py:26-49 | the request succeeds iff every gate dispatches; then the final state exists and each entry has a non-zero amplitude and an n-digit label (1 digit for the empty circuit) of an index below 2^n whose amplitude in the final state is the entry's amplitude times the norm; the labels denote strictly increasing indices, so each index is listed once, and each label is the n-digit zero-padded binary of the index it denotes; every non-zero amplitude of the final state has an entry; for a non-zero final state the listed amplitudes' squares sum to 1 |
| Simulator.SimulateUnit | smain.py:43-47 | a request whose final state is a unit vector lists that state as it is |
| Simulator.SimulateListsUnitVector | smain.py:26-49 | a circuit whose gates all dispatch and that has no self-targeted CNOT succeeds; its final state is a unit vector, normalisation changes nothing and the listed amplitudes' squares sum to 1 |
| Scenarios.BellRun | smain.py:32-41 | with the source's butterfly, H(0) then CNOT(0, 1) take the state 00 to [1/sqrt 2, 0, 0, -1/sqrt 2] |
| Scenarios.BellRunIntended | smain.py:32-41 | with the corrected gate, the same gates give [1/sqrt 2, 0, 0, 1/sqrt 2] |
| Scenarios.BellListing | smain.py:78-84 | the state [a, 0, 0, c] with a, c non-zero is listed as "00" and "11" |
| Scenarios.SimulateBell | smain.py:26-49 | the Bell request lists "00" with amplitude 1/sqrt 2 and "11" with -1/sqrt 2 |
| Scenarios.SimulateBellIntended | smain.py:26-49 | with the corrected gate it lists "00" and "11" with 1/sqrt 2 each |
| Scenarios.SingleHadamardRun | smain.py:32-41 | with the source's butterfly, H(0) on one qubit takes the state 0 to [1/sqrt 2, -1/sqrt 2] |
| Scenarios.SingleHadamardRunIntended | smain.py:32-41 | with the corrected gate it gives [1/sqrt 2, 1/sqrt 2] |
| Scenarios.SingleHadamardListing | smain.py:78-84 | the state [a, c] has squared norm a^2 + c^2 and, for a, c non-zero, is listed as "0" and "1" |
| Scenarios.SimulateSingleHadamard | smain.py:26-49 | a single H(0) lists "0" with amplitude 1/sqrt 2 and "1" with -1/sqrt 2 |
| Scenarios.SimulateSingleHadamardIntended | smain.py:26-49 | with the corrected gate it lists "0" and "1" with 1/sqrt 2 each |
| Scenarios.VanishingState | smain.py:51-70 | with the source's butterfly, two H(0) and then CNOT(0, 0) leave every amplitude 0 |
| Scenarios.SimulateVanishingState | smain.py:26-49 | the request `[H(0), H(0), CNOT(0, 0)]` succeeds with an empty listing |
| Scenarios.SimulateVanishingStateIntended | smain.py:26-49 | with the corrected gate the same request lists at least one entry |
| Scenarios.SimulateEmpty | smain.py:28-29 | the empty circuit lists "0" with amplitude 1 |
| Scenarios.SimulateHadamardOutsideRegister | smain.py:57-60 | H(2) on one qubit raises IndexError; H(-1) raises ValueError |
| Scenarios.SimulateCnotOutsideRegister | smain.py:66-69 | a CNOT whose target lies beyond the register raises IndexError; one whose control lies beyond it acts like an unknown gate |

## Left out

- The HTTP layer is not modelled: the FastAPI app, the CORS middleware, pydantic parsing, and the `/` and `/clear` routes (smain.py:1-26, 86-88).
- main.py is not part of this model. It wraps an external simulation library.
- The React front end is not part of this model.
- Floating point is not modelled:
  - `np.sqrt(2)` and `np.linalg.norm` become the exact square root `sqrt`.
  - Rounding, and the exact zero test on rounded values, are not modelled.
- The `:.4f` rendering of amplitudes is not modelled. An entry keeps the label as a string and the amplitude as a real (`Format.Entry`).
- Python's int-typed arithmetic on the amplitudes (integer 0 and 1 before the first gate) is not modelled separately. It coincides with the real values.
- Simulator.Dispatch: a missing entry raises KeyError only where the source reads it: an "H" gate without "qubit" (smain.py:36), or a "CNOT" gate without "control" or "target" (smain.py:39-40). Other entries are never read, so an "X" gate or an "H" gate without "control" runs as modelled. `Gate` always carries all three entries, so this KeyError is not modelled.
- Simulator.Dispatch: an entry of the wrong type (a string or float qubit, say) raises TypeError at the first shift; `Gate` carries integer entries, so this path is not modelled.
- Simulator.Dispatch: an H qubit or CNOT target so large that `1 << q` cannot be built (smain.py:58, 60, 69) raises OverflowError or MemoryError in the source before any read; the model returns `IndexOutOfRange` for every qubit or target at or beyond n, since integers here are unbounded and no such limit exists.
- Simulator.Dispatch: list items that are not dictionaries are not modelled. A number or null raises TypeError at the `in` test (smain.py:33); a string or list that contains "gate" passes that test and raises TypeError at `gate["gate"]` (smain.py:34). `Gate` is always a dictionary.
- Simulator.Simulate: there is no bound on n; memory exhaustion for a long circuit is not modelled.
- Statevector.HadamardButterfly, Statevector.HadamardSelfInverse, Statevector.HadamardPreservesSumSq: they state the corrected gate, not the source's sign (see Findings). The source's own butterfly is `Statevector.HadamardAsWritten`, whose laws are stated by the `HadamardAsWritten…` lemmas.

## Findings

| source | as written | input that shows it | evidently intended | confidence | as-written member | corrected member |
|---|---|---|---|---|---|---|
| smain.py:57-58 | an entry with bit q set becomes (s[i] - s[i ^ (1 << q)]) / sqrt 2, i.e. (b - a) / sqrt 2 for the pair (a, b); the matrix is [[1, 1], [-1, 1]] / sqrt 2, H followed by Z | one qubit in state [1, 0]: one application gives [0.7071, -0.7071] (listing "1: -0.7071"); two give [0, -1] instead of [1, 0] | the Hadamard gate, (a + b) / sqrt 2 and (a - b) / sqrt 2, which is its own inverse | not executed | Statevector.HadamardAsWrittenNotSelfInverse | Statevector.HadamardSelfInverse |

The request-level members take the butterfly as a parameter. With
`AsWritten` they state what the source returns: `Scenarios.SimulateSingleHadamard`
lists "1" with amplitude -1/sqrt 2, and `Scenarios.SimulateVanishingState`
lists nothing. With `Intended` they use the corrected gate,
`Statevector.Hadamard`: `Scenarios.SimulateSingleHadamardIntended`,
`Scenarios.SimulateBellIntended`, `Scenarios.SimulateVanishingStateIntended`.
