/** The sparse listing of a statevector: one entry per non-zero amplitude,
    in increasing index order, labelled with the index in binary. The
    amplitude is kept as a value; its four-decimal text is not modelled. */
module Format {
  import opened Bits
  import opened Binary
  import opened Sums

  /** One line of the listing: `<label>: <amplitude>`. */
  datatype Entry = Entry(basisLabel: string, amplitude: real)

  /** The indices at or after `from` whose amplitude is non-zero, ascending. */
  function NonzeroFrom(s: seq<real>, from: nat): (ix: seq<nat>)
    requires from <= |s|
    ensures forall j :: 0 <= j < |ix| ==> from <= ix[j] < |s| && s[ix[j]] != 0.0
    ensures forall j, j' :: 0 <= j < j' < |ix| ==> ix[j] < ix[j']
    ensures forall i :: from <= i < |s| && s[i] != 0.0 ==> i in ix
    decreases |s| - from
  {
    if from == |s| then []
    else if s[from] != 0.0 then [from] + NonzeroFrom(s, from + 1)
    else NonzeroFrom(s, from + 1)
  }

  /** The indices of the non-zero amplitudes, ascending. */
  function Support(s: seq<real>): seq<nat>
  {
    NonzeroFrom(s, 0)
  }

  /** The label width of the source: `len(statevector).bit_length() - 1`,
      which is n for a vector of length 2^n. */
  function Width(len: nat): (w: nat)
    ensures 1 <= len ==> Pow2(w) <= len < Pow2(w + 1)
  {
    if len == 0 then 0 else BitLength(len) - 1
  }

  /** The zero vector has no non-zero amplitude to select. */
  lemma {:induction false} NonzeroFromZero(s: seq<real>, from: nat)
    requires from <= |s|
    requires forall i :: 0 <= i < |s| ==> s[i] == 0.0
    ensures NonzeroFrom(s, from) == []
    decreases |s| - from
  {
    if from < |s| {
      NonzeroFromZero(s, from + 1);
    }
  }

  /** The listing of s. */
  function FormatState(s: seq<real>): (r: seq<Entry>)
    ensures |r| == |Support(s)|
  {
    var ix := Support(s);
    seq(|ix|, j requires 0 <= j < |ix| => Entry(Label(ix[j], Width(|s|)), s[ix[j]]))
  }

  /** The listing names exactly the non-zero amplitudes, each once, in
      increasing index order: every label reads back as an index whose
      amplitude is the entry's non-zero amplitude, labels increase down the
      listing, and every non-zero amplitude has an entry. */
  lemma FormatListsNonzeroAmplitudes(s: seq<real>)
    ensures forall j :: 0 <= j < |FormatState(s)| ==>
      var e := FormatState(s)[j];
      IsBinary(e.basisLabel) && Value(e.basisLabel) < |s| &&
      e.amplitude == s[Value(e.basisLabel)] && e.amplitude != 0.0
    ensures forall j, j' :: 0 <= j < j' < |FormatState(s)| ==>
      Value(FormatState(s)[j].basisLabel) < Value(FormatState(s)[j'].basisLabel)
    ensures forall i :: 0 <= i < |s| && s[i] != 0.0 ==>
      exists j :: 0 <= j < |FormatState(s)| && Value(FormatState(s)[j].basisLabel) == i
  {
    var r := FormatState(s);
    var ix := Support(s);
    forall j | 0 <= j < |r|
      ensures IsBinary(r[j].basisLabel) && Value(r[j].basisLabel) == ix[j]
    {
      LabelRoundTrip(ix[j], Width(|s|));
    }
    forall i | 0 <= i < |s| && s[i] != 0.0
      ensures exists j :: 0 <= j < |r| && Value(r[j].basisLabel) == i
    {
      var j :| 0 <= j < |ix| && ix[j] == i;
      assert Value(r[j].basisLabel) == i;
    }
  }

  /** For a vector of length 2^n, n >= 1, every label has exactly n
      characters; for n == 0 the single label is "0". */
  lemma FormatLabelWidth(s: seq<real>, n: nat)
    requires |s| == Pow2(n)
    ensures Width(|s|) == n
    ensures forall j :: 0 <= j < |FormatState(s)| ==>
      |FormatState(s)[j].basisLabel| == if n == 0 then 1 else n
  {
    BitLengthPow2(n);
    var ix := Support(s);
    forall j | 0 <= j < |ix|
      ensures |Label(ix[j], n)| == if n == 0 then 1 else n
    {
      LabelLength(ix[j], n);
    }
  }

  /** The amplitudes of a listing, in order. */
  function Amplitudes(es: seq<Entry>): (a: seq<real>)
    ensures |a| == |es|
  {
    seq(|es|, j requires 0 <= j < |es| => es[j].amplitude)
  }

  /** The amplitudes of s at the indices ix. */
  function Pick(s: seq<real>, ix: seq<nat>): (p: seq<real>)
    requires forall j :: 0 <= j < |ix| ==> ix[j] < |s|
    ensures |p| == |ix|
  {
    seq(|ix|, j requires 0 <= j < |ix| => s[ix[j]])
  }

  /** Dropping the entries of sq at the zero amplitudes of s keeps the sum
      of sq, when sq is zero wherever s is. */
  lemma {:induction false} NonzeroKeepTotal(s: seq<real>, sq: seq<real>, from: nat)
    requires |sq| == |s| && from <= |s|
    requires forall i :: 0 <= i < |s| && s[i] == 0.0 ==> sq[i] == 0.0
    ensures Total(Pick(sq, NonzeroFrom(s, from))) == Total(sq[from..])
    decreases |s| - from
  {
    if from < |s| {
      NonzeroKeepTotal(s, sq, from + 1);
      var y := sq[from];
      var rest := NonzeroFrom(s, from + 1);
      assert Total(sq[from..]) == y + Total(sq[from + 1..]) by {
        assert sq[from..] == [y] + sq[from + 1..];
        TotalCons(y, sq[from + 1..]);
      }
      if s[from] != 0.0 {
        assert Total(Pick(sq, NonzeroFrom(s, from))) == y + Total(Pick(sq, rest)) by {
          PickCons(sq, from, rest);
          TotalCons(y, Pick(sq, rest));
        }
      }
    } else {
      assert sq[from..] == [];
    }
  }

  /** Picking squares is squaring the picked amplitudes. */
  lemma PickSquares(s: seq<real>, ix: seq<nat>)
    requires forall j :: 0 <= j < |ix| ==> ix[j] < |s|
    ensures Squares(Pick(s, ix)) == Pick(Squares(s), ix)
  {
    var picked := Pick(s, ix);
    var sq := Squares(s);
    forall j | 0 <= j < |ix|
      ensures Squares(picked)[j] == Pick(sq, ix)[j]
    {
      var a := s[ix[j]];
      assert picked[j] == a;
      assert Squares(picked)[j] == a * a;
      assert Pick(sq, ix)[j] == sq[ix[j]] == a * a;
    }
  }

  /** Picking a leading index puts its amplitude first. */
  lemma PickCons(s: seq<real>, i: nat, rest: seq<nat>)
    requires i < |s|
    requires forall j :: 0 <= j < |rest| ==> rest[j] < |s|
    ensures Pick(s, [i] + rest) == [s[i]] + Pick(s, rest)
  {
  }

  /** The listing carries the whole squared norm of the state: the squared
      amplitudes it omits are all zero. */
  lemma FormatKeepsSumSq(s: seq<real>)
    ensures SumSq(Amplitudes(FormatState(s))) == SumSq(s)
  {
    var ix := Support(s);
    var sq := Squares(s);
    var picked := Pick(s, ix);
    forall i | 0 <= i < |s| && s[i] == 0.0
      ensures sq[i] == 0.0
    {
      assert sq[i] == s[i] * s[i];
    }
    NonzeroKeepTotal(s, sq, 0);
    assert sq[0..] == sq;
    assert Amplitudes(FormatState(s)) == picked;
    PickSquares(s, ix);
  }
}
