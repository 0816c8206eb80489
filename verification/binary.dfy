/** Basis-state labels: Python's `format(index, '0<w>b')`, the binary digits
    of the index, most significant first, padded on the left with '0' to at
    least w characters (never truncated). */
module Binary {
  import opened Bits

  /** The character for a binary digit. */
  function DigitChar(d: nat): char
    requires d < 2
  {
    if d == 1 then '1' else '0'
  }

  /** The shortest binary rendering of i; "0" for zero. */
  function Digits(i: nat): (ds: string)
    ensures |ds| >= 1
    decreases i
  {
    if i < 2 then [DigitChar(i)] else Digits(i / 2) + [DigitChar(i % 2)]
  }

  /** `format(i, '0' + str(w) + 'b')`: never shorter than the width, and
      never empty. */
  function Label(i: nat, width: nat): (l: string)
    ensures |l| >= width && |l| >= 1
  {
    var ds := Digits(i);
    if |ds| < width then seq(width - |ds|, _ => '0') + ds else ds
  }

  /** The number a string of binary digits denotes, most significant first. */
  function Value(ds: string): nat
  {
    if |ds| == 0 then 0
    else 2 * Value(ds[..|ds| - 1]) + (if ds[|ds| - 1] == '1' then 1 else 0)
  }

  /** Every character of a label is a binary digit. */
  ghost predicate IsBinary(ds: string)
  {
    forall k :: 0 <= k < |ds| ==> ds[k] == '0' || ds[k] == '1'
  }

  /** Reading the digits back gives the index. */
  lemma {:induction false} DigitsRoundTrip(i: nat)
    ensures Value(Digits(i)) == i
    ensures IsBinary(Digits(i))
    decreases i
  {
    if i >= 2 {
      DigitsRoundTrip(i / 2);
      var ds := Digits(i);
      assert ds[..|ds| - 1] == Digits(i / 2);
    }
  }

  /** Leading zeros do not change the value. */
  lemma {:induction false} ZerosPrefixValue(z: nat, ds: string)
    ensures Value(seq(z, _ => '0') + ds) == Value(ds)
    decreases |ds|
  {
    var zs: string := seq(z, _ => '0');
    if |ds| == 0 {
      assert zs + ds == zs;
      ZerosValue(z);
    } else {
      var last := |ds| - 1;
      assert (zs + ds)[..|zs + ds| - 1] == zs + ds[..last];
      ZerosPrefixValue(z, ds[..last]);
    }
  }

  lemma {:induction false} ZerosValue(z: nat)
    ensures Value(seq(z, _ => '0')) == 0
    decreases z
  {
    if z > 0 {
      var zs: string := seq(z, _ => '0');
      assert zs[..z - 1] == seq(z - 1, _ => '0');
      ZerosValue(z - 1);
    }
  }

  /** An index below 2^w, w >= 1, needs at most w binary digits. */
  lemma {:induction false} DigitsFit(i: nat, width: nat)
    requires width >= 1 && i < Pow2(width)
    ensures |Digits(i)| <= width
    decreases i
  {
    if i >= 2 {
      DigitsFit(i / 2, width - 1);
    }
  }

  /** Label round trip: the label of i is a binary string that reads back
      as i, so distinct indices get distinct labels. */
  lemma LabelRoundTrip(i: nat, width: nat)
    ensures IsBinary(Label(i, width))
    ensures Value(Label(i, width)) == i
  {
    DigitsRoundTrip(i);
    var ds := Digits(i);
    if |ds| < width {
      ZerosPrefixValue(width - |ds|, ds);
    }
  }

  /** The label of an index below 2^w is exactly w characters long when
      w >= 1, and the single digit "0" for w == 0 (where only index 0 fits). */
  lemma LabelLength(i: nat, width: nat)
    requires i < Pow2(width)
    ensures |Label(i, width)| == if width == 0 then 1 else width
  {
    if width >= 1 {
      DigitsFit(i, width);
    }
  }

  /** Reading the label from the right, character k is qubit k of the
      index: the label spells the basis state, most significant qubit first. */
  lemma {:induction false} LabelSpellsBits(i: nat, width: nat, k: nat)
    requires k < |Label(i, width)|
    ensures Label(i, width)[|Label(i, width)| - 1 - k] == DigitChar(Bit(i, k))
  {
    var ds := Digits(i);
    var l := Label(i, width);
    assert l[|l| - 1 - k] == if k < |ds| then ds[|ds| - 1 - k] else '0';
    if k < |ds| {
      DigitsSpellBits(i, k);
    } else {
      DigitsBeyondAreZero(i, k);
    }
  }

  /** Character k from the right of the digits of i is bit k of i. */
  lemma {:induction false} DigitsSpellBits(i: nat, k: nat)
    requires k < |Digits(i)|
    ensures Digits(i)[|Digits(i)| - 1 - k] == DigitChar(Bit(i, k))
    decreases i
  {
    if i >= 2 && k > 0 {
      DigitsSpellBits(i / 2, k - 1);
    } else if i < 2 {
      assert k == 0;
    }
  }

  /** Bits of i beyond its digits are zero. */
  lemma {:induction false} DigitsBeyondAreZero(i: nat, k: nat)
    requires k >= |Digits(i)|
    ensures Bit(i, k) == 0
    decreases i
  {
    if i >= 2 {
      DigitsBeyondAreZero(i / 2, k - 1);
    }
  }
}
