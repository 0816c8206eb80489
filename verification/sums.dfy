/** Sums of real sequences and the squared Euclidean norm of a statevector,
    with the one reindexing fact the gates need: a sequence read through an
    index involution is a permutation of the original. */
module Sums {

  /** The sum of the entries of v. */
  function Total(v: seq<real>): real
  {
    if |v| == 0 then 0.0 else v[0] + Total(v[1..])
  }

  /** The entrywise squares of s. */
  function Squares(s: seq<real>): (sq: seq<real>)
    ensures |sq| == |s|
    ensures forall i :: 0 <= i < |s| ==> sq[i] == s[i] * s[i]
  {
    seq(|s|, i requires 0 <= i < |s| => s[i] * s[i])
  }

  /** The squared Euclidean norm: the sum of the squared amplitudes. */
  function SumSq(s: seq<real>): (r: real)
    ensures r >= 0.0
  {
    TotalNonnegative(Squares(s));
    Total(Squares(s))
  }

  /** `index` is an involution of {0, ..., n-1}. */
  ghost predicate IsInvolution(index: nat -> nat, n: nat)
  {
    && (forall i :: 0 <= i < n ==> index(i) < n)
    && (forall i {:trigger index(index(i))} :: 0 <= i < n ==> index(index(i)) == i)
  }

  lemma {:induction false} TotalAppend(a: seq<real>, b: seq<real>)
    ensures Total(a + b) == Total(a) + Total(b)
    decreases |a|
  {
    if |a| > 0 {
      TotalAppend(a[1..], b);
      assert (a + b)[0] == a[0];
      assert (a + b)[1..] == a[1..] + b;
    } else {
      assert a + b == b;
    }
  }

  /** A sum of non-negative entries is non-negative. */
  lemma {:induction false} TotalNonnegative(v: seq<real>)
    requires forall i :: 0 <= i < |v| ==> v[i] >= 0.0
    ensures Total(v) >= 0.0
    decreases |v|
  {
    if |v| > 0 {
      TotalNonnegative(v[1..]);
    }
  }

  /** The sum of an entrywise sum is the sum of the sums. */
  lemma {:induction false} TotalAdd(a: seq<real>, b: seq<real>, c: seq<real>)
    requires |a| == |b| == |c|
    requires forall i :: 0 <= i < |c| ==> c[i] == a[i] + b[i]
    ensures Total(c) == Total(a) + Total(b)
    decreases |c|
  {
    if |c| > 0 {
      TotalAdd(a[1..], b[1..], c[1..]);
    }
  }

  /** Scaling every entry by k scales the sum by k. */
  lemma {:induction false} TotalScale(a: seq<real>, b: seq<real>, k: real)
    requires |a| == |b|
    requires forall i :: 0 <= i < |b| ==> b[i] == k * a[i]
    ensures Total(b) == k * Total(a)
    decreases |b|
  {
    if |b| > 0 {
      TotalScale(a[1..], b[1..], k);
    }
  }

  /** Taking out entry k of v removes v[k] from its sum and its multiset. */
  lemma RemoveAt(v: seq<real>, k: nat)
    requires k < |v|
    ensures Total(v) == v[k] + Total(v[..k] + v[k + 1..])
    ensures multiset(v[..k] + v[k + 1..]) == multiset(v) - multiset{v[k]}
  {
    var pre := v[..k];
    var post := v[k + 1..];
    var x := v[k];
    assert v == pre + ([x] + post);
    TotalAppend(pre, [x] + post);
    TotalAppend(pre, post);
    TotalCons(x, post);
    RemoveAtMultiset(v, k);
  }

  lemma RemoveAtMultiset<T>(v: seq<T>, k: nat)
    requires k < |v|
    ensures multiset(v[..k] + v[k + 1..]) == multiset(v) - multiset{v[k]}
  {
    assert v == v[..k] + [v[k]] + v[k + 1..];
  }

  lemma TotalCons(x: real, v: seq<real>)
    ensures Total([x] + v) == x + Total(v)
  {
    assert ([x] + v)[1..] == v;
  }

  /** The sum depends only on the multiset of entries. */
  lemma {:induction false} TotalOfPermutation(u: seq<real>, v: seq<real>)
    requires multiset(u) == multiset(v)
    ensures Total(u) == Total(v)
    decreases |u|
  {
    if |u| > 0 {
      var x := u[0];
      assert x in multiset(v);
      var k :| 0 <= k < |v| && v[k] == x;
      var rest := v[..k] + v[k + 1..];
      RemoveAt(v, k);
      assert multiset(u[1..]) == multiset(u) - multiset{x} by {
        assert u == [x] + u[1..];
      }
      TotalOfPermutation(u[1..], rest);
      TotalCons(x, u[1..]);
      assert u == [x] + u[1..];
    } else {
      assert |v| == |multiset(v)| == 0;
    }
  }

  /** When the last position is a fixed point of an involution, the other
      positions form an involution of the shorter prefix. */
  lemma FixedLastRestricts(index: nat -> nat, n: nat)
    requires n > 0 && IsInvolution(index, n) && index(n - 1) == n - 1
    ensures IsInvolution(index, n - 1)
  {
    forall i | 0 <= i < n - 1
      ensures index(i) < n - 1
    {
      // index(i) == n - 1 would give i == index(n - 1) == n - 1.
      assert index(index(i)) == i;
    }
  }

  /** When an involution swaps j with the last position, making j a fixed
      point instead gives an involution of the shorter prefix. */
  lemma SwappedLastRestricts(index: nat -> nat, n: nat, j: nat, fixJ: nat -> nat)
    requires n > 0 && IsInvolution(index, n)
    requires j == index(n - 1) && j != n - 1
    requires forall i :: fixJ(i) == if i == j then j else index(i)
    ensures IsInvolution(fixJ, n - 1)
    ensures forall i :: 0 <= i < n - 1 && i != j ==> index(i) != n - 1 && index(i) != j
  {
    assert index(j) == n - 1;
    forall i | 0 <= i < n - 1 && i != j
      ensures index(i) != n - 1 && index(i) != j && index(i) < n - 1
    {
      assert index(index(i)) == i;
    }
  }

  /** Moving the last entry of v into slot j < |v| - 1 of the prefix, then
      adding back the old v[j], gives the entries of v. */
  lemma MoveLastIntoSlot<T>(v: seq<T>, j: nat)
    requires j < |v| - 1
    ensures multiset(v[..|v| - 1][j := v[|v| - 1]]) + multiset{v[j]} == multiset(v)
  {
    var last := |v| - 1;
    var prefix := v[..last];
    assert v == prefix + [v[last]];
    assert prefix[j] == v[j];
    assert v[j] in multiset(prefix);
  }

  /** A sequence u whose entry i is the entry `index(i)` of v, for an
      involution `index`, holds the same entries as v: it is a
      permutation of v. */
  lemma {:induction false} InvolutionPermutes<T>(u: seq<T>, v: seq<T>, index: nat -> nat)
    requires |u| == |v|
    requires IsInvolution(index, |v|)
    requires forall i :: 0 <= i < |u| ==> u[i] == v[index(i)]
    ensures multiset(u) == multiset(v)
    decreases |v|
  {
    if |v| > 0 {
      var last := |v| - 1;
      var j := index(last);
      var prefix := u[..last];
      assert multiset(u) == multiset(prefix) + multiset{u[last]} by {
        assert u == prefix + [u[last]];
      }
      if j == last {
        assert multiset(v) == multiset(v[..last]) + multiset{v[last]} by {
          assert v == v[..last] + [v[last]];
        }
        FixedLastRestricts(index, |v|);
        InvolutionPermutes(prefix, v[..last], index);
      } else {
        // Positions j and last are swapped by index; fix j and recurse on a
        // prefix where v's last entry has been moved into slot j.
        var shorter := v[..last][j := v[last]];
        var fixJ := (i: nat) => if i == j then j else index(i);
        SwappedLastRestricts(index, |v|, j, fixJ);
        SwappedPrefixReads(u, v, index, j, fixJ);
        InvolutionPermutes(prefix, shorter, fixJ);
        MoveLastIntoSlot(v, j);
        assert multiset{u[last]} == multiset{v[j]} by {
          assert u[last] == v[j];
        }
      }
    }
  }

  /** With j and the last position swapped by index, the prefix of u reads
      the prefix of v, its slot j holding v's last entry, through fixJ. */
  lemma SwappedPrefixReads<T>(u: seq<T>, v: seq<T>, index: nat -> nat, j: nat, fixJ: nat -> nat)
    requires |u| == |v| > 0
    requires IsInvolution(index, |v|)
    requires forall i :: 0 <= i < |u| ==> u[i] == v[index(i)]
    requires j == index(|v| - 1) && j < |v| - 1 && index(j) == |v| - 1
    requires forall i :: 0 <= i < |v| - 1 && i != j ==> index(i) != |v| - 1 && index(i) != j
    requires forall i :: fixJ(i) == if i == j then j else index(i)
    ensures forall i :: 0 <= i < |v| - 1 ==> u[..|v| - 1][i] == v[..|v| - 1][j := v[|v| - 1]][fixJ(i)]
  {
    var last := |v| - 1;
    var shorter := v[..last][j := v[last]];
    forall i | 0 <= i < last
      ensures u[..last][i] == shorter[fixJ(i)]
    {
      if i == j {
        assert u[j] == v[index(j)];
      } else {
        assert u[i] == v[index(i)];
      }
    }
  }

  /** A permutation of the entries keeps the squared norm. */
  lemma SumSqOfPermutation(u: seq<real>, v: seq<real>, index: nat -> nat)
    requires |u| == |v|
    requires IsInvolution(index, |v|)
    requires forall i :: 0 <= i < |u| ==> u[i] == v[index(i)]
    ensures multiset(u) == multiset(v)
    ensures SumSq(u) == SumSq(v)
  {
    InvolutionPermutes(u, v, index);
    forall i | 0 <= i < |u|
      ensures Squares(u)[i] == Squares(v)[index(i)]
    {
      assert u[i] == v[index(i)];
    }
    InvolutionPermutes(Squares(u), Squares(v), index);
    TotalOfPermutation(Squares(u), Squares(v));
  }

  /** Reading a sequence through an involution of its indices keeps its sum. */
  lemma TotalOfInvolution(u: seq<real>, v: seq<real>, index: nat -> nat)
    requires |u| == |v|
    requires IsInvolution(index, |v|)
    requires forall i :: 0 <= i < |u| ==> u[i] == v[index(i)]
    ensures Total(u) == Total(v)
  {
    InvolutionPermutes(u, v, index);
    TotalOfPermutation(u, v);
  }

  /** Terms that change sign under an involution of the indices cancel. */
  lemma TotalOddIsZero(c: seq<real>, index: nat -> nat)
    requires IsInvolution(index, |c|)
    requires forall i {:trigger c[index(i)]} :: 0 <= i < |c| ==> c[index(i)] == -c[i]
    ensures Total(c) == 0.0
  {
    var negated := seq(|c|, i requires 0 <= i < |c| => -c[i]);
    var zeros := seq(|c|, i requires 0 <= i < |c| => 0.0);
    forall i | 0 <= i < |c|
      ensures negated[i] == c[index(i)]
    {
    }
    TotalOfInvolution(negated, c, index);
    TotalAdd(c, negated, zeros);
    TotalOfZeros(zeros);
  }

  /** A sum of zeros is zero. */
  lemma {:induction false} TotalOfZeros(v: seq<real>)
    requires forall i :: 0 <= i < |v| ==> v[i] == 0.0
    ensures Total(v) == 0.0
    decreases |v|
  {
    if |v| > 0 {
      TotalOfZeros(v[1..]);
    }
  }

  /** If every squared entry of u is half the square of v's entry, half the
      square of the partner entry under an involution, plus a cross term
      that changes sign under the involution, then u and v have the same
      squared norm. */
  lemma SumSqOfButterfly(u: seq<real>, v: seq<real>, index: nat -> nat, cross: seq<real>)
    requires |u| == |v| == |cross|
    requires IsInvolution(index, |v|)
    requires forall i {:trigger Squares(u)[i]} :: 0 <= i < |u| ==>
      Squares(u)[i] == 0.5 * Squares(v)[i] + 0.5 * Squares(v)[index(i)] + cross[i]
    requires forall i {:trigger cross[index(i)]} :: 0 <= i < |cross| ==> cross[index(i)] == -cross[i]
    ensures SumSq(u) == SumSq(v)
  {
    var sq := Squares(v);
    var halves := seq(|v|, i requires 0 <= i < |v| => 0.5 * sq[i] + 0.5 * sq[index(i)]);
    TotalAdd(halves, cross, Squares(u));
    TotalOfHalves(sq, index, halves);
    TotalOddIsZero(cross, index);
  }

  /** Averaging each entry with its partner under an involution keeps the sum. */
  lemma TotalOfHalves(sq: seq<real>, index: nat -> nat, halves: seq<real>)
    requires |halves| == |sq|
    requires IsInvolution(index, |sq|)
    requires forall i {:trigger halves[i]} :: 0 <= i < |sq| ==> halves[i] == 0.5 * sq[i] + 0.5 * sq[index(i)]
    ensures Total(halves) == Total(sq)
  {
    var own := seq(|sq|, i requires 0 <= i < |sq| => 0.5 * sq[i]);
    var partner := seq(|sq|, i requires 0 <= i < |sq| => 0.5 * sq[index(i)]);
    TotalAdd(own, partner, halves);
    TotalAdd(own, own, sq);
    TotalOfInvolution(partner, own, index);
  }

  /** Scaling a vector by k scales its squared norm by k^2. */
  lemma SumSqScale(s: seq<real>, r: seq<real>, k: real)
    requires |r| == |s|
    requires forall i :: 0 <= i < |s| ==> r[i] == k * s[i]
    ensures SumSq(r) == k * k * SumSq(s)
  {
    var kk := k * k;
    var sq := Squares(s);
    var rq := Squares(r);
    forall i | 0 <= i < |s|
      ensures rq[i] == kk * sq[i]
    {
      var a := s[i];
      assert rq[i] == r[i] * r[i] && r[i] == k * a && sq[i] == a * a;
      ScaledSquare(a, k);
    }
    TotalScale(sq, rq, kk);
  }

  lemma ScaledSquare(a: real, k: real)
    ensures (k * a) * (k * a) == (k * k) * (a * a)
  {
  }

  /** The zero vector has squared norm zero. */
  lemma SumSqOfZero(s: seq<real>)
    requires forall i :: 0 <= i < |s| ==> s[i] == 0.0
    ensures SumSq(s) == 0.0
  {
    TotalOfZeros(Squares(s));
  }

  /** The squared norm of a vector with one more entry in front. */
  lemma SumSqCons(x: real, t: seq<real>)
    ensures SumSq([x] + t) == x * x + SumSq(t)
  {
    var u := [x] + t;
    var w := [x * x] + Squares(t);
    forall i | 0 <= i < |u|
      ensures Squares(u)[i] == w[i]
    {
      if i == 0 {
        assert u[0] == x;
      } else {
        assert u[i] == t[i - 1];
        assert w[i] == Squares(t)[i - 1];
      }
    }
    assert Squares(u) == w;
    assert ([x * x] + Squares(t))[1..] == Squares(t);
  }

  /** Only the zero vector has squared norm zero. */
  lemma {:induction false} SumSqZeroIsZero(s: seq<real>)
    requires SumSq(s) == 0.0
    ensures forall i :: 0 <= i < |s| ==> s[i] == 0.0
    decreases |s|
  {
    if |s| > 0 {
      var x := s[0];
      var rest := s[1..];
      assert s == [x] + rest;
      SumSqCons(x, rest);
      assert x * x >= 0.0;
      assert SumSq(rest) == 0.0 && x * x == 0.0;
      SquareZero(x);
      SumSqZeroIsZero(rest);
      forall i | 1 <= i < |s|
        ensures s[i] == 0.0
      {
        assert s[i] == rest[i - 1];
      }
    }
  }

  /** A real whose square is zero is zero. */
  lemma SquareZero(x: real)
    ensures x * x == 0.0 ==> x == 0.0
  {
    if x != 0.0 {
      assert x * x / x == x;
    }
  }

  /** A product is zero only when a factor is. */
  lemma ProductZero(a: real, b: real)
    ensures a * b == 0.0 ==> a == 0.0 || b == 0.0
  {
    if b != 0.0 {
      assert a * b / b == a;
    }
  }

  /** Changing the signs of entries keeps the squared norm. */
  lemma SumSqIgnoresSigns(u: seq<real>, v: seq<real>)
    requires |u| == |v|
    requires forall i :: 0 <= i < |u| ==> u[i] == v[i] || u[i] == -v[i]
    ensures SumSq(u) == SumSq(v)
  {
    forall i | 0 <= i < |u|
      ensures Squares(u)[i] == Squares(v)[i]
    {
      var a := v[i];
      assert u[i] * u[i] == a * a;
    }
    assert Squares(u) == Squares(v);
  }
}
