/** Componentwise arithmetic on fixed-width vectors of scalars, viewed as
    sequences. These functions are the specification that both the
    3-component `Vertex` and the 8-component `Feature` are proved against:
    each operator of those types must agree, lane by lane, with the
    function of the same meaning here. */
module Componentwise {

  /** Lane-wise sum. */
  function AddEach(a: seq<real>, b: seq<real>): (r: seq<real>)
    requires |a| == |b|
  {
    seq(|a|, i requires 0 <= i < |a| => a[i] + b[i])
  }

  /** Lane-wise difference. */
  function SubEach(a: seq<real>, b: seq<real>): (r: seq<real>)
    requires |a| == |b|
  {
    seq(|a|, i requires 0 <= i < |a| => a[i] - b[i])
  }

  /** Lane-wise (Hadamard) product. */
  function MulEach(a: seq<real>, b: seq<real>): (r: seq<real>)
    requires |a| == |b|
  {
    seq(|a|, i requires 0 <= i < |a| => a[i] * b[i])
  }

  /** Every lane multiplied by the same scalar. */
  function ScaleEach(a: seq<real>, s: real): (r: seq<real>)
  {
    seq(|a|, i requires 0 <= i < |a| => a[i] * s)
  }

  /** Every lane multiplied by lane `j` of the same vector, when the scalar
      is a reference to that lane and is read again at each lane, as in
      `v *= v[j]`: the lanes up to and including `j` are scaled by the old
      `a[j]`, and the lanes after it by the new lane `j`, `a[j] * a[j]`. */
  function ScaleByOwnLane(a: seq<real>, j: nat): (r: seq<real>)
    requires j < |a|
  {
    seq(|a|, i requires 0 <= i < |a| => if i <= j then a[i] * a[j] else a[i] * (a[j] * a[j]))
  }

  /** Dot product, accumulated from 0 starting at lane 0: the value of
      `DotSum(a, b)` is `((0 + a[0]*b[0]) + a[1]*b[1]) + ...`, the order in
      which a loop over increasing lanes adds the products. */
  function DotSum(a: seq<real>, b: seq<real>): (r: real)
    requires |a| == |b|
    decreases |a|
  {
    if |a| == 0 then 0.0
    else DotSum(a[..|a| - 1], b[..|b| - 1]) + a[|a| - 1] * b[|b| - 1]
  }

  /** Sum of all lanes, accumulated the same way as `DotSum`. */
  function Total(a: seq<real>): (r: real)
    decreases |a|
  {
    if |a| == 0 then 0.0 else Total(a[..|a| - 1]) + a[|a| - 1]
  }

  // ---------------------------------------------------------------------------
  // Algebra of the componentwise operators

  /** Subtracting what was added gives back the original vector. */
  lemma SubEachUndoesAddEach(a: seq<real>, b: seq<real>)
    requires |a| == |b|
    ensures SubEach(AddEach(a, b), b) == a
  {
  }

  /** Lane-wise addition is commutative. */
  lemma AddEachCommutes(a: seq<real>, b: seq<real>)
    requires |a| == |b|
    ensures AddEach(a, b) == AddEach(b, a)
  {
  }

  /** Scaling distributes over lane-wise addition. */
  lemma ScaleEachDistributes(a: seq<real>, b: seq<real>, s: real)
    requires |a| == |b|
    ensures ScaleEach(AddEach(a, b), s) == AddEach(ScaleEach(a, s), ScaleEach(b, s))
  {
    forall i | 0 <= i < |a|
      ensures ScaleEach(AddEach(a, b), s)[i] == AddEach(ScaleEach(a, s), ScaleEach(b, s))[i]
    {
      calc {
        ScaleEach(AddEach(a, b), s)[i];
        (a[i] + b[i]) * s;
        a[i] * s + b[i] * s;
      }
    }
  }

  // ---------------------------------------------------------------------------
  // Scaling by a lane of the vector itself

  /** Scaling by one's own lane `j` is scaling by the old `a[j]` up to lane
      `j`, after which the lanes are scaled by `a[j]` a second time. */
  lemma ScaleByOwnLaneScalesTwiceAfterJ(a: seq<real>, j: nat)
    requires j < |a|
    ensures ScaleByOwnLane(a, j)
         == ScaleEach(a, a[j])[..j + 1] + ScaleEach(ScaleEach(a, a[j])[j + 1..], a[j])
  {
    var c := a[j];
    var once := ScaleEach(a, c);
    var r := once[..j + 1] + ScaleEach(once[j + 1..], c);
    forall i | 0 <= i < |a|
      ensures ScaleByOwnLane(a, j)[i] == r[i]
    {
      if i > j {
        assert r[i] == once[i] * c;
        assert once[i] * c == a[i] * (c * c);
      }
    }
  }

  /** When lane `j` is 0 or 1, squaring it does not change it, and scaling by
      one's own lane is plain scaling by `a[j]`. */
  lemma ScaleByOwnLaneOfZeroOrOne(a: seq<real>, j: nat)
    requires j < |a| && (a[j] == 0.0 || a[j] == 1.0)
    ensures ScaleByOwnLane(a, j) == ScaleEach(a, a[j])
  {
  }

  /** Conversely, the two agree only when lane `j` is 0 or 1 or every lane
      after `j` is 0. */
  lemma ScaleByOwnLaneIsScaleEachOnlyIf(a: seq<real>, j: nat)
    requires j < |a| && ScaleByOwnLane(a, j) == ScaleEach(a, a[j])
    ensures a[j] == 0.0 || a[j] == 1.0 || forall i :: j < i < |a| ==> a[i] == 0.0
  {
    var c := a[j];
    if c != 0.0 && c != 1.0 {
      var k := c * (c - 1.0);
      assert k != 0.0 by {
        NonZeroProduct(c, c - 1.0);
      }
      forall i | j < i < |a|
        ensures a[i] == 0.0
      {
        assert ScaleByOwnLane(a, j)[i] == ScaleEach(a, c)[i];
        assert a[i] * k == a[i] * (c * c) - a[i] * c;
        NonZeroProduct(a[i], k);
      }
    }
  }

  /** A product of non-zero reals is non-zero. */
  lemma NonZeroProduct(x: real, y: real)
    ensures x != 0.0 && y != 0.0 ==> x * y != 0.0
  {
    if x != 0.0 && y != 0.0 {
      assert (x * y) / y == x;
    }
  }

  /** Otherwise the two differ: on [2, 1], scaling by lane 0 through a
      reference gives [4, 4], where scaling by the value 2 gives [4, 2]. */
  lemma ScaleByOwnLaneDiffersFromScaleEach()
    ensures ScaleByOwnLane([2.0, 1.0], 0) == [4.0, 4.0]
    ensures ScaleEach([2.0, 1.0], 2.0) == [4.0, 2.0]
  {
  }

  // ---------------------------------------------------------------------------
  // The dot product

  /** The dot product is the total of the lane-wise product. */
  lemma {:induction false} DotSumIsTotalOfProducts(a: seq<real>, b: seq<real>)
    requires |a| == |b|
    ensures DotSum(a, b) == Total(MulEach(a, b))
    decreases |a|
  {
    if |a| > 0 {
      var n := |a| - 1;
      DotSumIsTotalOfProducts(a[..n], b[..n]);
      forall i | 0 <= i < n ensures MulEach(a, b)[..n][i] == MulEach(a[..n], b[..n])[i] {
        assert a[..n][i] == a[i] && b[..n][i] == b[i];
      }
      assert MulEach(a, b)[..n] == MulEach(a[..n], b[..n]);
    }
  }

  /** The dot product does not depend on the order of its operands. */
  lemma {:induction false} DotSumSymmetric(a: seq<real>, b: seq<real>)
    requires |a| == |b|
    ensures DotSum(a, b) == DotSum(b, a)
    decreases |a|
  {
    if |a| > 0 {
      DotSumSymmetric(a[..|a| - 1], b[..|b| - 1]);
    }
  }

  /** The dot product is additive in its first operand. */
  lemma {:induction false} DotSumAdditive(a: seq<real>, b: seq<real>, c: seq<real>)
    requires |a| == |b| == |c|
    ensures DotSum(AddEach(a, b), c) == DotSum(a, c) + DotSum(b, c)
    decreases |a|
  {
    if |a| > 0 {
      var n := |a| - 1;
      DotSumAdditive(a[..n], b[..n], c[..n]);
      assert AddEach(a, b)[..n] == AddEach(a[..n], b[..n]);
    }
  }

  /** The dot product is homogeneous in its first operand. */
  lemma {:induction false} DotSumHomogeneous(a: seq<real>, b: seq<real>, s: real)
    requires |a| == |b|
    ensures DotSum(ScaleEach(a, s), b) == s * DotSum(a, b)
    decreases |a|
  {
    if |a| > 0 {
      var n := |a| - 1;
      DotSumHomogeneous(a[..n], b[..n], s);
      forall i | 0 <= i < n ensures ScaleEach(a, s)[..n][i] == ScaleEach(a[..n], s)[i] {
        assert a[..n][i] == a[i];
      }
      assert ScaleEach(a, s)[..n] == ScaleEach(a[..n], s);
    }
  }

  /** A vector's dot product with itself is never negative. */
  lemma {:induction false} DotSumSelfNonNegative(a: seq<real>)
    ensures DotSum(a, a) >= 0.0
    decreases |a|
  {
    if |a| > 0 {
      DotSumSelfNonNegative(a[..|a| - 1]);
    }
  }
}
