/** The 3-component position `Vertex<T>` of the Marching Cubes engine, with
    the scalar type `T` taken as `real`. The binary operators and `dot` build
    a new value from their operands and are modelled as functions; the
    compound assignments change the fields of an existing vertex in place and
    are modelled as methods of `VertexSlot`, the storage that holds one. */
module Vertices {
  import opened Componentwise

  datatype Vertex = Vertex(x: real, y: real, z: real)
  {
    /** The components in memory order, x first: the view `data_ptr`
        gives of a vertex as an array of three scalars. */
    function AsSeq(): (s: seq<real>)
    {
      [x, y, z]
    }

    /** `operator+` */
    function Add(other: Vertex): (r: Vertex)
    {
      Vertex(x + other.x, y + other.y, z + other.z)
    }

    /** `dot` */
    function Dot(other: Vertex): (r: real)
    {
      x * other.x + y * other.y + z * other.z
    }

    /** `operator-` */
    function Sub(other: Vertex): (r: Vertex)
    {
      Vertex(x - other.x, y - other.y, z - other.z)
    }

    /** `operator*` with another vertex: componentwise product. */
    function Mul(other: Vertex): (r: Vertex)
    {
      Vertex(x * other.x, y * other.y, z * other.z)
    }

    /** `operator*` with a scalar. */
    function MulScalar(scalar: real): (r: Vertex)
    {
      Vertex(x * scalar, y * scalar, z * scalar)
    }
  }

  // ---------------------------------------------------------------------------
  // Each operator agrees with the componentwise operation of the same meaning

  lemma AddIsComponentwise(v: Vertex, w: Vertex)
    ensures v.Add(w).AsSeq() == AddEach(v.AsSeq(), w.AsSeq())
  {
  }

  lemma SubIsComponentwise(v: Vertex, w: Vertex)
    ensures v.Sub(w).AsSeq() == SubEach(v.AsSeq(), w.AsSeq())
  {
  }

  lemma MulIsComponentwise(v: Vertex, w: Vertex)
    ensures v.Mul(w).AsSeq() == MulEach(v.AsSeq(), w.AsSeq())
  {
    var a, b := v.AsSeq(), w.AsSeq();
    assert MulEach(a, b)[0] == v.x * w.x && MulEach(a, b)[1] == v.y * w.y;
    assert MulEach(a, b)[2] == v.z * w.z;
  }

  lemma MulScalarIsComponentwise(v: Vertex, s: real)
    ensures v.MulScalar(s).AsSeq() == ScaleEach(v.AsSeq(), s)
  {
    var a := v.AsSeq();
    assert ScaleEach(a, s)[0] == v.x * s && ScaleEach(a, s)[1] == v.y * s;
    assert ScaleEach(a, s)[2] == v.z * s;
  }

  /** `dot` is the sum of the componentwise products, added in x, y, z order. */
  lemma DotIsDotSum(v: Vertex, w: Vertex)
    ensures v.Dot(w) == DotSum(v.AsSeq(), w.AsSeq())
  {
    var a, b := v.AsSeq(), w.AsSeq();
    assert a[..2] == [v.x, v.y] && b[..2] == [w.x, w.y];
    assert a[..2][..1] == [v.x] && b[..2][..1] == [w.x];
    assert [v.x][..0] == [];
    assert DotSum([v.x], [w.x]) == v.x * w.x;
  }

  // ---------------------------------------------------------------------------
  // Algebra of the operators

  /** `-` undoes `+`. */
  lemma SubUndoesAdd(v: Vertex, w: Vertex)
    ensures v.Add(w).Sub(w) == v
  {
  }

  /** `dot` is symmetric and additive in its first operand. */
  lemma DotBilinear(u: Vertex, v: Vertex, w: Vertex, s: real)
    ensures u.Dot(v) == v.Dot(u)
    ensures u.Add(v).Dot(w) == u.Dot(w) + v.Dot(w)
    ensures u.MulScalar(s).Dot(w) == s * u.Dot(w)
  {
    DotIsDotSum(u, v);
    DotIsDotSum(v, u);
    DotSumSymmetric(u.AsSeq(), v.AsSeq());
    AddIsComponentwise(u, v);
    DotIsDotSum(u.Add(v), w);
    DotIsDotSum(u, w);
    DotIsDotSum(v, w);
    DotSumAdditive(u.AsSeq(), v.AsSeq(), w.AsSeq());
    MulScalarIsComponentwise(u, s);
    DotIsDotSum(u.MulScalar(s), w);
    DotSumHomogeneous(u.AsSeq(), w.AsSeq(), s);
  }

  /** The storage of one `Vertex<T>`: its three fields, which the compound
      assignments `+=`, `-=` and `*=` overwrite in place. */
  class VertexSlot {
    var x: real
    var y: real
    var z: real

    /** The vertex currently stored. */
    function Value(): (v: Vertex)
      reads this
    {
      Vertex(x, y, z)
    }

    constructor (v: Vertex)
      ensures Value() == v
    {
      x, y, z := v.x, v.y, v.z;
    }

    /** `operator+=`: afterwards the slot holds the old vertex plus `other`;
        the slot itself is returned. */
    method AddAssign(other: Vertex) returns (self: VertexSlot)
      modifies this
      ensures self == this
      ensures Value() == old(Value()).Add(other)
    {
      x := x + other.x;
      y := y + other.y;
      z := z + other.z;
      self := this;
    }

    /** `operator-=`: afterwards the slot holds the old vertex minus `other`. */
    method SubAssign(other: Vertex) returns (self: VertexSlot)
      modifies this
      ensures self == this
      ensures Value() == old(Value()).Sub(other)
    {
      x := x - other.x;
      y := y - other.y;
      z := z - other.z;
      self := this;
    }

    /** `operator*=` with a scalar: afterwards the slot holds the old vertex
        scaled by `scalar`. */
    method MulScalarAssign(scalar: real) returns (self: VertexSlot)
      modifies this
      ensures self == this
      ensures Value() == old(Value()).MulScalar(scalar)
    {
      x := x * scalar;
      y := y * scalar;
      z := z * scalar;
      self := this;
    }

    /** `operator*=` when the scalar reference is component `k` of this very
        vertex (0 for x, 1 for y, 2 for z), as in `v *= v.x`. The component
        is read again for every field, so the fields after it are scaled by
        its new, squared value: the effect is `ScaleByOwnLane` on x, y, z. */
    method MulOwnComponentAssign(k: nat) returns (self: VertexSlot)
      requires k < 3
      modifies this
      ensures self == this
      ensures Value().AsSeq() == ScaleByOwnLane(old(Value().AsSeq()), k)
    {
      ghost var a := Value().AsSeq();
      if k == 0 {
        x := x * x;
        y := y * x;
        z := z * x;
      } else if k == 1 {
        x := x * y;
        y := y * y;
        z := z * y;
      } else {
        x := x * z;
        y := y * z;
        z := z * z;
      }
      assert Value().AsSeq()[0] == ScaleByOwnLane(a, k)[0];
      assert Value().AsSeq()[1] == ScaleByOwnLane(a, k)[1];
      assert Value().AsSeq()[2] == ScaleByOwnLane(a, k)[2];
      self := this;
    }
  }
}
