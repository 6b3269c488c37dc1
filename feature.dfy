/** The fixed-width feature vector `Feature<T>` attached to every output
    vertex, with `T` taken as `real`. Its storage is an inline array of
    `Size` scalars; every operation walks that array with a loop over
    increasing indices, either filling a fresh result, accumulating a sum,
    or overwriting `data` in place. */
module Features {
  import opened Componentwise

  /** `Feature<T>::SIZE` */
  const Size: nat := 8

  /** Sequential effect of CUDA's `atomicAdd(address, val)` on `a[i]`: the
      cell gains `v` and its previous value is returned. Atomicity with
      respect to other threads is not modelled. */
  method AtomicAdd(a: array<real>, i: nat, v: real) returns (previous: real)
    requires i < a.Length
    modifies a
    ensures previous == old(a[i])
    ensures a[..] == old(a[..])[i := old(a[i]) + v]
  {
    previous := a[i];
    a[i] := a[i] + v;
  }

  class Feature {
    /** `T data[SIZE]`: the array is part of the object and is never
        replaced, only written element by element. */
    const data: array<real>

    predicate Valid()
    {
      data.Length == Size
    }

    /** A feature with unspecified contents, like the uninitialised local
        `Feature<T> result;` that every binary operator starts from. */
    constructor ()
      ensures Valid() && fresh(data)
    {
      data := new real[Size];
    }

    /** `operator+`: a fresh feature holding the lane-wise sum; neither
        operand is changed. */
    method Add(other: Feature) returns (result: Feature)
      requires Valid() && other.Valid()
      ensures result.Valid() && fresh(result) && fresh(result.data)
      ensures result.data[..] == AddEach(data[..], other.data[..])
    {
      result := new Feature();
      for i := 0 to Size
        invariant forall k :: 0 <= k < i ==> result.data[k] == data[k] + other.data[k]
      {
        result.data[i] := data[i] + other.data[i];
      }
    }

    /** `dot`: the sum of the lane-wise products, accumulated from 0 in lane
        order. */
    method Dot(other: Feature) returns (result: real)
      requires Valid() && other.Valid()
      ensures result == DotSum(data[..], other.data[..])
    {
      result := 0.0;
      for i := 0 to Size
        invariant result == DotSum(data[..i], other.data[..i])
      {
        assert data[..i + 1][..i] == data[..i] && other.data[..i + 1][..i] == other.data[..i];
        result := result + data[i] * other.data[i];
      }
      assert data[..Size] == data[..] && other.data[..Size] == other.data[..];
    }

    /** `operator-`: a fresh feature holding the lane-wise difference. */
    method Sub(other: Feature) returns (result: Feature)
      requires Valid() && other.Valid()
      ensures result.Valid() && fresh(result) && fresh(result.data)
      ensures result.data[..] == SubEach(data[..], other.data[..])
    {
      result := new Feature();
      for i := 0 to Size
        invariant forall k :: 0 <= k < i ==> result.data[k] == data[k] - other.data[k]
      {
        result.data[i] := data[i] - other.data[i];
      }
    }

    /** `operator*` with another feature: a fresh feature holding the
        lane-wise product. */
    method Mul(other: Feature) returns (result: Feature)
      requires Valid() && other.Valid()
      ensures result.Valid() && fresh(result) && fresh(result.data)
      ensures result.data[..] == MulEach(data[..], other.data[..])
    {
      result := new Feature();
      for i := 0 to Size
        invariant forall k :: 0 <= k < i ==> result.data[k] == MulEach(data[..], other.data[..])[k]
      {
        result.data[i] := data[i] * other.data[i];
      }
    }

    /** `operator*` with a scalar: a fresh feature holding every lane
        scaled by `scalar`. */
    method MulScalar(scalar: real) returns (result: Feature)
      requires Valid()
      ensures result.Valid() && fresh(result) && fresh(result.data)
      ensures result.data[..] == ScaleEach(data[..], scalar)
    {
      result := new Feature();
      for i := 0 to Size
        invariant forall k :: 0 <= k < i ==> result.data[k] == ScaleEach(data[..], scalar)[k]
      {
        result.data[i] := data[i] * scalar;
      }
    }

    /** `operator+=`: `data` becomes the lane-wise sum of its old value and
        the old value of `other.data`, and the feature itself is returned.
        This holds even when `other` is this very feature, because each lane
        is read before it is written. Nothing but `data` changes, so an
        `other` with its own storage is left as it was. */
    method AddAssign(other: Feature) returns (self: Feature)
      requires Valid() && other.Valid()
      modifies data
      ensures self == this
      ensures data[..] == AddEach(old(data[..]), old(other.data[..]))
      ensures other.data != data ==> other.data[..] == old(other.data[..])
    {
      for i := 0 to Size
        invariant forall k :: 0 <= k < i ==> data[k] == old(data[k]) + old(other.data[k])
        invariant forall k :: i <= k < Size ==> data[k] == old(data[k])
        invariant forall k :: i <= k < Size ==> other.data[k] == old(other.data[k])
      {
        data[i] := data[i] + other.data[i];
      }
      self := this;
    }

    /** `operator-=`: `data` becomes the lane-wise difference of its old
        value and the old value of `other.data`; with `other` this very
        feature, every lane becomes 0. An `other` with its own storage is
        left as it was. */
    method SubAssign(other: Feature) returns (self: Feature)
      requires Valid() && other.Valid()
      modifies data
      ensures self == this
      ensures data[..] == SubEach(old(data[..]), old(other.data[..]))
      ensures other.data != data ==> other.data[..] == old(other.data[..])
    {
      for i := 0 to Size
        invariant forall k :: 0 <= k < i ==> data[k] == old(data[k]) - old(other.data[k])
        invariant forall k :: i <= k < Size ==> data[k] == old(data[k])
        invariant forall k :: i <= k < Size ==> other.data[k] == old(other.data[k])
      {
        data[i] := data[i] - other.data[i];
      }
      self := this;
    }

    /** `operator*=` with a scalar held apart from this feature: every lane
        of `data` is scaled by the same value. */
    method MulScalarAssign(scalar: real) returns (self: Feature)
      requires Valid()
      modifies data
      ensures self == this
      ensures data[..] == ScaleEach(old(data[..]), scalar)
    {
      for i := 0 to Size
        invariant forall k :: 0 <= k < i ==> data[k] == ScaleEach(old(data[..]), scalar)[k]
        invariant forall k :: i <= k < Size ==> data[k] == old(data[k])
      {
        data[i] := data[i] * scalar;
      }
      self := this;
    }

    /** `operator*=` when the scalar reference is lane `j` of this very
        feature, as in `f *= f.data[j]`. The loop reads `data[j]` afresh at
        every lane, so once lane `j` has been squared the lanes after it are
        scaled by the new value: the effect is `ScaleByOwnLane`. */
    method MulOwnLaneAssign(j: nat) returns (self: Feature)
      requires Valid() && j < Size
      modifies data
      ensures self == this
      ensures data[..] == ScaleByOwnLane(old(data[..]), j)
    {
      for i := 0 to Size
        invariant forall k :: 0 <= k < i ==> data[k] == ScaleByOwnLane(old(data[..]), j)[k]
        invariant forall k :: i <= k < Size ==> data[k] == old(data[k])
      {
        data[i] := data[i] * data[j];
      }
      self := this;
    }

    /** `atomicAddWapper` (the name is spelled as in the engine): adds
        `other` into `data` one lane at a time through `atomicAdd`. Run by a
        single thread its effect is that of `+=`, and an `other` with its own
        storage is left as it was. */
    method AtomicAddWapper(other: Feature)
      requires Valid() && other.Valid()
      modifies data
      ensures data[..] == AddEach(old(data[..]), old(other.data[..]))
      ensures other.data != data ==> other.data[..] == old(other.data[..])
    {
      for i := 0 to Size
        invariant forall k :: 0 <= k < i ==> data[k] == old(data[k]) + old(other.data[k])
        invariant forall k :: i <= k < Size ==> data[k] == old(data[k])
        invariant forall k :: i <= k < Size ==> other.data[k] == old(other.data[k])
      {
        var _ := AtomicAdd(data, i, other.data[i]);
      }
    }
  }
}
