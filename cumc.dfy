/** The state of the Marching Cubes engine `CuMC<Scalar, IndexType>` that its
    header implements in full: the lattice dimensions and cell count set by
    `resize`, and the mapping between a cell's (x, y, z) coordinate and its
    linear cell id. `Scalar` is taken as `real` and `IndexType` as `int`
    (mathematical integers); `/` and `%` on indices are C++'s, which
    truncate toward zero. The buffer fields are kept so that `resize` can be
    shown to leave them alone; the stages that fill them are not part of
    this model. */
module MarchingCubes {
  import opened CppInt
  import opened Vertices
  import opened Features

  class CuMC {
    /** `IndexType dims[3]`: cells along x, y and z. */
    const dims: array<int>
    var nCells: int

    var nUsedCells: int
    var nVerts: int
    var nTris: int

    // Temporary storage for the prefix sums.
    var allocatedTempStorageSize: nat
    var tempStorage: array?<int>

    // Cell to used-cell index.
    var allocatedCellCount: nat
    var firstCellUsed: array?<int>

    // Per used cell: its cell index, first vertex, cube code, first triangle.
    var allocatedUsedCellCount: nat
    var usedCellIndex: array?<int>
    var usedToFirstMcVert: array?<int>
    var usedCellCode: array?<bv8>
    var usedToFirstMcTri: array?<int>

    // Output vertices, their types and features; output triangles.
    var allocatedVertCount: nat
    var vertsType: array?<int>
    var verts: array?<Vertex>
    var feats: array?<Feature>
    var allocatedTriCount: nat
    var tris: array?<int>

    /** The cell count always matches the dimensions. */
    predicate Valid()
      reads this, dims
    {
      dims.Length == 3 && nCells == dims[0] * dims[1] * dims[2]
    }

    /** Every field starts value-initialised: zero dimensions and counts, no
        allocation and null buffers. */
    constructor ()
      ensures Valid() && fresh(dims)
      ensures dims[..] == [0, 0, 0] && nCells == 0
      ensures nUsedCells == 0 && nVerts == 0 && nTris == 0
      ensures allocatedTempStorageSize == 0 && allocatedCellCount == 0
      ensures allocatedUsedCellCount == 0 && allocatedVertCount == 0 && allocatedTriCount == 0
      ensures tempStorage == null && firstCellUsed == null
      ensures usedCellIndex == null && usedToFirstMcVert == null
      ensures usedCellCode == null && usedToFirstMcTri == null
      ensures vertsType == null && verts == null && feats == null && tris == null
    {
      dims := new int[3](_ => 0);
      nCells := 0;
      nUsedCells, nVerts, nTris := 0, 0, 0;
      allocatedTempStorageSize, tempStorage := 0, null;
      allocatedCellCount, firstCellUsed := 0, null;
      allocatedUsedCellCount := 0;
      usedCellIndex, usedToFirstMcVert, usedCellCode, usedToFirstMcTri := null, null, null, null;
      allocatedVertCount, vertsType, verts, feats := 0, null, null, null;
      allocatedTriCount, tris := 0, null;
    }

    /** `gA`: the linear id of cell (x, y, z); z varies fastest, x slowest. */
    function GA(x: int, y: int, z: int): (id: int)
      reads dims
      requires dims.Length == 3
    {
      z + dims[2] * (y + dims[1] * x)
    }

    /** `gX`: the x coordinate of a linear cell id. */
    function GX(linearizedCellId: int): (x: int)
      reads dims
      requires dims.Length == 3 && dims[2] * dims[1] != 0
    {
      CDiv(linearizedCellId, dims[2] * dims[1])
    }

    /** `gY`: the y coordinate of a linear cell id. */
    function GY(linearizedCellId: int): (y: int)
      reads dims
      requires dims.Length == 3 && dims[2] != 0 && dims[1] != 0
    {
      CMod(CDiv(linearizedCellId, dims[2]), dims[1])
    }

    /** `gZ`: the z coordinate of a linear cell id. */
    function GZ(linearizedCellId: int): (z: int)
      reads dims
      requires dims.Length == 3 && dims[2] != 0
    {
      CMod(linearizedCellId, dims[2])
    }

    /** `resize`: records the new dimensions and the cell count they give.
        No count of the previous extraction, no allocation size and no
        buffer is touched. */
    method Resize(x: int, y: int, z: int)
      requires dims.Length == 3
      modifies dims, this`nCells
      ensures Valid()
      ensures dims[..] == [x, y, z] && nCells == x * y * z
      ensures nUsedCells == old(nUsedCells) && nVerts == old(nVerts) && nTris == old(nTris)
      ensures allocatedTempStorageSize == old(allocatedTempStorageSize)
      ensures allocatedCellCount == old(allocatedCellCount)
      ensures allocatedUsedCellCount == old(allocatedUsedCellCount)
      ensures allocatedVertCount == old(allocatedVertCount)
      ensures allocatedTriCount == old(allocatedTriCount)
      ensures tempStorage == old(tempStorage) && firstCellUsed == old(firstCellUsed)
      ensures usedCellIndex == old(usedCellIndex) && usedToFirstMcVert == old(usedToFirstMcVert)
      ensures usedCellCode == old(usedCellCode) && usedToFirstMcTri == old(usedToFirstMcTri)
      ensures vertsType == old(vertsType) && verts == old(verts)
      ensures feats == old(feats) && tris == old(tris)
    {
      dims[0] := x;
      dims[1] := y;
      dims[2] := z;
      nCells := x * y * z;
    }

    // -------------------------------------------------------------------------
    // The coordinate/id mapping is a bijection between the cells of the box
    // [0, dims[0]) x [0, dims[1]) x [0, dims[2]) and the ids [0, nCells).

    /** Coordinate to id to coordinate gives back the coordinate. x may be any
        non-negative value: gX has no upper bound to wrap at. */
    lemma CoordRoundTrip(x: int, y: int, z: int)
      requires dims.Length == 3 && dims[1] > 0 && dims[2] > 0
      requires 0 <= x && 0 <= y < dims[1] && 0 <= z < dims[2]
      ensures GX(GA(x, y, z)) == x && GY(GA(x, y, z)) == y && GZ(GA(x, y, z)) == z
    {
      var d1, d2 := dims[1], dims[2];
      var id, row := GA(x, y, z), y + d1 * x;
      assert row == x * d1 + y;
      assert row >= 0 by { NonNegativeProduct(d1, x); }
      assert id == row * d2 + z;
      NonNegativeProduct(row, d2);
      Decompose(id, d2, row, z);
      CDivModNonNegative(id, d2);
      Decompose(row, d1, x, y);
      CDivModNonNegative(row, d1);
      InnerBound(y, z, d1, d2);
      assert id == x * (d2 * d1) + (z + d2 * y);
      Decompose(id, d2 * d1, x, z + d2 * y);
      CDivModNonNegative(id, d2 * d1);
    }

    /** Id to coordinate to id gives back the id, and the coordinate lies in
        the box. */
    lemma IdRoundTrip(id: int)
      requires dims.Length == 3 && dims[0] > 0 && dims[1] > 0 && dims[2] > 0
      requires 0 <= id < dims[0] * dims[1] * dims[2]
      ensures 0 <= GX(id) < dims[0] && 0 <= GY(id) < dims[1] && 0 <= GZ(id) < dims[2]
      ensures GA(GX(id), GY(id), GZ(id)) == id
    {
      IdDecomposition(id, dims[0], dims[1], dims[2]);
    }

    /** The round trip needs x >= 0. A cell with x < 0 has a negative id,
        and truncating division rounds its quotient toward zero: gX gives
        back x only for the cell (x, 0, 0) that starts its slab, and x + 1
        for every other cell of the slab. */
    lemma NegativeXLeavesTheBox(x: int, y: int, z: int)
      requires dims.Length == 3 && dims[1] > 0 && dims[2] > 0
      requires x < 0 && 0 <= y < dims[1] && 0 <= z < dims[2]
      ensures GA(x, y, z) < 0
      ensures GX(GA(x, y, z)) == if y == 0 && z == 0 then x else x + 1
    {
      var d1, d2 := dims[1], dims[2];
      InnerBound(y, z, d1, d2);
      SlabOffset(x, y, z, d1, d2);
      OffsetIsZero(y, z, d2);
      NegativeQuotient(x, z + d2 * y, d2 * d1);
    }

    /** Distinct in-box coordinates have distinct ids. */
    lemma GAInjective(x: int, y: int, z: int, x': int, y': int, z': int)
      requires dims.Length == 3 && dims[1] > 0 && dims[2] > 0
      requires 0 <= x && 0 <= y < dims[1] && 0 <= z < dims[2]
      requires 0 <= x' && 0 <= y' < dims[1] && 0 <= z' < dims[2]
      requires GA(x, y, z) == GA(x', y', z')
      ensures x == x' && y == y' && z == z'
    {
      CoordRoundTrip(x, y, z);
      CoordRoundTrip(x', y', z');
    }

    /** Once sized, every in-box coordinate has an id among the nCells
        cells. */
    lemma GAWithinCells(x: int, y: int, z: int)
      requires Valid()
      requires 0 <= x < dims[0] && 0 <= y < dims[1] && 0 <= z < dims[2]
      ensures 0 <= GA(x, y, z) < nCells
    {
      var d0, d1, d2 := dims[0], dims[1], dims[2];
      InnerBound(y, z, d1, d2);
      NonNegativeProduct(x, d2 * d1);
      SlabOffset(x, y, z, d1, d2);
      NonNegativeProduct(d0 - 1 - x, d2 * d1);
      assert (d0 - 1 - x) * (d2 * d1) == d0 * (d2 * d1) - x * (d2 * d1) - d2 * d1;
      assert d0 * (d2 * d1) == nCells;
    }
  }

  // ---------------------------------------------------------------------------
  // Integer facts behind the index proofs

  lemma Distribute(a: int, b: int, c: int)
    ensures (a + b) * c == a * c + b * c
  {
  }

  /** The id `gA` gives is x whole slabs of d2 * d1 cells plus the offset
      of (y, z) inside the slab. */
  lemma SlabOffset(x: int, y: int, z: int, d1: int, d2: int)
    ensures z + d2 * (y + d1 * x) == x * (d2 * d1) + (z + d2 * y)
  {
    calc {
      z + d2 * (y + d1 * x);
      { Distribute(y, d1 * x, d2); }
      z + d2 * y + (d1 * x) * d2;
      { assert (d1 * x) * d2 == x * (d2 * d1); }
      x * (d2 * d1) + (z + d2 * y);
    }
  }

  /** The offset of (y, z) inside a slab is 0 only at (0, 0). */
  lemma OffsetIsZero(y: int, z: int, d2: int)
    requires d2 > 0 && y >= 0 && z >= 0
    ensures z + d2 * y == 0 <==> y == 0 && z == 0
  {
    MultipleMagnitude(y, d2);
  }

  /** Below zero, C++ division of x whole slabs plus an offset r rounds
      toward zero: the quotient is x when r is 0 and x + 1 otherwise. */
  lemma NegativeQuotient(x: int, r: int, m: int)
    requires m > 0 && x < 0 && 0 <= r < m
    ensures x * m + r < 0
    ensures CDiv(x * m + r, m) == if r == 0 then x else x + 1
  {
    var n := x * m + r;
    MultipleMagnitude(x, m);
    assert Abs(n) == -n && Abs(m) == m;
    if r == 0 {
      assert -n == (-x) * m + 0;
      Decompose(-n, m, -x, 0);
    } else {
      assert -n == (-x - 1) * m + (m - r);
      Decompose(-n, m, -x - 1, m - r);
    }
  }

  /** The arithmetic of `IdRoundTrip`, over the three dimensions alone. */
  lemma IdDecomposition(id: int, d0: int, d1: int, d2: int)
    requires d0 > 0 && d1 > 0 && d2 > 0 && 0 <= id < d0 * d1 * d2
    ensures 0 <= CDiv(id, d2 * d1) < d0
    ensures 0 <= CMod(CDiv(id, d2), d1) < d1
    ensures 0 <= CMod(id, d2) < d2
    ensures CMod(id, d2) + d2 * (CMod(CDiv(id, d2), d1) + d1 * CDiv(id, d2 * d1)) == id
  {
    var x, y, z := (id / d2) / d1, (id / d2) % d1, id % d2;
    CoordinatesOfId(id, d1, d2);
    assert z + d2 * (y + d1 * x) == id by { Recompose(id, d1, d2); }
    assert 0 <= x < d0 by { XBelow(id, d0, d1, d2); }
  }

  /** With truncating division on a non-negative id, gX, gY and gZ are the
      Euclidean quotients and remainders. */
  lemma CoordinatesOfId(id: int, d1: int, d2: int)
    requires id >= 0 && d1 > 0 && d2 > 0
    ensures CMod(id, d2) == id % d2
    ensures CMod(CDiv(id, d2), d1) == (id / d2) % d1
    ensures CDiv(id, d2 * d1) == (id / d2) / d1
  {
    CDivModNonNegative(id, d2);
    QuotientNonNegative(id, d2);
    CDivModNonNegative(id / d2, d1);
    CDivModNonNegative(id, d2 * d1);
    NestedDivision(id, d1, d2);
  }

  /** An id among the d0 * d1 * d2 cells has an x coordinate below d0. */
  lemma XBelow(id: int, d0: int, d1: int, d2: int)
    requires d1 > 0 && d2 > 0 && 0 <= id < d0 * d1 * d2
    ensures 0 <= (id / d2) / d1 < d0
  {
    NestedDivision(id, d1, d2);
    assert d0 * (d2 * d1) == d0 * d1 * d2;
    QuotientBelow(id, d2 * d1, d0);
  }

  lemma QuotientNonNegative(n: int, d: int)
    requires n >= 0 && d > 0
    ensures n / d >= 0
  {
  }

  /** Dividing by d2 and then by d1 is dividing by their product. */
  lemma NestedDivision(n: int, d1: int, d2: int)
    requires n >= 0 && d1 > 0 && d2 > 0
    ensures n / (d2 * d1) == (n / d2) / d1
  {
    var row, z := n / d2, n % d2;
    var x, y := row / d1, row % d1;
    assert n == row * d2 + z && row == x * d1 + y;
    assert n == x * (d2 * d1) + (z + d2 * y) by {
      calc {
        n;
        row * d2 + z;
        (x * d1 + y) * d2 + z;
        { Distribute(x * d1, y, d2); }
        x * d1 * d2 + y * d2 + z;
        { assert x * d1 * d2 == x * (d2 * d1); }
        x * (d2 * d1) + (z + d2 * y);
      }
    }
    InnerBound(y, z, d1, d2);
    Decompose(n, d2 * d1, x, z + d2 * y);
  }

  /** Remainder by d2, then quotient by d2 split by d1, put back together in
      the order of `gA`, give back n. */
  lemma Recompose(n: int, d1: int, d2: int)
    requires d1 > 0 && d2 > 0
    ensures n == n % d2 + d2 * ((n / d2) % d1 + d1 * ((n / d2) / d1))
  {
    var row := n / d2;
    assert n == d2 * row + n % d2;
    assert row == d1 * (row / d1) + row % d1;
  }

  /** An n below d0 * m has a quotient by m below d0. */
  lemma QuotientBelow(n: int, m: int, d0: int)
    requires m > 0 && 0 <= n < d0 * m
    ensures 0 <= n / m < d0
  {
    var x := n / m;
    assert n == x * m + n % m && 0 <= n % m < m;
    MultipleMagnitude(d0 - x, m);
    assert (d0 - x) * m == d0 * m - x * m;
  }

  /** The offset of (y, z) inside one x-slab is smaller than the slab. */
  lemma InnerBound(y: int, z: int, d1: int, d2: int)
    requires 0 <= y < d1 && 0 <= z < d2
    ensures 0 <= z + d2 * y < d2 * d1
  {
    NonNegativeProduct(d2, y);
    NonNegativeProduct(d2, d1 - 1 - y);
    assert d2 * (d1 - 1 - y) == d2 * d1 - d2 - d2 * y;
  }
}
