# Differentiable Marching Cubes engine: value types and grid indexing

This project models the parts of the CUDA Marching Cubes engine `cumc` whose
behaviour its header `submodules/dmc/src/cumc.h` defines in full, and proves
what they promise:

- `Vertex<T>`, the 3-component position. Its binary `+`, `-`, `*` (by vertex
  or by scalar) and `dot` are functions on the datatype `Vertices.Vertex`.
  Its compound assignments `+=`, `-=` and `*=` rewrite the fields of a stored
  vertex, so they are methods of the class `Vertices.VertexSlot`.
- `Feature<T>`, the 8-lane feature vector (`SIZE = 8`). It is the class
  `Features.Feature` over an array of 8 scalars. Every operator is a method
  with the same loop over the lanes as the engine: `+`, `-`, `*` and scalar
  `*` fill a fresh result, `dot` accumulates from 0, and `+=`, `-=`, `*=` and
  `atomicAddWapper` overwrite `data` in place.
- `CuMC`, the engine object (`MarchingCubes.CuMC`). The model covers its
  fields, its value-initialised state, `resize`, and the cell indexing
  `gA`/`gX`/`gY`/`gZ`. `gA` turns a cell coordinate into a linear id with z
  varying fastest; `gX`, `gY` and `gZ` recover the coordinates by C++ integer
  division and remainder.

The scalar type `T`/`Scalar` is `real`. `IndexType` is `int`. `size_t` is
`nat`. Every operator is specified by the componentwise operations on
sequences in `Componentwise`, and the algebra of those operations is proved
once. C++ `/` and `%` truncate toward zero, unlike Dafny's Euclidean ones, so
`CppInt` defines them separately. It proves the identities the C++ standard
gives them and shows that on non-negative operands they agree with Dafny's.

The main results:
- A coordinate inside the box maps to an id and back to the same coordinate.
- An id in `[0, dims[0]*dims[1]*dims[2])` maps to a coordinate inside the box
  and back to the same id.
- After `resize`, every in-box coordinate has an id in `[0, n_cells)`.
- Each operator of `Vertex` and `Feature` agrees lane by lane with its
  componentwise specification.
- Each compound assignment leaves the old value combined with the operand.
  For `+=` and `-=` this holds even when the operand is the object itself.
  A `*=` whose scalar reference is a lane of the object itself is modelled
  separately: the lanes after that one are scaled by its squared value.

Files: `componentwise.dfy`, `cpp_int.dfy`, `vertex.dfy`, `feature.dfy`,
`cumc.dfy`.

## Model

| member | source | states |
|---|---|---|
| `Componentwise.SubEachUndoesAddEach` | submodules/dmc/src/cumc.h:70-95 | lane-wise `-` undoes lane-wise `+`: (a + b) - b == a |
| `Componentwise.AddEachCommutes` | submodules/dmc/src/cumc.h:70-77 | lane-wise `+` does not depend on operand order |
| `Componentwise.ScaleEachDistributes` | submodules/dmc/src/cumc.h:106-113 | scaling by a scalar distributes over lane-wise `+` |
| `Componentwise.ScaleByOwnLaneScalesTwiceAfterJ` | submodules/dmc/src/cumc.h:131-137 | `f *= f.data[j]` (`ScaleByOwnLane`) scales lanes 0..j by the old `data[j]` and the lanes after j by it twice, since they see the squared lane j |
| `Componentwise.ScaleByOwnLaneOfZeroOrOne` | submodules/dmc/src/cumc.h:131-137 | when the referenced lane is 0 or 1, `f *= f.data[j]` is the same as scaling by its value |
| `Componentwise.ScaleByOwnLaneIsScaleEachOnlyIf` | submodules/dmc/src/cumc.h:131-137 | conversely, `f *= f.data[j]` equals scaling by the value of lane j only if that lane is 0 or 1 or every later lane is 0 |
| `Componentwise.ScaleByOwnLaneDiffersFromScaleEach` | submodules/dmc/src/cumc.h:131-137 | otherwise it is not: on [2, 1], `*=` by lane 0 through the reference gives [4, 4], scaling by the value 2 gives [4, 2] |
| `Componentwise.DotSumIsTotalOfProducts` | submodules/dmc/src/cumc.h:79-86 | the dot product accumulated from 0 equals the total of the lane-wise product `operator*` builds |
| `Componentwise.DotSumSymmetric` | submodules/dmc/src/cumc.h:79-86 | `a.dot(b) == b.dot(a)` |
| `Componentwise.DotSumAdditive` | submodules/dmc/src/cumc.h:79-86 | `(a + b).dot(c) == a.dot(c) + b.dot(c)` |
| `Componentwise.DotSumHomogeneous` | submodules/dmc/src/cumc.h:79-86 | `(a * s).dot(b) == s * a.dot(b)` |
| `Componentwise.DotSumSelfNonNegative` | submodules/dmc/src/cumc.h:79-86 | `a.dot(a) >= 0` |
| `CppInt.CDivModSpec` | submodules/dmc/src/cumc.h:193-204 | the `/` and `%` that gX/gY/gZ use (`CppInt.CDiv`, `CppInt.CMod`) satisfy (a/b)*b + a%b == a, the remainder is smaller than the divisor in magnitude, and it has the dividend's sign |
| `CppInt.CDivModNonNegative` | submodules/dmc/src/cumc.h:193-204 | on a non-negative id and positive dimensions the C++ quotient and remainder are the Euclidean ones |
| `CppInt.CDivOfNegativeDividend` | submodules/dmc/src/cumc.h:193-204 | for a negative id and a positive divisor that do not divide evenly, C++ `/` is the Euclidean quotient plus 1 and C++ `%` the Euclidean remainder minus the divisor |
| `CppInt.CDivTruncatesTowardZero` | submodules/dmc/src/cumc.h:193-204 | below zero the two differ: C++ gives -1/2 == 0 and -1%2 == -1 |
| `Vertices.AddIsComponentwise` | submodules/dmc/src/cumc.h:13-16 | `operator+` (`Vertices.Vertex.Add`) is the componentwise sum of x, y, z |
| `Vertices.DotIsDotSum` | submodules/dmc/src/cumc.h:17-20 | `dot` (`Vertices.Vertex.Dot`) is the sum of the componentwise products taken in x, y, z order, the same function `Feature::dot` is proved against |
| `Vertices.SubIsComponentwise` | submodules/dmc/src/cumc.h:22-25 | `operator-` (`Vertices.Vertex.Sub`) is the componentwise difference |
| `Vertices.MulIsComponentwise` | submodules/dmc/src/cumc.h:27-30 | `operator*` with a vertex (`Vertices.Vertex.Mul`) is the componentwise product |
| `Vertices.MulScalarIsComponentwise` | submodules/dmc/src/cumc.h:32-35 | `operator*` with a scalar (`Vertices.Vertex.MulScalar`) scales every component |
| `Vertices.SubUndoesAdd` | submodules/dmc/src/cumc.h:13-25 | (v + w) - w == v |
| `Vertices.DotBilinear` | submodules/dmc/src/cumc.h:17-20 | `dot` is symmetric, additive and homogeneous in its first operand |
| `Vertices.VertexSlot.AddAssign` | submodules/dmc/src/cumc.h:37-43 | `+=` leaves the stored vertex equal to old value + operand and returns the object itself |
| `Vertices.VertexSlot.SubAssign` | submodules/dmc/src/cumc.h:45-51 | `-=` leaves old value - operand and returns the object itself |
| `Vertices.VertexSlot.MulScalarAssign` | submodules/dmc/src/cumc.h:53-59 | `*=` with a scalar held outside the vertex leaves old value * scalar and returns the object itself |
| `Vertices.VertexSlot.MulOwnComponentAssign` | submodules/dmc/src/cumc.h:53-59 | `*=` whose scalar reference is component k of the same vertex (`v *= v.x`) leaves `ScaleByOwnLane` of the old x, y, z: the components up to k times the old component k, later ones times its square |
| `Features.AtomicAdd` | submodules/dmc/src/cumc.h:142 | sequential effect of `atomicAdd`: one element gains the value, the rest are unchanged, and the previous value is returned |
| `Features.Feature.constructor` | submodules/dmc/src/cumc.h:63-68 | a feature owns a fresh array of `SIZE` = 8 lanes, with no promise about its contents |
| `Features.Feature.Add` | submodules/dmc/src/cumc.h:70-77 | `operator+` returns a fresh feature whose lanes are the lane-wise sums; the operands are not modified |
| `Features.Feature.Dot` | submodules/dmc/src/cumc.h:79-86 | `dot` returns the sum of `data[i] * other.data[i]` over the 8 lanes, accumulated from 0 in lane order |
| `Features.Feature.Sub` | submodules/dmc/src/cumc.h:88-95 | `operator-` returns a fresh feature of lane-wise differences |
| `Features.Feature.Mul` | submodules/dmc/src/cumc.h:97-104 | `operator*` with a feature returns a fresh feature of lane-wise products |
| `Features.Feature.MulScalar` | submodules/dmc/src/cumc.h:106-113 | `operator*` with a scalar returns a fresh feature with every lane scaled |
| `Features.Feature.AddAssign` | submodules/dmc/src/cumc.h:115-121 | `+=` leaves `data` equal to the lane-wise sum of the old `data` and the old operand, also when the operand is the object itself; an operand with its own storage is unchanged; only `data` changes; returns the object |
| `Features.Feature.SubAssign` | submodules/dmc/src/cumc.h:123-129 | `-=` leaves the lane-wise difference of the old values, also when the operand is the object itself; an operand with its own storage is unchanged; returns the object |
| `Features.Feature.MulScalarAssign` | submodules/dmc/src/cumc.h:131-137 | `*=` with a scalar held outside the feature leaves every old lane scaled by it; only `data` changes; returns the object |
| `Features.Feature.MulOwnLaneAssign` | submodules/dmc/src/cumc.h:131-137 | `*=` whose scalar reference is lane j of the same feature (`f *= f.data[j]`) leaves `ScaleByOwnLane` of the old lanes: lanes up to j times the old lane j, later lanes times its square |
| `Features.Feature.AtomicAddWapper` | submodules/dmc/src/cumc.h:139-144 | run by one thread, `atomicAddWapper` leaves `data` equal to the lane-wise sum of the old `data` and the operand, the same effect as `+=`; an operand with its own storage is unchanged |
| `MarchingCubes.CuMC.constructor` | submodules/dmc/src/cumc.h:159-186 | a new engine has zero dimensions, zero cells and counts, zero allocation sizes and null buffers |
| `MarchingCubes.CuMC.Resize` | submodules/dmc/src/cumc.h:206-212 | `resize(x, y, z)` sets `dims == [x, y, z]` and `n_cells == x*y*z` and leaves every count, allocation size and buffer pointer unchanged |
| `MarchingCubes.CuMC.CoordRoundTrip` | submodules/dmc/src/cumc.h:188-204 | for x >= 0, 0 <= y < dims[1] and 0 <= z < dims[2]: gX, gY and gZ (`MarchingCubes.CuMC.GX`, `GY`, `GZ`) of gA(x, y, z) (`MarchingCubes.CuMC.GA`) are x, y and z |
| `MarchingCubes.CuMC.IdRoundTrip` | submodules/dmc/src/cumc.h:188-204 | for 0 <= id < dims[0]*dims[1]*dims[2]: `GX`, `GY` and `GZ` of id lie within their axis bounds and `GA` of them is id |
| `MarchingCubes.CuMC.NegativeXLeavesTheBox` | submodules/dmc/src/cumc.h:188-196 | for x < 0 and (y, z) in the slab, `GA(x, y, z)` is negative and truncating division makes `GX` of it x only at (y, z) == (0, 0) and x + 1 elsewhere, so the round trip fails |
| `MarchingCubes.CuMC.GAInjective` | submodules/dmc/src/cumc.h:188-192 | two in-box coordinates with the same id are the same coordinate |
| `MarchingCubes.CuMC.GAWithinCells` | submodules/dmc/src/cumc.h:188-212 | after `resize`, every in-box coordinate has an id in [0, n_cells) |

## Left out

- `forward`, `backward` and the six `ensure_*_storage_size` methods: the header only declares them. Their bodies, the classification, compaction, generation and adjoint kernels, and the Marching Cubes case tables are not part of this model.
- `Triangle<T>`: a plain triple of indices `i`, `j`, `k` whose only member function is `data_ptr`. It has no behaviour to prove.
- `data_ptr` of `Vertex` and `Feature`: it exposes the fields through a raw pointer. `Vertex.AsSeq` gives the same x, y, z view of a vertex as values. Pointer aliasing through it is not modelled.
- `Features.Feature.AtomicAddWapper`: models only the sequential effect. Atomicity and the interleaving of concurrent `atomicAdd` calls from many threads are not modelled.
- Floating point: scalars are `real`. Rounding, NaN, and the dependence of `dot` on summation order are not modelled. `DotSum` still adds in the loop's order.
- `IndexType` overflow: indices are unbounded integers. `x*y*z` in `resize`, the two products `dims[1] * x` and `dims[2] * (...)` and the two sums `y + dims[1] * x` and `z + dims[2] * (...)` in `gA`, and `dims[2] * dims[1]` in `gX` agree with the engine only while they fit in `IndexType`.
- `MarchingCubes.CuMC.Resize`: the engine writes `dims` and `n_cells` with no precondition, and so does the model. Negative or zero dimensions are accepted. The index lemmas require positive dimensions, which callers must supply.
- CUDA runtime, device selection and `__restrict__`: the buffer pointers are kept as nullable arrays only so that `Resize` can be shown not to change them. Nothing allocates or fills them.
- `Vertices.VertexSlot.AddAssign`, `Vertices.VertexSlot.SubAssign`: the operand is taken by value, where the engine takes a reference. A vertex cannot partly overlap another, and `v += v` and `v -= v` give `2v` and `0` either way, because each component is read before it is written.
- `Vertices.VertexSlot.MulScalarAssign`: holds only for a scalar outside the vertex. A scalar reference to one of the vertex's own components is `Vertices.VertexSlot.MulOwnComponentAssign`.
- `Features.Feature.MulScalarAssign`: holds only for a scalar outside the feature. A scalar reference to one of the feature's own lanes is `Features.Feature.MulOwnLaneAssign`.
- Buffer growth, failure reporting and the order of the stages belong to the bodies of `forward`, `backward` and `ensure_*_storage_size`, which the header does not define. They are not modelled.
