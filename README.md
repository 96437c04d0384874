# Normal integration: assembly of the sparse systems

This project models how two normal-integration methods build their sparse linear systems. Both methods take a boolean mask of active pixels and a normal vector per pixel.

- **Orthographic discrete functional.** Each active pixel is numbered in row-major order (inactive cells hold the sentinel 0). Each pixel is classified per axis by its two 4-neighbours on that axis. `generate_dx_dy_wb` emits two finite-difference operators `D_vertical` and `D_horizontal`, each num_depth × num_depth, as COO triplet lists divided by the step size. The constructor stacks them into `A = vstack(D_vertical, D_horizontal)` against `b = concat(p, q)` with `p = -nx/nz` and `q = -ny/nz`. It then scatters the least-squares solution z into a NaN-filled depth map.
- **Perspective five-point plane fitting.** Active pixels get 1-based indices. The mask and the index array are padded by one cell. Reading the padded index through the four moved masks gives each pixel's top, bottom, left and right neighbour. After dropping zeros and shifting to 0-based, each active pixel p has a list N(p): itself, then its active neighbours in that order. Every q in N(p) gives one plane-equation row `n(p) · p̃(q) z(q) + d(p)`, where `p̃(q) = K⁻¹ (H-1-i, j, 1)` is the camera ray of q. The rows are assembled as `A = [A_left | A_right]`. The depth map and the vertices are read off the eigenvector x.

Modules:

- `Lists`: sums and concatenations.
- `Sparse`: the COO constructor with and without a shape, division by a scalar, `vstack`/`hstack`, and the product with a vector with duplicates summed.
- `Grid`: flat row-major masks, boolean-mask selection, the index map, and the masked scatter into a 2-D array.
- `Vectors`: 3-vectors and a 3×3 matrix.
- `Orthographic`, `OrthographicRows`, `OrthographicFunctional`: the orthographic method.
- `Perspective`, `PlaneRows`, `PerspectiveSystem`: the perspective method.

Terms used below:

- **Axis orientation.** The horizontal axis differences toward column j+1 and the vertical axis toward row i-1, as in the source.
- **Fwd/Bwd.** "Ahead" (Fwd) is the neighbour in the orientation direction and "behind" (Bwd) is the other one.
- **The reference `Difference`.** A per-pixel stencil written independently of the triplet lists:
  - central, `(z[ahead] - z[behind]) / 2`, where both neighbours are active;
  - one-sided toward the only active neighbour;
  - 0 for a pixel with no active neighbour on the axis.
- **`EdgeDropped(axis)`.** Some active pixel on the grid edge lacks its inward neighbour on that axis.

Two behaviours of the code shape the model:

- **Stacking order.** The code stacks the first operator returned by `generate_dx_dy_wb`, `D_vertical`, over `D_horizontal` (lines 98-99 of the orthographic file), while `b = concat(p, q)` (line 97). So `p` pairs with the vertical differences and `q` with the horizontal ones. That is what `StackedRow` and `RightHandSideAt` state.
- **Pixels with no neighbour on an axis.** Such a pixel gets an all-zero row only when it is not on the grid edge. An edge pixel without its inward neighbour loses its column entry when its class mask is shifted (lines 26-27 and 53-54). The column list then comes out shorter than the row list, and the COO constructor refuses the lists. The model makes this the error result of `DiffOperator` (see `DiffOperatorFails`).

## Model

| member | source | states |
|---|---|---|
| Grid.IndexBijection | methods/orthographic_discrete_functional.py:10-12 | the index map numbers the active pixels 0 .. num_depth-1 bijectively in row-major order; every inactive cell holds 0, the index of the first active pixel |
| Grid.IndexInjective | methods/orthographic_discrete_functional.py:10-11 | two different active pixels never share an index |
| Grid.BeforeIsPosition | methods/orthographic_discrete_functional.py:10-11 | the active pixel (i, j) is entry Before(i, j) of the row-major list of active pixels, and the index map holds that number at (i, j) |
| OrthographicFunctional.BuildDepthIndex | methods/orthographic_discrete_functional.py:10-11 | the in-place fill of the zero array leaves the row-major rank at every active pixel and 0 elsewhere |
| Grid.FillMasked | methods/orthographic_discrete_functional.py:112 | boolean-mask assignment writes vals[k] into the k-th active cell in row-major order and leaves every other cell unchanged |
| Grid.ScatterDepth | methods/orthographic_discrete_functional.py:111-112 | the depth map has the mask's shape, holds z[k] at the k-th active pixel and NaN at every inactive cell |
| Orthographic.Classification | methods/orthographic_discrete_functional.py:14-21 | per axis, a pixel is "only left"/"only bottom" iff it is active and lacks the neighbour ahead, and "only right"/"only top" iff it is active and lacks the neighbour behind; it is "both" iff both are active; the one-sided classes overlap exactly on pixels with no active neighbour on the axis, and "both" excludes them (lines 46-48 are the vertical instance) |
| Orthographic.ShiftCounts | methods/orthographic_discrete_functional.py:23-27 | shifting the "both" mask loses no pixel; shifting a one-sided mask never adds one, and loses none iff every pixel of the class has a cell on the side the shift reads from |
| Orthographic.BlockIndices | methods/orthographic_discrete_functional.py:29-41 | each of the seven index selections (three classes, four shifted classes) yields indices in 0 .. num_depth-1 |
| Orthographic.ListsInShape | methods/orthographic_discrete_functional.py:29-41 | every entry of the row and column lists lies inside the num_depth × num_depth shape |
| Orthographic.ListLengths | methods/orthographic_discrete_functional.py:29-43 | the column and value lists always have equal length; the row list is never shorter, equals them iff no edge pixel is dropped, and has two entries per class membership |
| Orthographic.DiffOperatorFails | methods/orthographic_discrete_functional.py:29-44 | the operator fails to build iff an edge pixel is dropped on that axis; when built it is well formed and num_depth × num_depth, built from two triplets per class membership (see "## Left out" for the integer-valued case) |
| OrthographicRows.RowTriplets | methods/orthographic_discrete_functional.py:29-43 | with no dropped edge pixel the three lists have equal length and zip into the six blocks of triplets in the source's order |
| OrthographicRows.ShiftedColumn | methods/orthographic_discrete_functional.py:36-38 | reading the index map through a shifted class mask gives, at the pixel's position in the class, the index of its neighbour on the other side |
| OrthographicRows.UndividedRow | methods/orthographic_discrete_functional.py:29-43 | before the division, the summed row of every active pixel applied to any z is the reference difference at that pixel |
| OrthographicRows.OperatorRow | methods/orthographic_discrete_functional.py:29-44 | the row of every active pixel of the built operator, applied to any z, is the reference difference divided by the step size |
| OrthographicRows.RowEntry | methods/orthographic_discrete_functional.py:42-44 | the dense entry at (pixel, column c) is the reference difference of the c-th unit vector over the step |
| OrthographicRows.CentralRow | methods/orthographic_discrete_functional.py:31-43 | a "both" pixel's row holds -0.5/step at the neighbour behind and +0.5/step at the neighbour ahead (two distinct columns), and 0 elsewhere |
| OrthographicRows.BehindRow | methods/orthographic_discrete_functional.py:29-43 | an "only left"/"only bottom" pixel with its neighbour behind active has +1/step at itself and -1/step at that neighbour (distinct columns), and 0 elsewhere |
| OrthographicRows.AheadRow | methods/orthographic_discrete_functional.py:30-43 | an "only right"/"only top" pixel with its neighbour ahead active has +1/step at that neighbour and -1/step at itself (distinct columns), and 0 elsewhere |
| OrthographicRows.IsolatedRow | methods/orthographic_discrete_functional.py:20-43 | a pixel with no active neighbour on the axis is in both one-sided classes and its row is all zero once duplicates (the sentinel column 0 and itself) are summed |
| OrthographicRows.ConstantDifference | methods/orthographic_discrete_functional.py:42-43 | the reference difference of a constant depth vector is 0 at every active pixel |
| OrthographicRows.ConstantRow | methods/orthographic_discrete_functional.py:42-44 | every row of a built operator maps a constant depth vector to 0 |
| OrthographicRows.RowSumZero | methods/orthographic_discrete_functional.py:42-44 | every row of a built operator sums to zero after duplicates are summed |
| OrthographicRows.NeighbourIndex | methods/orthographic_discrete_functional.py:36-41 | the column read for a neighbour is that neighbour's index when the cell exists and always lies in 0 .. num_depth-1 |
| OrthographicFunctional.GenerateDxDyFails | methods/orthographic_discrete_functional.py:9-75 | `generate_dx_dy_wb` succeeds iff neither axis drops an edge pixel, and returns (D_vertical, D_horizontal) in that order |
| OrthographicFunctional.StackedShape | methods/orthographic_discrete_functional.py:98-99 | A is built iff neither axis drops an edge pixel, and is then a well-formed 2·num_depth × num_depth matrix |
| OrthographicFunctional.StackedParts | methods/orthographic_discrete_functional.py:98-99 | a built A is the vertical operator stacked over the horizontal one, each num_depth × num_depth |
| OrthographicFunctional.StackedRow | methods/orthographic_discrete_functional.py:97-99 | for the t-th active pixel and any z, row t of A z is the vertical difference there over the step and row num_depth + t the horizontal one |
| OrthographicFunctional.StackedConstant | methods/orthographic_discrete_functional.py:99 | every row of A maps a constant depth vector to 0 |
| OrthographicFunctional.StackedShiftInvariant | methods/orthographic_discrete_functional.py:99-102 | adding one constant to every depth leaves every row of A z unchanged, so the least-squares depth is determined at most up to a global offset |
| OrthographicFunctional.RightHandSideAt | methods/orthographic_discrete_functional.py:94-97 | b has p = -nx/nz of the t-th active pixel at t and q = -ny/nz at num_depth + t |
| OrthographicFunctional.SystemShape | methods/orthographic_discrete_functional.py:94-99 | the system is built iff A is, and then A has 2·num_depth rows, as many as b has entries, and num_depth columns |
| OrthographicFunctional.OrthographicDiscreteFunctional.constructor | methods/orthographic_discrete_functional.py:91-112 | on a mask where both operators are built, the object holds the stacked system, and a fresh depth map of the mask's shape with z[k] at the k-th active pixel and NaN elsewhere |
| Sparse.CooMatrix | methods/orthographic_discrete_functional.py:44 | the shaped COO constructor succeeds iff the three lists have equal length and every index is inside the shape; it then keeps triplet j as (rows[j], cols[j], vals[j]) |
| Sparse.Divide | methods/orthographic_discrete_functional.py:44 | dividing by the step keeps the shape and positions and divides every stored value (for float-valued data; see "## Left out" for integer-valued lists) |
| Sparse.MatVecDivide | methods/orthographic_discrete_functional.py:44 | dividing the matrix by s divides every row of its product with any vector by s |
| Sparse.VStack | methods/orthographic_discrete_functional.py:99 | vertical stacking succeeds iff the column counts agree; the row counts add up |
| Sparse.MatVecVStack | methods/orthographic_discrete_functional.py:99 | row r of the stacked product with z is row r of the top block when r is below the top's height, and row r - height of the bottom block otherwise |
| Perspective.PixelIndexAt | methods/perspective_five_point_plane_fitting.py:38-39 | `pixel_idx` holds the 0-based index map plus 1 at active cells and 0 elsewhere |
| Perspective.PixelIndexNumbering | methods/perspective_five_point_plane_fitting.py:38-39 | active pixels get 1 .. num_normals in row-major order, one each, and every inactive cell holds 0, which no active pixel holds |
| Perspective.BuildPixelIndex | methods/perspective_five_point_plane_fitting.py:38-39 | the in-place fill of the zero array yields exactly the 1-based pixel index |
| Perspective.PadCount | methods/perspective_five_point_plane_fitting.py:41 | padding with a false border adds no active cell |
| Perspective.PadPosition | methods/perspective_five_point_plane_fitting.py:41 | the t-th active cell of the padded mask is the t-th active pixel moved to (i + 1, j + 1) |
| Perspective.MovedSelection | methods/perspective_five_point_plane_fitting.py:44-47 | selecting through a moved mask reads, for the t-th true cell, the value one step away in the move's reading direction |
| Perspective.NeighbourReadLength | methods/perspective_five_point_plane_fitting.py:44-47 | each of the four neighbour reads has one entry per active pixel |
| Perspective.NeighbourReadAt | methods/perspective_five_point_plane_fitting.py:44-47 | the read toward d holds, for the active pixel (i, j), the 1-based index of the cell one step toward d, or 0 if that cell is inactive or outside the grid |
| Perspective.SelfIdAt | methods/perspective_five_point_plane_fitting.py:49 | `pixel_idx[mask]` holds t + 1 for the t-th active pixel |
| Perspective.TableRow | methods/perspective_five_point_plane_fitting.py:44-53 | the table row of the active pixel (i, j) is its 1-based index and then the 1-based indices (or 0) at (i-1, j), (i+1, j), (i, j-1), (i, j+1) |
| Perspective.KeptId | methods/perspective_five_point_plane_fitting.py:55 | a compacted index entry is the 0-based index of the cell if it is an active pixel and nothing otherwise |
| Perspective.NeighbourList | methods/perspective_five_point_plane_fitting.py:44-55 | the list of the active pixel (i, j) is its own 0-based index followed by those of its active top, bottom, left and right neighbours, in that order |
| Perspective.NeighbourListBounds | methods/perspective_five_point_plane_fitting.py:55 | every list starts with the pixel itself, has 1 to 5 entries and names only indices in 0 .. num_normals-1 |
| PerspectiveSystem.NeighbourListsOwned | methods/perspective_five_point_plane_fitting.py:49-61 | there is one neighbour list per active pixel, each starting with its owner and naming only active pixels |
| PlaneRows.OwnedCount | methods/perspective_five_point_plane_fitting.py:59-61 | num_plane_equations, the sum of the list lengths, is at least num_normals and is 0 iff there is no active pixel |
| PlaneRows.EntryOwner | methods/perspective_five_point_plane_fitting.py:72-83 | entry a of list p sits at row (lengths of the lists before p) + a of `col_idx`, and `A_right_col` labels that row with p |
| PlaneRows.LocateEntry | methods/perspective_five_point_plane_fitting.py:72-83 | every row of `col_idx` is entry a of some list p, and `A_right_col` labels it with p |
| PlaneRows.OwnerBlock | methods/perspective_five_point_plane_fitting.py:82-83 | pixel p owns exactly the consecutive run of rows starting after the earlier lists, one per entry of its list, so column p of A_right holds exactly one 1 per entry of N(p) |
| PlaneRows.OwnersSorted | methods/perspective_five_point_plane_fitting.py:82-83 | the owner labels never decrease along the rows and stay below num_normals |
| PlaneRows.OwnedEntries | methods/perspective_five_point_plane_fitting.py:72-83 | every column index and every owner label lies in 0 .. num_normals-1 |
| PlaneRows.OwnedLast | methods/perspective_five_point_plane_fitting.py:72-84 | the largest column index and the largest owner label are both num_normals - 1, because the last pixel lists itself |
| PlaneRows.CoefficientAt | methods/perspective_five_point_plane_fitting.py:75-78 | the coefficient of row r is the owner's normal dotted with the ray of the row's column pixel |
| Sparse.CooInferred | methods/perspective_five_point_plane_fitting.py:79 | the COO constructor without a shape infers one more than the largest row and column index and fails on empty lists |
| PlaneRows.InferredRows | methods/perspective_five_point_plane_fitting.py:73-84 | with rows 0 .. m-1 and columns reaching n-1, the shapeless constructor fails iff the lists are empty and otherwise builds an m × n matrix with one entry per row |
| PlaneRows.LeftShape | methods/perspective_five_point_plane_fitting.py:72-79 | A_left is built iff some pixel is active; it is then num_plane_equations × num_normals and row r holds exactly one entry, n(owner) · p̃(col_idx[r]) at column col_idx[r] |
| PlaneRows.RightShape | methods/perspective_five_point_plane_fitting.py:81-84 | A_right is built iff some pixel is active; it is then num_plane_equations × num_normals and row r holds exactly one entry, 1 at its owner's column |
| Sparse.HStack | methods/perspective_five_point_plane_fitting.py:86 | horizontal stacking succeeds iff the row counts agree; the column counts add up |
| PlaneRows.MatrixShape | methods/perspective_five_point_plane_fitting.py:86 | A is built iff some pixel is active; it then has num_plane_equations rows and 2·num_normals columns, with A_right's entries shifted past A_left's |
| PlaneRows.RowTriplets | methods/perspective_five_point_plane_fitting.py:72-86 | row r of A consists of A_left's triplet n(p)·p̃(q) at column q and A_right's 1 at column num_normals + p, for the row's owner p and column q |
| PlaneRows.PlaneRow | methods/perspective_five_point_plane_fitting.py:72-86 | for any unknowns y = (z, d), row r of A y is n(p) · (p̃(q) z(q)) + d(p), the plane equation of p's tangent plane at q's point |
| PerspectiveSystem.FittingInputs | methods/perspective_five_point_plane_fitting.py:55-86 | the method's matrix is the plane-row matrix of owned lists with one normal and one ray per active pixel, so PlaneRow describes each of its rows |
| PerspectiveSystem.FittingMatrixShape | methods/perspective_five_point_plane_fitting.py:59-86 | A is built iff some pixel is active; num_plane_equations is at least num_normals, and A is num_plane_equations × 2·num_normals |
| PerspectiveSystem.RayAt | methods/perspective_five_point_plane_fitting.py:26-70 | the ray of the active pixel (i, j) is K⁻¹ (H-1-i, j, 1), with the row coordinate flipped |
| PerspectiveSystem.NormalAt | methods/perspective_five_point_plane_fitting.py:75 | the normal used for the active pixel (i, j) is the normal given at (i, j) |
| PerspectiveSystem.VertexAt | methods/perspective_five_point_plane_fitting.py:100 | the vertex of the active pixel (i, j) is its ray K⁻¹ (H-1-i, j, 1) scaled by its depth x[k] |
| PerspectiveSystem.PerspectiveFivePointPlaneFitting.constructor | methods/perspective_five_point_plane_fitting.py:22-100 | on a mask with at least one active pixel, the object holds the built plane-fitting matrix, a fresh depth map with x[k] at the k-th active pixel and NaN elsewhere, and the vertices |

## Left out

- The least-squares solve `lsqr` (orthographic, line 102) and the shift-invert eigen-solve `eigsh` (perspective, line 89) are iterative floating-point numerics. Their results z and x are constructor parameters. The model states only the system they are given.
- The inversion `np.linalg.inv(K)` is not modelled; K⁻¹ is an input matrix.
- Floating point in general is not modelled. Slopes, coefficients and depths are real numbers, so rounding, infinities and NaN arithmetic are not modelled. NaN appears only as the marker of an unset depth-map cell.
- OrthographicFunctional.OrthographicDiscreteFunctional.constructor: requires nz ≠ 0 at every active pixel (`Frontal`) and a non-zero step size. The code divides regardless and would produce infinities or NaN, which reals cannot represent.
- Orthographic.GenerateDxDy: requires a non-zero step size, for the same reason.
- OrthographicFunctional.OrthographicDiscreteFunctional.constructor: also requires the system to be built. On a mask where an axis drops an edge pixel the method raises inside `generate_dx_dy_wb` (line 98), before the solve, so no object and no depth map exist; `StackedShape` states when that happens.
- PerspectiveSystem.PerspectiveFivePointPlaneFitting.constructor: requires at least one active pixel. On an all-false mask the method raises at line 72, where `np.concatenate` gets an empty list of neighbour lists, before any matrix is built or solved; `FittingMatrixShape` states that the matrix exists exactly when some pixel is active (the model reports the empty case as the failure of the shapeless COO constructor, one step later than the source).
- The moves `move_top`, `move_bottom`, `move_left` and `move_right` come from a helper module whose code is not part of this model. `Perspective.Moved` models their evident effect: the mask moves one cell in the named direction, and cells entering from outside read false. `move_top` moves toward row i-1, so each cell reads the cell below it.
- The helpers `construct_facets_from_depth_map_mask` and `construct_vertices_from_depth_map_and_mask`, and the `pyvista` surface built from them, are not part of this model. This covers the orthographic mesh (lines 115-117) and the perspective facets and surface (lines 101-102). The perspective vertices (line 100) are modelled.
- The timing fields `solver_runtime` and `total_runtime`, and the method name string, are not modelled.
- The orthographic residual `A @ z - b` (line 109) is floating-point diagnostics and is not modelled.
- The commented-out KDTree neighbour search is not modelled.
- The NumPy integer dtype of the index arrays is unbounded `int` here. Overflow cannot occur for any mask that fits in memory.
- The `u_tilde` channels (perspective, lines 64-67) are filled in place in the source. Here they are the value `PixelCoordinates`, since only the selected columns `u_tilde[mask]` feed the rays.
- Sparse matrices are observed through their products with a vector and their dense entries. Their triplets are also modelled, but with one exception, given in the next two lines. The conversion to other sparse formats inside `vstack`/`hstack` is not modelled.
- Sparse.Divide: keeps the triplets one for one and in order. Dividing a COO matrix whose values are integers first casts it to floating point. That cast sums duplicate coordinates and sorts the triplets. The data lists hold only integers exactly when an axis has no pixel with both neighbours, because there are no ±0.5 values then. For such an operator, only the dense entries and the products with a vector (`MatVecDivide`, `OperatorRow`, `RowEntry`) describe the library's matrix; its stored triplets need not match.
- Orthographic.DiffOperatorFails: its count of two triplets per class membership describes the lists passed to the COO constructor. When the data lists hold only integers, the division merges duplicate coordinates, so the stored matrix can hold fewer triplets. The failure condition and the shape are unaffected.
- PerspectiveSystem.FittingInputs: the mask-level row equation is stated in two steps. `FittingInputs` shows that the method's matrix is an instance of `PlaneRows.PlaneMatrix`. `PlaneRows.PlaneRow` gives each row of that matrix. No single lemma states it over the mask.
