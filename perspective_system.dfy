/**
 * The plane-equation matrix of the perspective five-point plane fitting.
 * Each active pixel p has a list N(p) of pixels (itself and its active
 * 4-neighbours); each q in N(p) contributes one equation row
 *
 *     n(p) · p̃(q) z(q) + d(p)
 *
 * over the unknowns (z, d) of length 2 · num_normals: the depth z(q) of
 * the point on q's camera ray p̃(q) = K⁻¹ (H-1-i, j, 1) and the offset
 * d(p) of p's tangent plane. The rows are assembled, as in the source, as
 * A = [A_left | A_right], with A_left holding n(p) · p̃(q) at column q and
 * A_right a 1 at column p.
 *
 * The eigen-solve that picks the solution x, the inversion of K and the
 * mesh construction are not part of this model: x and K⁻¹ are inputs.
 */
module PerspectiveSystem {
  import opened Grid
  import opened Sparse
  import opened Vectors
  import opened Lists
  import opened Perspective
  import opened PlaneRows

  /** num_normals. */
  function NumNormals(mask: seq<seq<bool>>): nat
    requires Rectangular(mask, Width(mask))
  {
    Count(Flatten(mask, Width(mask)))
  }

  /** The neighbour lists are owned lists over the active pixels. */
  lemma {:induction false} NeighbourListsOwned(mask: seq<seq<bool>>)
    requires Rectangular(mask, Width(mask))
    ensures |NeighbourIds(mask)| == NumNormals(mask) && Owned(NeighbourIds(mask))
  {
    forall p | 0 <= p < |NeighbourIds(mask)|
      ensures |NeighbourIds(mask)[p]| >= 1 && NeighbourIds(mask)[p][0] == p
      ensures AllIn(NeighbourIds(mask)[p], 0, |NeighbourIds(mask)|)
    {
      NeighbourListBounds(mask, p);
    }
  }

  /** `num_plane_equations`: one equation per entry of every list. */
  function NumPlaneEquations(mask: seq<seq<bool>>): nat
    requires Rectangular(mask, Width(mask))
  {
    |Concat(NeighbourIds(mask))|
  }

  /** `u_tilde`: the homogeneous pixel coordinates (H-1-i, j, 1), the row coordinate flipped. */
  function PixelCoordinates(h: nat, w: nat): (u: seq<seq<Vec3>>)
    ensures |u| == h && Rectangular(u, w)
  {
    seq(h, i requires 0 <= i < h => seq(w, j requires 0 <= j < w => Vec3((h - 1 - i) as real, j as real, 1.0)))
  }

  /** `p_tilde`: K⁻¹ applied to the coordinates of each active pixel, in row-major order. */
  function Rays(mask: seq<seq<bool>>, kinv: Mat3): (rays: seq<Vec3>)
    requires Rectangular(mask, Width(mask))
    ensures |rays| == NumNormals(mask)
  {
    var u := Select(Flatten(PixelCoordinates(|mask|, Width(mask)), Width(mask)), Flatten(mask, Width(mask)));
    seq(|u|, t requires 0 <= t < |u| => Apply(kinv, u[t]))
  }

  /** The normals are given per pixel, in the shape of the mask. */
  predicate NormalField(mask: seq<seq<bool>>, normals: seq<seq<Vec3>>)
  {
    Rectangular(mask, Width(mask)) && |normals| == |mask| && Rectangular(normals, Width(mask))
  }

  /** `data.n[data.mask]`: the normal of each active pixel, in row-major order. */
  function ActiveNormals(mask: seq<seq<bool>>, normals: seq<seq<Vec3>>): (ns: seq<Vec3>)
    requires NormalField(mask, normals)
    ensures |ns| == NumNormals(mask)
  {
    Select(Flatten(normals, Width(mask)), Flatten(mask, Width(mask)))
  }

  /** The matrix of the method: the plane rows over the neighbour lists, normals and rays of the mask. */
  function PlaneFittingMatrix(mask: seq<seq<bool>>, normals: seq<seq<Vec3>>, kinv: Mat3): Result<Coo>
    requires NormalField(mask, normals)
  {
    NeighbourListsOwned(mask);
    PlaneMatrix(NeighbourIds(mask), ActiveNormals(mask, normals), Rays(mask, kinv))
  }

  /**
   * A is built exactly when some pixel is active; it then has
   * num_plane_equations rows, at least one per active pixel, and
   * 2 · num_normals columns.
   */
  lemma {:induction false} FittingMatrixShape(mask: seq<seq<bool>>, normals: seq<seq<Vec3>>, kinv: Mat3)
    requires NormalField(mask, normals)
    ensures PlaneFittingMatrix(mask, normals, kinv).Ok? <==> NumNormals(mask) > 0
    ensures NumPlaneEquations(mask) >= NumNormals(mask)
    ensures PlaneFittingMatrix(mask, normals, kinv).Ok? ==>
      var a := PlaneFittingMatrix(mask, normals, kinv).value;
      WellFormed(a) && a.nrows == NumPlaneEquations(mask) && a.ncols == 2 * NumNormals(mask)
  {
    NeighbourListsOwned(mask);
    OwnedCount(NeighbourIds(mask));
    MatrixShape(NeighbourIds(mask), ActiveNormals(mask, normals), Rays(mask, kinv));
  }

  /** With some pixel active the matrix is built. */
  lemma {:induction false} FittingMatrixBuilt(mask: seq<seq<bool>>, normals: seq<seq<Vec3>>, kinv: Mat3)
    requires NormalField(mask, normals) && NumNormals(mask) > 0
    ensures PlaneFittingMatrix(mask, normals, kinv).Ok?
  {
    FittingMatrixShape(mask, normals, kinv);
  }

  /**
   * The matrix of the method is the plane-row matrix of owned neighbour
   * lists with one normal and one ray per active pixel, so PlaneRow gives
   * each of its rows: n(p) · (p̃(q) z(q)) + d(p).
   */
  lemma {:induction false} FittingInputs(mask: seq<seq<bool>>, normals: seq<seq<Vec3>>, kinv: Mat3)
    requires NormalField(mask, normals)
    ensures |NeighbourIds(mask)| == NumNormals(mask)
    ensures Fitting(NeighbourIds(mask), ActiveNormals(mask, normals), Rays(mask, kinv))
  {
    NeighbourListsOwned(mask);
  }

  /** The ray of the active pixel (i, j) is K⁻¹ (H-1-i, j, 1). */
  lemma {:induction false} RayAt(mask: seq<seq<bool>>, kinv: Mat3, i: int, j: int)
    requires Rectangular(mask, Width(mask)) && 0 <= i < |mask| && 0 <= j < Width(mask) && mask[i][j]
    ensures Before(mask, Width(mask), i, j) < NumNormals(mask)
    ensures Rays(mask, kinv)[Before(mask, Width(mask), i, j)] ==
      Apply(kinv, Vec3((|mask| - 1 - i) as real, j as real, 1.0))
  {
    SelectAt(PixelCoordinates(|mask|, Width(mask)), mask, Width(mask), i, j);
  }

  /** The normal used for the active pixel (i, j) is the one given at (i, j). */
  lemma {:induction false} NormalAt(mask: seq<seq<bool>>, normals: seq<seq<Vec3>>, i: int, j: int)
    requires NormalField(mask, normals) && 0 <= i < |mask| && 0 <= j < Width(mask) && mask[i][j]
    ensures Before(mask, Width(mask), i, j) < NumNormals(mask)
    ensures ActiveNormals(mask, normals)[Before(mask, Width(mask), i, j)] == normals[i][j]
  {
    SelectAt(normals, mask, Width(mask), i, j);
  }

  // ---------------------------------------------------------------------
  // The object and its outputs

  /** `vertices = p_tilde * x[:num_normals]`: each active pixel's point on its ray at its depth. */
  function Vertices(mask: seq<seq<bool>>, kinv: Mat3, x: seq<real>): (vs: seq<Vec3>)
    requires Rectangular(mask, Width(mask)) && |x| >= NumNormals(mask)
    ensures |vs| == NumNormals(mask)
  {
    var rays := Rays(mask, kinv);
    seq(|rays|, t requires 0 <= t < |rays| => Scale(rays[t], x[t]))
  }

  /** The vertex of the active pixel (i, j) is K⁻¹ (H-1-i, j, 1) scaled by that pixel's depth. */
  lemma {:induction false} VertexAt(mask: seq<seq<bool>>, kinv: Mat3, x: seq<real>, i: int, j: int)
    requires Rectangular(mask, Width(mask)) && |x| >= NumNormals(mask)
    requires 0 <= i < |mask| && 0 <= j < Width(mask) && mask[i][j]
    ensures Before(mask, Width(mask), i, j) < NumNormals(mask)
    ensures Vertices(mask, kinv, x)[Before(mask, Width(mask), i, j)] ==
      Scale(Apply(kinv, Vec3((|mask| - 1 - i) as real, j as real, 1.0)), x[Before(mask, Width(mask), i, j)])
  {
    RayAt(mask, kinv, i, j);
  }

  /**
   * The object built by the perspective method: the plane-fitting matrix,
   * and, from the solver's eigenvector x of length 2 · num_normals, the
   * depth map and the vertices. An all-false mask makes the method raise
   * while concatenating the (empty) neighbour lists, so at least one pixel
   * is active.
   */
  class PerspectiveFivePointPlaneFitting {
    var system: Result<Coo>
    var depthMap: array2<Sample>
    var vertices: seq<Vec3>

    constructor(mask: seq<seq<bool>>, normals: seq<seq<Vec3>>, kinv: Mat3, x: seq<real>)
      requires NormalField(mask, normals) && NumNormals(mask) > 0
      requires |x| == 2 * NumNormals(mask)
      ensures system == PlaneFittingMatrix(mask, normals, kinv) && system.Ok?
      ensures fresh(depthMap) && depthMap.Length0 == |mask| && depthMap.Length1 == Width(mask)
      ensures forall i, j :: 0 <= i < |mask| && 0 <= j < Width(mask) ==>
        depthMap[i, j] == if mask[i][j] then Num(x[Before(mask, Width(mask), i, j)]) else NaN
      ensures vertices == Vertices(mask, kinv, x)
    {
      FittingMatrixBuilt(mask, normals, kinv);
      var d := ScatterDepth(mask, x[..NumNormals(mask)]);
      system := PlaneFittingMatrix(mask, normals, kinv);
      depthMap := d;
      vertices := Vertices(mask, kinv, x);
    }
  }
}
