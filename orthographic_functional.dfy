/**
 * The orthographic discrete functional object: the two operators stacked
 * into the least-squares system A z ≈ b with b = (p, q) taken from the
 * normals, and the solution scattered back into an H×W depth map. The
 * least-squares solver is not modelled: its solution z is a parameter.
 */
module OrthographicFunctional {
  import opened Grid
  import opened Sparse
  import opened Vectors
  import opened Orthographic
  import opened OrthographicRows

  /** The surface gradient along the image's vertical axis at a pixel with normal n. */
  function SlopeP(n: Vec3): real
    requires n.z != 0.0
  {
    -n.x / n.z
  }

  /** The surface gradient along the image's horizontal axis at a pixel with normal n. */
  function SlopeQ(n: Vec3): real
    requires n.z != 0.0
  {
    -n.y / n.z
  }

  /** A normal field of the mask's shape with a non-zero z component at every active pixel. */
  predicate Frontal(mask: seq<seq<bool>>, normals: seq<seq<Vec3>>)
  {
    Rectangular(mask, Width(mask)) && |normals| == |mask| && Rectangular(normals, Width(mask)) &&
    forall i, j :: 0 <= i < |mask| && 0 <= j < Width(mask) && mask[i][j] ==> normals[i][j].z != 0.0
  }

  /** The normal field read in row-major order, as the mask is. */
  function FlatNormals(mask: seq<seq<bool>>, normals: seq<seq<Vec3>>): (ns: seq<Vec3>)
    requires Frontal(mask, normals)
    ensures |ns| == |Flatten(mask, Width(mask))|
    ensures forall k :: 0 <= k < |ns| && Flatten(mask, Width(mask))[k] ==> ns[k].z != 0.0
  {
    var w := Width(mask);
    var ns := Flatten(normals, w);
    forall k | 0 <= k < |ns| && Flatten(mask, w)[k]
      ensures ns[k].z != 0.0
    {
      DivBelow(k, |mask|, w);
      assert k == (k / w) * w + k % w;
      FlattenAt(mask, w, k / w, k % w);
      FlattenAt(normals, w, k / w, k % w);
    }
    ns
  }

  /** `p` (or `q`, with `vertical` false): one slope per active pixel, in row-major order. */
  function Slopes(ns: seq<Vec3>, m: seq<bool>, vertical: bool): (s: seq<real>)
    requires |ns| == |m| && forall k :: 0 <= k < |m| && m[k] ==> ns[k].z != 0.0
    ensures |s| == Count(m)
  {
    FilterSpec(m);
    seq(Count(m), t requires 0 <= t < Count(m) =>
      var n := ns[Filter(m)[t]];
      if vertical then SlopeP(n) else SlopeQ(n))
  }

  /** `b = concat(p, q)`. */
  function RightHandSide(mask: seq<seq<bool>>, normals: seq<seq<Vec3>>): (b: seq<real>)
    requires Frontal(mask, normals)
    ensures |b| == 2 * Count(Flatten(mask, Width(mask)))
  {
    var m, ns := Flatten(mask, Width(mask)), FlatNormals(mask, normals);
    Slopes(ns, m, true) + Slopes(ns, m, false)
  }

  /**
   * `A = vstack((Du, Dv))` with `(Du, Dv) = generate_dx_dy_wb(mask, step)`:
   * the vertical operator over the horizontal one.
   */
  function StackedOperators(mask: seq<seq<bool>>, step: real): Result<Coo>
    requires Rectangular(mask, Width(mask)) && step != 0.0
  {
    match GenerateDxDy(mask, step)
    case Err(e) => Err(e)
    case Ok(ops) => VStack(ops.0, ops.1)
  }

  /** A least-squares system A z ≈ b. */
  datatype System = System(a: Coo, b: seq<real>)

  /** The system the orthographic method hands to its least-squares solver. */
  function OrthographicSystem(mask: seq<seq<bool>>, normals: seq<seq<Vec3>>, step: real): Result<System>
    requires Frontal(mask, normals) && step != 0.0
  {
    match StackedOperators(mask, step)
    case Err(e) => Err(e)
    case Ok(a) => Ok(System(a, RightHandSide(mask, normals)))
  }

  /**
   * Both operators are built exactly when neither axis drops an edge pixel;
   * the first is the vertical operator and the second the horizontal one.
   */
  lemma {:induction false} GenerateDxDyFails(mask: seq<seq<bool>>, step: real)
    requires Rectangular(mask, Width(mask)) && step != 0.0
    ensures IsGrid(|Flatten(mask, Width(mask))|, FlatWidth(mask))
    ensures GenerateDxDy(mask, step).Ok? <==>
      !EdgeDropped(Flatten(mask, Width(mask)), FlatWidth(mask), Vertical) &&
      !EdgeDropped(Flatten(mask, Width(mask)), FlatWidth(mask), Horizontal)
    ensures GenerateDxDy(mask, step).Ok? ==>
      GenerateDxDy(mask, step).value.0 == DiffOperator(Flatten(mask, Width(mask)), FlatWidth(mask), Vertical, step).value &&
      GenerateDxDy(mask, step).value.1 == DiffOperator(Flatten(mask, Width(mask)), FlatWidth(mask), Horizontal, step).value
  {
    FlattenIsGrid(mask);
    var m, w := Flatten(mask, Width(mask)), FlatWidth(mask);
    DiffOperatorFails(m, w, Vertical, step);
    DiffOperatorFails(m, w, Horizontal, step);
  }

  /**
   * A is built exactly when neither axis drops an edge pixel; it then has
   * 2·num_depth rows and num_depth columns and every triplet lies inside it.
   */
  lemma {:induction false} StackedShape(mask: seq<seq<bool>>, step: real)
    requires Rectangular(mask, Width(mask)) && step != 0.0
    ensures IsGrid(|Flatten(mask, Width(mask))|, FlatWidth(mask))
    ensures StackedOperators(mask, step).Ok? <==>
      !EdgeDropped(Flatten(mask, Width(mask)), FlatWidth(mask), Vertical) &&
      !EdgeDropped(Flatten(mask, Width(mask)), FlatWidth(mask), Horizontal)
    ensures StackedOperators(mask, step).Ok? ==>
      var a, n := StackedOperators(mask, step).value, Count(Flatten(mask, Width(mask)));
      a.nrows == 2 * n && a.ncols == n && WellFormed(a)
  {
    GenerateDxDyFails(mask, step);
    var m, w := Flatten(mask, Width(mask)), FlatWidth(mask);
    DiffOperatorFails(m, w, Vertical, step);
    DiffOperatorFails(m, w, Horizontal, step);
  }

  /** The system is built exactly when A is, and then A has as many rows as b has entries. */
  lemma {:induction false} SystemShape(mask: seq<seq<bool>>, normals: seq<seq<Vec3>>, step: real)
    requires Frontal(mask, normals) && step != 0.0
    ensures IsGrid(|Flatten(mask, Width(mask))|, FlatWidth(mask))
    ensures OrthographicSystem(mask, normals, step).Ok? <==>
      !EdgeDropped(Flatten(mask, Width(mask)), FlatWidth(mask), Vertical) &&
      !EdgeDropped(Flatten(mask, Width(mask)), FlatWidth(mask), Horizontal)
    ensures OrthographicSystem(mask, normals, step).Ok? ==>
      var s, n := OrthographicSystem(mask, normals, step).value, Count(Flatten(mask, Width(mask)));
      s.a == StackedOperators(mask, step).value && s.b == RightHandSide(mask, normals) &&
      s.a.nrows == |s.b| == 2 * n && s.a.ncols == n
  {
    StackedShape(mask, step);
  }

  /** A built A is the vertical operator over the horizontal one. */
  lemma {:induction false} StackedParts(mask: seq<seq<bool>>, step: real)
    requires Rectangular(mask, Width(mask)) && step != 0.0 && StackedOperators(mask, step).Ok?
    ensures IsGrid(|Flatten(mask, Width(mask))|, FlatWidth(mask))
    ensures !EdgeDropped(Flatten(mask, Width(mask)), FlatWidth(mask), Vertical)
    ensures !EdgeDropped(Flatten(mask, Width(mask)), FlatWidth(mask), Horizontal)
    ensures
      var m, w := Flatten(mask, Width(mask)), FlatWidth(mask);
      var dv, dh := DiffOperator(m, w, Vertical, step), DiffOperator(m, w, Horizontal, step);
      dv.Ok? && dh.Ok? && WellFormed(dv.value) && WellFormed(dh.value) &&
      dv.value.nrows == Count(m) && dv.value.ncols == Count(m) &&
      dh.value.nrows == Count(m) && dh.value.ncols == Count(m) &&
      StackedOperators(mask, step) == VStack(dv.value, dh.value)
  {
    GenerateDxDyFails(mask, step);
    var m, w := Flatten(mask, Width(mask)), FlatWidth(mask);
    DiffOperatorFails(m, w, Vertical, step);
    DiffOperatorFails(m, w, Horizontal, step);
  }

  /** Row t of the stacked matrix is row t of the top block, and row u = n + t is row t of the bottom block. */
  lemma {:induction false} StackedRows(top: Coo, bottom: Coo, z: seq<real>, t: int, u: int, x: real, y: real)
    requires WellFormed(top) && WellFormed(bottom) && top.nrows == top.ncols == bottom.ncols == |z|
    requires 0 <= t < |z| && u == |z| + t && ColsBelow(top.entries, |z|) && ColsBelow(bottom.entries, |z|)
    requires MatVec(top.entries, z, t) == x && MatVec(bottom.entries, z, t) == y
    ensures VStack(top, bottom).Ok? && ColsBelow(VStack(top, bottom).value.entries, |z|)
    ensures MatVec(VStack(top, bottom).value.entries, z, t) == x
    ensures MatVec(VStack(top, bottom).value.entries, z, u) == y
    ensures MatVec(VStack(top, bottom).value.entries, z, |z| + t) == y
  {
    MatVecVStack(top, bottom, z, t);
    MatVecVStack(top, bottom, z, u);
    assert u - top.nrows == t;
  }

  /**
   * Every row of A: applied to any depths z, row t < num_depth is the
   * vertical difference at the t-th active pixel over the step, and row
   * num_depth + t is the horizontal difference there.
   */
  lemma {:induction false} StackedRow(mask: seq<seq<bool>>, step: real, z: seq<real>, t: int)
    requires Rectangular(mask, Width(mask)) && step != 0.0 && StackedOperators(mask, step).Ok?
    requires |z| == Count(Flatten(mask, Width(mask))) && 0 <= t < |z|
    ensures
      var m, w, a := Flatten(mask, Width(mask)), FlatWidth(mask), StackedOperators(mask, step).value;
      var k := Filter(m)[t];
      IsGrid(|m|, w) && ColsBelow(a.entries, |z|) && 0 <= k < |m| && m[k] &&
      MatVec(a.entries, z, t) == Difference(m, w, Vertical, z, k) / step &&
      MatVec(a.entries, z, |z| + t) == Difference(m, w, Horizontal, z, k) / step
  {
    StackedParts(mask, step);
    var m, w := Flatten(mask, Width(mask)), FlatWidth(mask);
    RankOfFilter(m, t);
    var k := Filter(m)[t];
    DepthIndexAt(m, k);
    FlatStackedRow(m, w, step, z, k, t, StackedOperators(mask, step).value);
  }

  /** StackedRow over the flattened mask, for the stacked matrix a and the pixel k numbered t. */
  lemma {:induction false} FlatStackedRow(m: seq<bool>, w: int, step: real, z: seq<real>, k: int, t: int, a: Coo)
    requires IsGrid(|m|, w) && step != 0.0 && !EdgeDropped(m, w, Vertical) && !EdgeDropped(m, w, Horizontal)
    requires 0 <= k < |m| && m[k] && |z| == Count(m) && t == DepthIndex(m)[k]
    requires DiffOperator(m, w, Vertical, step).Ok? && DiffOperator(m, w, Horizontal, step).Ok?
    requires VStack(DiffOperator(m, w, Vertical, step).value, DiffOperator(m, w, Horizontal, step).value) == Ok(a)
    ensures 0 <= t < |z| && ColsBelow(a.entries, |z|)
    ensures MatVec(a.entries, z, t) == Difference(m, w, Vertical, z, k) / step
    ensures MatVec(a.entries, z, |z| + t) == Difference(m, w, Horizontal, z, k) / step
  {
    DiffOperatorFails(m, w, Vertical, step);
    DiffOperatorFails(m, w, Horizontal, step);
    OperatorRow(m, w, Vertical, step, z, k);
    OperatorRow(m, w, Horizontal, step, z, k);
    DepthIndexAt(m, k);
    var x, y := Difference(m, w, Vertical, z, k) / step, Difference(m, w, Horizontal, z, k) / step;
    StackedRows(DiffOperator(m, w, Vertical, step).value, DiffOperator(m, w, Horizontal, step).value, z, t, |z| + t, x, y);
  }

  /**
   * Row alignment, the right-hand side: b[t] is p at the active pixel (i, j)
   * numbered t, and b[num_depth + t] is q there.
   */
  lemma {:induction false} RightHandSideAt(mask: seq<seq<bool>>, normals: seq<seq<Vec3>>, i: int, j: int)
    requires Frontal(mask, normals) && 0 <= i < |mask| && 0 <= j < Width(mask) && mask[i][j]
    ensures
      var b, n, t := RightHandSide(mask, normals), Count(Flatten(mask, Width(mask))), Before(mask, Width(mask), i, j);
      t < n && b[t] == SlopeP(normals[i][j]) && b[n + t] == SlopeQ(normals[i][j])
  {
    var w := Width(mask);
    BeforeIsPosition(mask, w, i, j);
    FlattenAt(normals, w, i, j);
  }

  /**
   * Translation invariance: adding the same constant to every depth leaves
   * every row of A z unchanged, so the depth is recovered only up to one
   * global additive constant.
   */
  lemma {:induction false} StackedShiftInvariant(mask: seq<seq<bool>>, step: real, z: seq<real>, a: real, r: int)
    requires Rectangular(mask, Width(mask)) && step != 0.0 && StackedOperators(mask, step).Ok?
    requires |z| == Count(Flatten(mask, Width(mask)))
    ensures ColsBelow(StackedOperators(mask, step).value.entries, |z|)
    ensures MatVec(StackedOperators(mask, step).value.entries, Plus(z, Constant(|z|, a)), r) ==
      MatVec(StackedOperators(mask, step).value.entries, z, r)
  {
    StackedConstant(mask, step, a, r);
    MatVecPlus(StackedOperators(mask, step).value.entries, z, Constant(|z|, a), r);
  }

  /** Every row of A maps a constant depth vector to zero. */
  lemma {:induction false} StackedConstant(mask: seq<seq<bool>>, step: real, a: real, r: int)
    requires Rectangular(mask, Width(mask)) && step != 0.0 && StackedOperators(mask, step).Ok?
    ensures var n := Count(Flatten(mask, Width(mask)));
      ColsBelow(StackedOperators(mask, step).value.entries, n) &&
      MatVec(StackedOperators(mask, step).value.entries, Constant(n, a), r) == 0.0
  {
    StackedParts(mask, step);
    FlatStackedConstant(Flatten(mask, Width(mask)), FlatWidth(mask), step, a, r);
  }

  /** StackedConstant over the flattened mask. */
  lemma {:induction false} FlatStackedConstant(m: seq<bool>, w: int, step: real, a: real, r: int)
    requires IsGrid(|m|, w) && step != 0.0 && !EdgeDropped(m, w, Vertical) && !EdgeDropped(m, w, Horizontal)
    ensures DiffOperator(m, w, Vertical, step).Ok? && DiffOperator(m, w, Horizontal, step).Ok?
    ensures
      var s := VStack(DiffOperator(m, w, Vertical, step).value, DiffOperator(m, w, Horizontal, step).value);
      s.Ok? && ColsBelow(s.value.entries, Count(m)) &&
      MatVec(s.value.entries, Constant(Count(m), a), r) == 0.0
  {
    DiffOperatorFails(m, w, Vertical, step);
    DiffOperatorFails(m, w, Horizontal, step);
    var n := Count(m);
    var dv, dh := DiffOperator(m, w, Vertical, step).value, DiffOperator(m, w, Horizontal, step).value;
    if 0 <= r < n {
      ConstantOperatorRow(m, w, Vertical, step, a, r);
      ConstantOperatorRow(m, w, Horizontal, step, a, r);
      StackedRows(dv, dh, Constant(n, a), r, n + r, 0.0, 0.0);
    } else if n <= r < 2 * n {
      var t := r - n;
      ConstantOperatorRow(m, w, Vertical, step, a, t);
      ConstantOperatorRow(m, w, Horizontal, step, a, t);
      StackedRows(dv, dh, Constant(n, a), t, r, 0.0, 0.0);
    } else {
      MatVecNoRowOf(VStack(dv, dh).value, Constant(n, a), r);
    }
  }

  /** Row r of one operator maps a constant vector to zero. */
  lemma {:induction false} ConstantOperatorRow(m: seq<bool>, w: int, axis: Axis, step: real, a: real, r: int)
    requires IsGrid(|m|, w) && step != 0.0 && !EdgeDropped(m, w, axis) && 0 <= r < Count(m)
    ensures DiffOperator(m, w, axis, step).Ok?
    ensures ColsBelow(DiffOperator(m, w, axis, step).value.entries, Count(m))
    ensures MatVec(DiffOperator(m, w, axis, step).value.entries, Constant(Count(m), a), r) == 0.0
  {
    RankOfFilter(m, r);
    var k := Filter(m)[r];
    DepthIndexAt(m, k);
    ConstantRow(m, w, axis, step, a, k);
  }

  /** A well-formed matrix has nothing in a row outside its shape. */
  lemma {:induction false} MatVecNoRowOf(d: Coo, z: seq<real>, r: int)
    requires WellFormed(d) && |z| == d.ncols && !(0 <= r < d.nrows)
    ensures ColsBelow(d.entries, |z|)
    ensures MatVec(d.entries, z, r) == 0.0
  {
    MatVecNoRow(d.entries, z, r);
  }

  /**
   * `all_depth_idx`: a zero array with the t-th active pixel (row-major)
   * set to t. Grid.BeforeIsPosition relates it to the index map of the
   * flattened mask.
   */
  method BuildDepthIndex(mask: seq<seq<bool>>) returns (idx: array2<int>)
    requires Rectangular(mask, Width(mask))
    ensures fresh(idx) && idx.Length0 == |mask| && idx.Length1 == Width(mask)
    ensures forall i, j :: 0 <= i < |mask| && 0 <= j < Width(mask) ==>
      idx[i, j] == if mask[i][j] then Before(mask, Width(mask), i, j) else 0
  {
    var w := Width(mask);
    idx := new int[|mask|, w]((i, j) => 0);
    FillMasked(idx, mask, seq(Count(Flatten(mask, w)), t => t));
  }

  /**
   * The object built by the orthographic method: the system it solves and
   * the depth map scattered from the solver's solution.
   */
  class OrthographicDiscreteFunctional {
    var system: Result<System>
    var depthMap: array2<Sample>

    /**
     * Builds the system from the mask and normals and, given the solver's
     * solution z, fills a NaN depth map with z[k] at the k-th active pixel.
     * When the operators cannot be built the method raises before solving,
     * so no object exists: the system must be built.
     */
    constructor(mask: seq<seq<bool>>, normals: seq<seq<Vec3>>, step: real, z: seq<real>)
      requires Frontal(mask, normals) && step != 0.0
      requires OrthographicSystem(mask, normals, step).Ok?
      requires |z| == Count(Flatten(mask, Width(mask)))
      ensures system == OrthographicSystem(mask, normals, step) && system.Ok?
      ensures fresh(depthMap) && depthMap.Length0 == |mask| && depthMap.Length1 == Width(mask)
      ensures forall i, j :: 0 <= i < |mask| && 0 <= j < Width(mask) ==>
        depthMap[i, j] == if mask[i][j] then Num(z[Before(mask, Width(mask), i, j)]) else NaN
    {
      var d := ScatterDepth(mask, z);
      system := OrthographicSystem(mask, normals, step);
      depthMap := d;
    }
  }
}
