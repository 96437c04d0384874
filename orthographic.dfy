/**
 * The orthographic discrete functional: two finite-difference operators
 * over the active pixels of a mask, assembled from row/column/value lists
 * exactly as the source builds them from shifted copies of the mask, then
 * stacked into the least-squares system A z ≈ b with b = (p, q).
 *
 * Both axes are handled by one definition parameterised by the direction
 * the difference is oriented toward (`Fwd`) and the opposite one (`Bwd`):
 * horizontally toward column j+1, vertically toward row i-1 (the image's
 * upward direction). In the source's names, horizontally `has_only_left`
 * is "missing forward" and `has_only_right` "missing backward"; vertically
 * `has_only_bottom` is "missing forward" and `has_only_top` "missing backward".
 */
module Orthographic {
  import opened Grid
  import opened Sparse
  import opened Lists

  datatype Axis = Horizontal | Vertical

  /** The direction the axis' difference is oriented toward. */
  function Fwd(axis: Axis): Dir
  {
    match axis
    case Horizontal => East
    case Vertical => North
  }

  function Bwd(axis: Axis): Dir
  {
    Opposite(Fwd(axis))
  }

  lemma {:induction false} AxisDirs(axis: Axis)
    ensures Opposite(Bwd(axis)) == Fwd(axis) && Bwd(axis) != Fwd(axis)
  {
  }

  /** Whether pixel k has an active 4-neighbour in direction d. */
  predicate Neighbour(m: seq<bool>, w: int, k: int, d: Dir)
    requires IsGrid(|m|, w) && 0 <= k < |m|
  {
    if Has(|m|, w, k, d) then StepInside(|m|, w, k, d); m[Step(w, k, d)] else false
  }

  /** `logical_and(logical_xor(moved, m), m)`: active cells whose shifted copy is inactive. */
  function OnlyMask(m: seq<bool>, moved: seq<bool>): (r: seq<bool>)
    requires |moved| == |m|
    ensures |r| == |m|
  {
    seq(|m|, k requires 0 <= k < |m| => (moved[k] != m[k]) && m[k])
  }

  /** `logical_and.reduce((a, b, m))`. */
  function AllOf(a: seq<bool>, b: seq<bool>, m: seq<bool>): (r: seq<bool>)
    requires |a| == |m| && |b| == |m|
    ensures |r| == |m|
  {
    seq(|m|, k requires 0 <= k < |m| => a[k] && b[k] && m[k])
  }

  /** Active pixels without an active forward neighbour (`has_only_left`, `has_only_bottom`). */
  function MissingFwd(m: seq<bool>, w: int, axis: Axis): (r: seq<bool>)
    requires IsGrid(|m|, w)
    ensures |r| == |m|
  {
    OnlyMask(m, Pull(m, w, Fwd(axis)))
  }

  /** Active pixels without an active backward neighbour (`has_only_right`, `has_only_top`). */
  function MissingBwd(m: seq<bool>, w: int, axis: Axis): (r: seq<bool>)
    requires IsGrid(|m|, w)
    ensures |r| == |m|
  {
    OnlyMask(m, Pull(m, w, Bwd(axis)))
  }

  /** Active pixels with both neighbours active (`has_left_and_right`, `has_bottom_and_top`). */
  function HasBoth(m: seq<bool>, w: int, axis: Axis): (r: seq<bool>)
    requires IsGrid(|m|, w)
    ensures |r| == |m|
  {
    AllOf(Pull(m, w, Fwd(axis)), Pull(m, w, Bwd(axis)), m)
  }

  /**
   * The shifted masks classify each pixel by its two neighbours on the
   * axis. The two one-sided classes overlap exactly on active pixels with
   * no active neighbour on the axis; "both" excludes the one-sided classes.
   */
  lemma {:induction false} Classification(m: seq<bool>, w: int, axis: Axis, k: int)
    requires IsGrid(|m|, w) && 0 <= k < |m|
    ensures MissingFwd(m, w, axis)[k] <==> m[k] && !Neighbour(m, w, k, Fwd(axis))
    ensures MissingBwd(m, w, axis)[k] <==> m[k] && !Neighbour(m, w, k, Bwd(axis))
    ensures HasBoth(m, w, axis)[k] <==> m[k] && Neighbour(m, w, k, Fwd(axis)) && Neighbour(m, w, k, Bwd(axis))
    ensures MissingFwd(m, w, axis)[k] && MissingBwd(m, w, axis)[k] <==>
      m[k] && !Neighbour(m, w, k, Fwd(axis)) && !Neighbour(m, w, k, Bwd(axis))
    ensures HasBoth(m, w, axis)[k] ==> !MissingFwd(m, w, axis)[k] && !MissingBwd(m, w, axis)[k]
  {
    PullAt(m, w, Fwd(axis), k);
    PullAt(m, w, Bwd(axis), k);
  }

  /** `[v] * n`. */
  function Repeat(v: real, n: nat): (r: seq<real>)
    ensures |r| == n && forall j :: 0 <= j < n ==> r[j] == v
  {
    seq(n, _ => v)
  }

  // ---------------------------------------------------------------------
  // The three parallel lists of one operator

  /** The row list: the indices of the three classes, twice. */
  function RowList(m: seq<bool>, w: int, axis: Axis): seq<int>
    requires IsGrid(|m|, w)
  {
    var idx := DepthIndex(m);
    var onlyF, onlyB, both := MissingFwd(m, w, axis), MissingBwd(m, w, axis), HasBoth(m, w, axis);
    Select(idx, onlyF) + Select(idx, onlyB) + Select(idx, both)
      + Select(idx, onlyF) + Select(idx, onlyB) + Select(idx, both)
  }

  /** The column list: the indices read through the class masks shifted one cell. */
  function ColList(m: seq<bool>, w: int, axis: Axis): seq<int>
    requires IsGrid(|m|, w)
  {
    var idx := DepthIndex(m);
    var fwd, bwd := Fwd(axis), Bwd(axis);
    var onlyF, onlyB, both := MissingFwd(m, w, axis), MissingBwd(m, w, axis), HasBoth(m, w, axis);
    Select(idx, Pull(onlyF, w, fwd)) + Select(idx, Pull(onlyB, w, bwd)) + Select(idx, Pull(both, w, fwd))
      + Select(idx, onlyF) + Select(idx, onlyB) + Select(idx, Pull(both, w, bwd))
  }

  /** The value list: -1, +1, -0.5, +1, -1, +0.5 repeated by the sizes of the masks. */
  function DataList(m: seq<bool>, w: int, axis: Axis): seq<real>
    requires IsGrid(|m|, w)
  {
    var fwd, bwd := Fwd(axis), Bwd(axis);
    var onlyF, onlyB, both := MissingFwd(m, w, axis), MissingBwd(m, w, axis), HasBoth(m, w, axis);
    Repeat(-1.0, Count(onlyF)) + Repeat(1.0, Count(onlyB)) + Repeat(-0.5, Count(both))
      + Repeat(1.0, Count(Pull(onlyF, w, fwd))) + Repeat(-1.0, Count(Pull(onlyB, w, bwd))) + Repeat(0.5, Count(both))
  }

  /**
   * One finite-difference operator (D_horizontal or D_vertical): the COO
   * matrix of the three lists, of shape num_depth × num_depth, divided by
   * the step size. Fails when the lists do not line up.
   */
  function DiffOperator(m: seq<bool>, w: int, axis: Axis, step: real): Result<Coo>
    requires IsGrid(|m|, w) && step != 0.0
  {
    match CooMatrix(RowList(m, w, axis), ColList(m, w, axis), DataList(m, w, axis), Count(m), Count(m))
    case Ok(d) => Ok(Divide(d, step))
    case Err(e) => Err(e)
  }

  /**
   * `generate_dx_dy_wb`: the vertical and the horizontal operator, in that
   * order, over the row-major flattening of the mask.
   */
  function GenerateDxDy(mask: seq<seq<bool>>, step: real): Result<(Coo, Coo)>
    requires Rectangular(mask, Width(mask)) && step != 0.0
  {
    FlattenIsGrid(mask);
    var m, w := Flatten(mask, Width(mask)), FlatWidth(mask);
    match DiffOperator(m, w, Horizontal, step)
    case Err(e) => Err(e)
    case Ok(dh) =>
      match DiffOperator(m, w, Vertical, step)
      case Err(e) => Err(e)
      case Ok(dv) => Ok((dv, dh))
  }

  // ---------------------------------------------------------------------
  // When the three lists line up

  /**
   * Some active pixel has no active neighbour ahead on the axis and no cell
   * at all behind it, or no active neighbour behind and no cell ahead: an
   * active pixel on the grid edge whose inward neighbour is inactive.
   * Shifting its class mask pushes it out of the grid, so its column entry
   * is lost.
   */
  predicate EdgeDropped(m: seq<bool>, w: int, axis: Axis)
    requires IsGrid(|m|, w)
  {
    exists k :: 0 <= k < |m| && m[k] &&
      ((!Neighbour(m, w, k, Fwd(axis)) && !Has(|m|, w, k, Bwd(axis))) ||
       (!Neighbour(m, w, k, Bwd(axis)) && !Has(|m|, w, k, Fwd(axis))))
  }

  /** Reading the index map through any mask gives indices in range, or nothing when there is nothing to read. */
  lemma {:induction false} SelectIndexIn(m: seq<bool>, y: seq<bool>)
    requires |y| == |m|
    requires (exists k :: 0 <= k < |m| && m[k]) || (forall k :: 0 <= k < |y| ==> !y[k])
    ensures AllIn(Select(DepthIndex(m), y), 0, Count(m))
  {
    if exists k :: 0 <= k < |m| && m[k] {
      var k :| 0 <= k < |m| && m[k];
      RankAt(m, k);
      IndexBijection(m);
    } else {
      CountNone(y);
    }
  }

  /** Every index in the seven selections the operator reads lies in 0 .. num_depth-1. */
  lemma {:induction false} BlockIndices(m: seq<bool>, w: int, axis: Axis)
    requires IsGrid(|m|, w)
    ensures AllIn(Select(DepthIndex(m), MissingFwd(m, w, axis)), 0, Count(m))
    ensures AllIn(Select(DepthIndex(m), MissingBwd(m, w, axis)), 0, Count(m))
    ensures AllIn(Select(DepthIndex(m), HasBoth(m, w, axis)), 0, Count(m))
    ensures AllIn(Select(DepthIndex(m), Pull(MissingFwd(m, w, axis), w, Fwd(axis))), 0, Count(m))
    ensures AllIn(Select(DepthIndex(m), Pull(MissingBwd(m, w, axis), w, Bwd(axis))), 0, Count(m))
    ensures AllIn(Select(DepthIndex(m), Pull(HasBoth(m, w, axis), w, Fwd(axis))), 0, Count(m))
    ensures AllIn(Select(DepthIndex(m), Pull(HasBoth(m, w, axis), w, Bwd(axis))), 0, Count(m))
  {
    var fwd, bwd := Fwd(axis), Bwd(axis);
    var mf, mb, both := MissingFwd(m, w, axis), MissingBwd(m, w, axis), HasBoth(m, w, axis);
    if !exists k :: 0 <= k < |m| && m[k] {
      forall k | 0 <= k < |m|
        ensures !mf[k] && !mb[k] && !both[k]
        ensures !Pull(mf, w, fwd)[k] && !Pull(mb, w, bwd)[k] && !Pull(both, w, fwd)[k] && !Pull(both, w, bwd)[k]
      {
        PullAt(mf, w, fwd, k);
        PullAt(mb, w, bwd, k);
        PullAt(both, w, fwd, k);
        PullAt(both, w, bwd, k);
      }
    }
    SelectIndexIn(m, mf);
    SelectIndexIn(m, mb);
    SelectIndexIn(m, both);
    SelectIndexIn(m, Pull(mf, w, fwd));
    SelectIndexIn(m, Pull(mb, w, bwd));
    SelectIndexIn(m, Pull(both, w, fwd));
    SelectIndexIn(m, Pull(both, w, bwd));
  }

  lemma {:induction false} AllInSix(a: seq<int>, b: seq<int>, c: seq<int>, d: seq<int>, e: seq<int>, f: seq<int>, lo: int, hi: int)
    requires AllIn(a, lo, hi) && AllIn(b, lo, hi) && AllIn(c, lo, hi)
    requires AllIn(d, lo, hi) && AllIn(e, lo, hi) && AllIn(f, lo, hi)
    ensures AllIn(a + b + c + d + e + f, lo, hi)
  {
    AllInAppend(a, b, lo, hi);
    AllInAppend(a + b, c, lo, hi);
    AllInAppend(a + b + c, d, lo, hi);
    AllInAppend(a + b + c + d, e, lo, hi);
    AllInAppend(a + b + c + d + e, f, lo, hi);
  }

  /** The row and column lists only ever hold indices of the num_depth × num_depth shape. */
  lemma {:induction false} ListsInShape(m: seq<bool>, w: int, axis: Axis)
    requires IsGrid(|m|, w)
    ensures AllIn(RowList(m, w, axis), 0, Count(m)) && AllIn(ColList(m, w, axis), 0, Count(m))
  {
    BlockIndices(m, w, axis);
    var idx := DepthIndex(m);
    var fwd, bwd := Fwd(axis), Bwd(axis);
    var mf, mb, both := MissingFwd(m, w, axis), MissingBwd(m, w, axis), HasBoth(m, w, axis);
    AllInSix(Select(idx, mf), Select(idx, mb), Select(idx, both), Select(idx, mf), Select(idx, mb), Select(idx, both), 0, Count(m));
    AllInSix(Select(idx, Pull(mf, w, fwd)), Select(idx, Pull(mb, w, bwd)), Select(idx, Pull(both, w, fwd)),
      Select(idx, mf), Select(idx, mb), Select(idx, Pull(both, w, bwd)), 0, Count(m));
  }

  /**
   * Shifting a class mask loses a pixel exactly when that pixel has no cell
   * on the side the shift reads from; "both" pixels have cells on both sides.
   */
  lemma {:induction false} ShiftCounts(m: seq<bool>, w: int, axis: Axis)
    requires IsGrid(|m|, w)
    ensures Count(Pull(HasBoth(m, w, axis), w, Fwd(axis))) == Count(HasBoth(m, w, axis))
    ensures Count(Pull(HasBoth(m, w, axis), w, Bwd(axis))) == Count(HasBoth(m, w, axis))
    ensures Count(Pull(MissingFwd(m, w, axis), w, Fwd(axis))) <= Count(MissingFwd(m, w, axis))
    ensures Count(Pull(MissingBwd(m, w, axis), w, Bwd(axis))) <= Count(MissingBwd(m, w, axis))
    ensures Count(Pull(MissingFwd(m, w, axis), w, Fwd(axis))) == Count(MissingFwd(m, w, axis)) <==>
      forall k :: 0 <= k < |m| && MissingFwd(m, w, axis)[k] ==> Has(|m|, w, k, Bwd(axis))
    ensures Count(Pull(MissingBwd(m, w, axis), w, Bwd(axis))) == Count(MissingBwd(m, w, axis)) <==>
      forall k :: 0 <= k < |m| && MissingBwd(m, w, axis)[k] ==> Has(|m|, w, k, Fwd(axis))
  {
    var fwd, bwd := Fwd(axis), Bwd(axis);
    var both := HasBoth(m, w, axis);
    AxisDirs(axis);
    forall k | 0 <= k < |m| && both[k]
      ensures Has(|m|, w, k, fwd) && Has(|m|, w, k, bwd)
    {
      PullAt(m, w, fwd, k);
      PullAt(m, w, bwd, k);
    }
    PullCount(both, w, fwd);
    PullCount(both, w, bwd);
    PullCount(MissingFwd(m, w, axis), w, fwd);
    PullCount(MissingBwd(m, w, axis), w, bwd);
  }

  /**
   * The operator is built exactly when no edge pixel is dropped: otherwise
   * the row list is longer than the column and value lists and the COO
   * constructor refuses them. When built it is num_depth × num_depth with
   * two triplets per class membership.
   */
  lemma {:induction false} DiffOperatorFails(m: seq<bool>, w: int, axis: Axis, step: real)
    requires IsGrid(|m|, w) && step != 0.0
    ensures DiffOperator(m, w, axis, step).Err? <==> EdgeDropped(m, w, axis)
    ensures |ColList(m, w, axis)| == |DataList(m, w, axis)|
    ensures |RowList(m, w, axis)| >= |ColList(m, w, axis)|
    ensures DiffOperator(m, w, axis, step).Ok? ==>
      var d := DiffOperator(m, w, axis, step).value;
      WellFormed(d) && d.nrows == Count(m) && d.ncols == Count(m) &&
      |d.entries| == 2 * (Count(MissingFwd(m, w, axis)) + Count(MissingBwd(m, w, axis)) + Count(HasBoth(m, w, axis)))
  {
    ListLengths(m, w, axis);
    ListsInShape(m, w, axis);
  }

  /**
   * The column and value lists always line up; the row list is as long
   * exactly when no edge pixel is dropped, and never shorter.
   */
  lemma {:induction false} ListLengths(m: seq<bool>, w: int, axis: Axis)
    requires IsGrid(|m|, w)
    ensures |ColList(m, w, axis)| == |DataList(m, w, axis)|
    ensures |RowList(m, w, axis)| >= |ColList(m, w, axis)|
    ensures |RowList(m, w, axis)| == |ColList(m, w, axis)| <==> !EdgeDropped(m, w, axis)
    ensures |RowList(m, w, axis)| == 2 * (Count(MissingFwd(m, w, axis)) + Count(MissingBwd(m, w, axis)) + Count(HasBoth(m, w, axis)))
  {
    ShiftCounts(m, w, axis);
    forall k | 0 <= k < |m|
      ensures MissingFwd(m, w, axis)[k] <==> m[k] && !Neighbour(m, w, k, Fwd(axis))
      ensures MissingBwd(m, w, axis)[k] <==> m[k] && !Neighbour(m, w, k, Bwd(axis))
    {
      Classification(m, w, axis, k);
    }
  }

  /** Without a dropped edge pixel every one-sided pixel has a cell on its inward side. */
  lemma {:induction false} Aligned(m: seq<bool>, w: int, axis: Axis)
    requires IsGrid(|m|, w) && !EdgeDropped(m, w, axis)
    ensures forall k :: 0 <= k < |m| && MissingFwd(m, w, axis)[k] ==> Has(|m|, w, k, Bwd(axis))
    ensures forall k :: 0 <= k < |m| && MissingBwd(m, w, axis)[k] ==> Has(|m|, w, k, Fwd(axis))
    ensures forall k :: 0 <= k < |m| && HasBoth(m, w, axis)[k] ==> Has(|m|, w, k, Fwd(axis)) && Has(|m|, w, k, Bwd(axis))
  {
    forall k | 0 <= k < |m|
      ensures MissingFwd(m, w, axis)[k] ==> Has(|m|, w, k, Bwd(axis))
      ensures MissingBwd(m, w, axis)[k] ==> Has(|m|, w, k, Fwd(axis))
      ensures HasBoth(m, w, axis)[k] ==> Has(|m|, w, k, Fwd(axis)) && Has(|m|, w, k, Bwd(axis))
    {
      Classification(m, w, axis, k);
      PullAt(m, w, Fwd(axis), k);
      PullAt(m, w, Bwd(axis), k);
    }
  }
}
