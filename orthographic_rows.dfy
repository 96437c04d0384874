/**
 * What the rows of an orthographic finite-difference operator compute.
 * Once duplicate triplets are summed, the row of an active pixel applied to
 * a depth vector is the reference stencil `Difference` divided by the step
 * size: a central difference between the two neighbours on the axis, a
 * one-sided difference against the only active neighbour, and zero for a
 * pixel with no active neighbour, whose two one-sided contributions cancel
 * through the sentinel index 0.
 */
module OrthographicRows {
  import opened Grid
  import opened Sparse
  import opened Lists
  import opened Orthographic

  // ---------------------------------------------------------------------
  // The reference stencil

  /** The depth of active pixel k, read through the index map. */
  function Depth(m: seq<bool>, z: seq<real>, k: int): real
    requires 0 <= k < |m| && m[k] && |z| == Count(m)
  {
    DepthIndexAt(m, k);
    z[DepthIndex(m)[k]]
  }

  /** The depth of the active neighbour of pixel k in direction d. */
  function NeighbourDepth(m: seq<bool>, w: int, z: seq<real>, k: int, d: Dir): real
    requires IsGrid(|m|, w) && 0 <= k < |m| && |z| == Count(m) && Neighbour(m, w, k, d)
  {
    StepInside(|m|, w, k, d);
    Depth(m, z, Step(w, k, d))
  }

  /**
   * The finite difference of the depths z at active pixel k along the axis,
   * per pixel: central where both neighbours are active, one-sided toward
   * the only active neighbour, zero where there is none.
   */
  function Difference(m: seq<bool>, w: int, axis: Axis, z: seq<real>, k: int): real
    requires IsGrid(|m|, w) && 0 <= k < |m| && m[k] && |z| == Count(m)
  {
    var f, b := Neighbour(m, w, k, Fwd(axis)), Neighbour(m, w, k, Bwd(axis));
    if f && b then (NeighbourDepth(m, w, z, k, Fwd(axis)) - NeighbourDepth(m, w, z, k, Bwd(axis))) / 2.0
    else if b then Depth(m, z, k) - NeighbourDepth(m, w, z, k, Bwd(axis))
    else if f then NeighbourDepth(m, w, z, k, Fwd(axis)) - Depth(m, z, k)
    else 0.0
  }

  // ---------------------------------------------------------------------
  // One block of triplets at a time

  /** The triplets of one block: the indices of `rowMask`'s pixels as rows, with `cols` and `vals`. */
  function Block(m: seq<bool>, rowMask: seq<bool>, cols: seq<int>, vals: seq<real>): (ts: seq<Triplet>)
    requires |rowMask| == |m| && |cols| == Count(rowMask) && |vals| == Count(rowMask)
    ensures |ts| == Count(rowMask)
  {
    Zip(Select(DepthIndex(m), rowMask), cols, vals)
  }

  /** Among the rows of a block, pixel k's index appears exactly at k's position in the block. */
  lemma {:induction false} BlockRowsHit(m: seq<bool>, rowMask: seq<bool>, k: int)
    requires |rowMask| == |m| && forall k' :: 0 <= k' < |m| && rowMask[k'] ==> m[k']
    requires 0 <= k < |m| && rowMask[k]
    ensures Rank(rowMask, k) < Count(rowMask)
    ensures Select(DepthIndex(m), rowMask)[Rank(rowMask, k)] == DepthIndex(m)[k]
    ensures forall j :: 0 <= j < Count(rowMask) && j != Rank(rowMask, k) ==> Select(DepthIndex(m), rowMask)[j] != DepthIndex(m)[k]
  {
    var s := Select(DepthIndex(m), rowMask);
    FilterSpec(rowMask);
    RankAt(rowMask, k);
    forall j | 0 <= j < Count(rowMask) && j != Rank(rowMask, k)
      ensures s[j] != DepthIndex(m)[k]
    {
      IndexInjective(m, Filter(rowMask)[j], k);
    }
  }

  /** A pixel outside the block's row mask has no row in the block. */
  lemma {:induction false} BlockRowsMiss(m: seq<bool>, rowMask: seq<bool>, k: int)
    requires |rowMask| == |m| && forall k' :: 0 <= k' < |m| && rowMask[k'] ==> m[k']
    requires 0 <= k < |m| && m[k] && !rowMask[k]
    ensures forall j :: 0 <= j < Count(rowMask) ==> Select(DepthIndex(m), rowMask)[j] != DepthIndex(m)[k]
  {
    var s := Select(DepthIndex(m), rowMask);
    FilterSpec(rowMask);
    forall j | 0 <= j < Count(rowMask)
      ensures s[j] != DepthIndex(m)[k]
    {
      IndexInjective(m, Filter(rowMask)[j], k);
    }
  }

  /**
   * A block whose rows are active pixels contributes to the row of pixel k
   * only when k is one of them, and then through the single triplet at k's
   * position in the block, whose column is c.
   */
  lemma {:induction false} BlockRow(m: seq<bool>, rowMask: seq<bool>, cols: seq<int>, v: real, z: seq<real>, k: int, c: int)
    requires |rowMask| == |m| && |cols| == Count(rowMask)
    requires forall k' :: 0 <= k' < |m| && rowMask[k'] ==> m[k']
    requires |z| == Count(m) && AllIn(cols, 0, |z|)
    requires 0 <= k < |m| && m[k]
    requires rowMask[k] ==> Rank(rowMask, k) < |cols| && cols[Rank(rowMask, k)] == c && 0 <= c < |z|
    ensures ColsBelow(Block(m, rowMask, cols, Repeat(v, Count(rowMask))), |z|)
    ensures MatVec(Block(m, rowMask, cols, Repeat(v, Count(rowMask))), z, DepthIndex(m)[k]) ==
      if rowMask[k] then Term(v, z[c]) else 0.0
  {
    var r, rows := DepthIndex(m)[k], Select(DepthIndex(m), rowMask);
    if rowMask[k] {
      BlockRowsHit(m, rowMask, k);
      ZipHit(rows, cols, Repeat(v, Count(rowMask)), z, r, Rank(rowMask, k), c, v);
    } else {
      BlockRowsMiss(m, rowMask, k);
      ZipMiss(rows, cols, Repeat(v, Count(rowMask)), z, r);
    }
  }

  /**
   * Reading the index map through a class mask shifted toward d gives, at
   * the position of pixel k, the index of k's neighbour against d.
   */
  lemma {:induction false} ShiftedColumn(m: seq<bool>, w: int, rowMask: seq<bool>, d: Dir, k: int)
    requires IsGrid(|m|, w) && |rowMask| == |m|
    requires forall k' :: 0 <= k' < |m| && rowMask[k'] ==> Has(|m|, w, k', Opposite(d))
    requires 0 <= k < |m| && rowMask[k]
    ensures Count(Pull(rowMask, w, d)) == Count(rowMask) && Rank(rowMask, k) < Count(rowMask)
    ensures 0 <= Step(w, k, Opposite(d)) < |m|
    ensures Select(DepthIndex(m), Pull(rowMask, w, d))[Rank(rowMask, k)] == DepthIndex(m)[Step(w, k, Opposite(d))]
  {
    ShiftedSelection(rowMask, w, d);
    RankAt(rowMask, k);
    StepInside(|m|, w, k, Opposite(d));
  }

  lemma {:induction false} ZipSix(r1: seq<int>, r2: seq<int>, r3: seq<int>, r4: seq<int>, r5: seq<int>, r6: seq<int>,
               c1: seq<int>, c2: seq<int>, c3: seq<int>, c4: seq<int>, c5: seq<int>, c6: seq<int>,
               v1: seq<real>, v2: seq<real>, v3: seq<real>, v4: seq<real>, v5: seq<real>, v6: seq<real>)
    requires |r1| == |c1| == |v1| && |r2| == |c2| == |v2| && |r3| == |c3| == |v3|
    requires |r4| == |c4| == |v4| && |r5| == |c5| == |v5| && |r6| == |c6| == |v6|
    ensures Zip(r1 + r2 + r3 + r4 + r5 + r6, c1 + c2 + c3 + c4 + c5 + c6, v1 + v2 + v3 + v4 + v5 + v6) ==
      Zip(r1, c1, v1) + Zip(r2, c2, v2) + Zip(r3, c3, v3) + Zip(r4, c4, v4) + Zip(r5, c5, v5) + Zip(r6, c6, v6)
  {
    ZipAppend(r1, c1, v1, r2, c2, v2);
    ZipAppend(r1 + r2, c1 + c2, v1 + v2, r3, c3, v3);
    ZipAppend(r1 + r2 + r3, c1 + c2 + c3, v1 + v2 + v3, r4, c4, v4);
    ZipAppend(r1 + r2 + r3 + r4, c1 + c2 + c3 + c4, v1 + v2 + v3 + v4, r5, c5, v5);
    ZipAppend(r1 + r2 + r3 + r4 + r5, c1 + c2 + c3 + c4 + c5, v1 + v2 + v3 + v4 + v5, r6, c6, v6);
  }

  lemma {:induction false} MatVecSix(t1: seq<Triplet>, t2: seq<Triplet>, t3: seq<Triplet>, t4: seq<Triplet>, t5: seq<Triplet>, t6: seq<Triplet>,
                  z: seq<real>, r: int)
    requires ColsBelow(t1, |z|) && ColsBelow(t2, |z|) && ColsBelow(t3, |z|)
    requires ColsBelow(t4, |z|) && ColsBelow(t5, |z|) && ColsBelow(t6, |z|)
    ensures ColsBelow(t1 + t2 + t3 + t4 + t5 + t6, |z|)
    ensures MatVec(t1 + t2 + t3 + t4 + t5 + t6, z, r) ==
      MatVec(t1, z, r) + MatVec(t2, z, r) + MatVec(t3, z, r) + MatVec(t4, z, r) + MatVec(t5, z, r) + MatVec(t6, z, r)
  {
    MatVecAppend(t1, t2, z, r);
    MatVecAppend(t1 + t2, t3, z, r);
    MatVecAppend(t1 + t2 + t3, t4, z, r);
    MatVecAppend(t1 + t2 + t3 + t4, t5, z, r);
    MatVecAppend(t1 + t2 + t3 + t4 + t5, t6, z, r);
  }

  // ---------------------------------------------------------------------
  // The row of one pixel

  /** Each class mask selects only active pixels. */
  lemma {:induction false} ClassesActive(m: seq<bool>, w: int, axis: Axis)
    requires IsGrid(|m|, w)
    ensures forall k :: 0 <= k < |m| && MissingFwd(m, w, axis)[k] ==> m[k]
    ensures forall k :: 0 <= k < |m| && MissingBwd(m, w, axis)[k] ==> m[k]
    ensures forall k :: 0 <= k < |m| && HasBoth(m, w, axis)[k] ==> m[k]
  {
  }

  /**
   * The six blocks of triplets of one operator, in the source's order; they
   * are well formed once no edge pixel is dropped.
   */
  function Blocks(m: seq<bool>, w: int, axis: Axis): (bs: seq<seq<Triplet>>)
    requires IsGrid(|m|, w) && !EdgeDropped(m, w, axis)
    ensures |bs| == 6
  {
    ShiftCounts(m, w, axis);
    Aligned(m, w, axis);
    var idx, fwd, bwd := DepthIndex(m), Fwd(axis), Bwd(axis);
    var mf, mb, both := MissingFwd(m, w, axis), MissingBwd(m, w, axis), HasBoth(m, w, axis);
    [Block(m, mf, Select(idx, Pull(mf, w, fwd)), Repeat(-1.0, Count(mf))),
     Block(m, mb, Select(idx, Pull(mb, w, bwd)), Repeat(1.0, Count(mb))),
     Block(m, both, Select(idx, Pull(both, w, fwd)), Repeat(-0.5, Count(both))),
     Block(m, mf, Select(idx, mf), Repeat(1.0, Count(Pull(mf, w, fwd)))),
     Block(m, mb, Select(idx, mb), Repeat(-1.0, Count(Pull(mb, w, bwd)))),
     Block(m, both, Select(idx, Pull(both, w, bwd)), Repeat(0.5, Count(both)))]
  }

  /**
   * With no dropped edge pixel the three lists have equal length and their
   * triplets are the six blocks, in order.
   */
  lemma {:induction false} RowTriplets(m: seq<bool>, w: int, axis: Axis)
    requires IsGrid(|m|, w) && !EdgeDropped(m, w, axis)
    ensures |RowList(m, w, axis)| == |ColList(m, w, axis)| == |DataList(m, w, axis)|
    ensures var bs := Blocks(m, w, axis);
      Zip(RowList(m, w, axis), ColList(m, w, axis), DataList(m, w, axis)) == bs[0] + bs[1] + bs[2] + bs[3] + bs[4] + bs[5]
  {
    var idx, fwd, bwd := DepthIndex(m), Fwd(axis), Bwd(axis);
    var mf, mb, both := MissingFwd(m, w, axis), MissingBwd(m, w, axis), HasBoth(m, w, axis);
    ShiftCounts(m, w, axis);
    Aligned(m, w, axis);
    ZipSix(Select(idx, mf), Select(idx, mb), Select(idx, both), Select(idx, mf), Select(idx, mb), Select(idx, both),
      Select(idx, Pull(mf, w, fwd)), Select(idx, Pull(mb, w, bwd)), Select(idx, Pull(both, w, fwd)),
      Select(idx, mf), Select(idx, mb), Select(idx, Pull(both, w, bwd)),
      Repeat(-1.0, Count(mf)), Repeat(1.0, Count(mb)), Repeat(-0.5, Count(both)),
      Repeat(1.0, Count(Pull(mf, w, fwd))), Repeat(-1.0, Count(Pull(mb, w, bwd))), Repeat(0.5, Count(both)));
  }

  /** Any cell's entry in the index map is a valid index once some pixel is active. */
  lemma {:induction false} IndexInRange(m: seq<bool>, s: int, k: int)
    requires 0 <= s < |m| && 0 <= k < |m| && m[k]
    ensures 0 <= DepthIndex(m)[s] < Count(m)
  {
    RankAt(m, k);
    if m[s] {
      DepthIndexAt(m, s);
    }
  }

  /**
   * A block whose columns are its own rows holds, in pixel k's row, v at
   * column c, the index of k itself.
   */
  lemma {:induction false} SelfBlock(m: seq<bool>, rowMask: seq<bool>, v: real, z: seq<real>, k: int, c: int)
    requires |rowMask| == |m| && forall k' :: 0 <= k' < |m| && rowMask[k'] ==> m[k']
    requires |z| == Count(m) && 0 <= k < |m| && m[k] && c == DepthIndex(m)[k]
    ensures 0 <= c < |z|
    ensures ColsBelow(Block(m, rowMask, Select(DepthIndex(m), rowMask), Repeat(v, Count(rowMask))), |z|)
    ensures MatVec(Block(m, rowMask, Select(DepthIndex(m), rowMask), Repeat(v, Count(rowMask))), z, DepthIndex(m)[k]) ==
      if rowMask[k] then Term(v, z[c]) else 0.0
  {
    DepthIndexAt(m, k);
    SelectIndexIn(m, rowMask);
    if rowMask[k] {
      BlockRowsHit(m, rowMask, k);
    }
    BlockRow(m, rowMask, Select(DepthIndex(m), rowMask), v, z, k, c);
  }

  /**
   * A block whose columns are read through its row mask shifted toward d
   * holds, in pixel k's row, v at column c, the index of k's neighbour
   * against d.
   */
  lemma {:induction false} ShiftedBlock(m: seq<bool>, w: int, rowMask: seq<bool>, d: Dir, v: real, z: seq<real>, k: int, c: int)
    requires IsGrid(|m|, w) && |rowMask| == |m|
    requires forall k' :: 0 <= k' < |m| && rowMask[k'] ==> m[k'] && Has(|m|, w, k', Opposite(d))
    requires |z| == Count(m) && 0 <= k < |m| && m[k]
    requires rowMask[k] ==> 0 <= Step(w, k, Opposite(d)) < |m| && c == DepthIndex(m)[Step(w, k, Opposite(d))]
    ensures Count(Pull(rowMask, w, d)) == Count(rowMask)
    ensures rowMask[k] ==> 0 <= c < |z|
    ensures ColsBelow(Block(m, rowMask, Select(DepthIndex(m), Pull(rowMask, w, d)), Repeat(v, Count(rowMask))), |z|)
    ensures MatVec(Block(m, rowMask, Select(DepthIndex(m), Pull(rowMask, w, d)), Repeat(v, Count(rowMask))), z, DepthIndex(m)[k]) ==
      if rowMask[k] then Term(v, z[c]) else 0.0
  {
    ShiftedCount(rowMask, w, d);
    SelectIndexIn(m, Pull(rowMask, w, d));
    if rowMask[k] {
      ShiftedColumn(m, w, rowMask, d, k);
      IndexInRange(m, Step(w, k, Opposite(d)), k);
    }
    BlockRow(m, rowMask, Select(DepthIndex(m), Pull(rowMask, w, d)), v, z, k, c);
  }

  /** Shifting a mask whose true cells all have a cell against d loses none of them. */
  lemma {:induction false} ShiftedCount(x: seq<bool>, w: int, d: Dir)
    requires IsGrid(|x|, w)
    requires forall k :: 0 <= k < |x| && x[k] ==> Has(|x|, w, k, Opposite(d))
    ensures Count(Pull(x, w, d)) == Count(x)
  {
    ShiftedSelection(x, w, d);
  }

  /** The index of k's neighbour in direction d, or the sentinel 0 when k has no cell there. */
  function NeighbourIndex(m: seq<bool>, w: int, k: int, d: Dir): (c: int)
    requires IsGrid(|m|, w) && 0 <= k < |m| && m[k]
    ensures Has(|m|, w, k, d) ==> 0 <= Step(w, k, d) < |m| && c == DepthIndex(m)[Step(w, k, d)]
    ensures 0 <= c < Count(m)
  {
    if Has(|m|, w, k, d) then
      StepInside(|m|, w, k, d);
      IndexInRange(m, Step(w, k, d), k);
      DepthIndex(m)[Step(w, k, d)]
    else
      RankAt(m, k);
      0
  }

  /** Block 1 ("missing forward"): -1 at the cell behind the pixel. */
  lemma {:induction false} MissingFwdBehind(m: seq<bool>, w: int, axis: Axis, z: seq<real>, k: int)
    requires IsGrid(|m|, w) && !EdgeDropped(m, w, axis)
    requires |z| == Count(m) && 0 <= k < |m| && m[k]
    ensures ColsBelow(Blocks(m, w, axis)[0], |z|)
    ensures MatVec(Blocks(m, w, axis)[0], z, DepthIndex(m)[k]) ==
      if MissingFwd(m, w, axis)[k] then Term(-1.0, z[NeighbourIndex(m, w, k, Bwd(axis))]) else 0.0
  {
    Aligned(m, w, axis);
    ClassesActive(m, w, axis);
    AxisDirs(axis);
    ShiftedBlock(m, w, MissingFwd(m, w, axis), Fwd(axis), -1.0, z, k, NeighbourIndex(m, w, k, Bwd(axis)));
  }

  /** Block 4 ("missing forward"): +1 at the pixel itself. */
  lemma {:induction false} MissingFwdSelf(m: seq<bool>, w: int, axis: Axis, z: seq<real>, k: int)
    requires IsGrid(|m|, w) && !EdgeDropped(m, w, axis)
    requires |z| == Count(m) && 0 <= k < |m| && m[k]
    ensures ColsBelow(Blocks(m, w, axis)[3], |z|) && 0 <= DepthIndex(m)[k] < |z|
    ensures MatVec(Blocks(m, w, axis)[3], z, DepthIndex(m)[k]) ==
      if MissingFwd(m, w, axis)[k] then Term(1.0, z[DepthIndex(m)[k]]) else 0.0
  {
    ShiftCounts(m, w, axis);
    ClassesActive(m, w, axis);
    SelfBlock(m, MissingFwd(m, w, axis), 1.0, z, k, DepthIndex(m)[k]);
  }

  /** Block 2 ("missing backward"): +1 at the cell ahead of the pixel. */
  lemma {:induction false} MissingBwdAhead(m: seq<bool>, w: int, axis: Axis, z: seq<real>, k: int)
    requires IsGrid(|m|, w) && !EdgeDropped(m, w, axis)
    requires |z| == Count(m) && 0 <= k < |m| && m[k]
    ensures ColsBelow(Blocks(m, w, axis)[1], |z|)
    ensures MatVec(Blocks(m, w, axis)[1], z, DepthIndex(m)[k]) ==
      if MissingBwd(m, w, axis)[k] then Term(1.0, z[NeighbourIndex(m, w, k, Fwd(axis))]) else 0.0
  {
    Aligned(m, w, axis);
    ClassesActive(m, w, axis);
    AxisDirs(axis);
    ShiftedBlock(m, w, MissingBwd(m, w, axis), Bwd(axis), 1.0, z, k, NeighbourIndex(m, w, k, Fwd(axis)));
  }

  /** Block 5 ("missing backward"): -1 at the pixel itself. */
  lemma {:induction false} MissingBwdSelf(m: seq<bool>, w: int, axis: Axis, z: seq<real>, k: int)
    requires IsGrid(|m|, w) && !EdgeDropped(m, w, axis)
    requires |z| == Count(m) && 0 <= k < |m| && m[k]
    ensures ColsBelow(Blocks(m, w, axis)[4], |z|) && 0 <= DepthIndex(m)[k] < |z|
    ensures MatVec(Blocks(m, w, axis)[4], z, DepthIndex(m)[k]) ==
      if MissingBwd(m, w, axis)[k] then Term(-1.0, z[DepthIndex(m)[k]]) else 0.0
  {
    ShiftCounts(m, w, axis);
    ClassesActive(m, w, axis);
    SelfBlock(m, MissingBwd(m, w, axis), -1.0, z, k, DepthIndex(m)[k]);
  }

  /** Block 3 ("both"): -0.5 at the cell behind the pixel. */
  lemma {:induction false} HasBothBehind(m: seq<bool>, w: int, axis: Axis, z: seq<real>, k: int)
    requires IsGrid(|m|, w) && !EdgeDropped(m, w, axis)
    requires |z| == Count(m) && 0 <= k < |m| && m[k]
    ensures ColsBelow(Blocks(m, w, axis)[2], |z|)
    ensures MatVec(Blocks(m, w, axis)[2], z, DepthIndex(m)[k]) ==
      if HasBoth(m, w, axis)[k] then Term(-0.5, z[NeighbourIndex(m, w, k, Bwd(axis))]) else 0.0
  {
    Aligned(m, w, axis);
    ClassesActive(m, w, axis);
    AxisDirs(axis);
    ShiftedBlock(m, w, HasBoth(m, w, axis), Fwd(axis), -0.5, z, k, NeighbourIndex(m, w, k, Bwd(axis)));
  }

  /** Block 6 ("both"): +0.5 at the cell ahead of the pixel. */
  lemma {:induction false} HasBothAhead(m: seq<bool>, w: int, axis: Axis, z: seq<real>, k: int)
    requires IsGrid(|m|, w) && !EdgeDropped(m, w, axis)
    requires |z| == Count(m) && 0 <= k < |m| && m[k]
    ensures ColsBelow(Blocks(m, w, axis)[5], |z|)
    ensures MatVec(Blocks(m, w, axis)[5], z, DepthIndex(m)[k]) ==
      if HasBoth(m, w, axis)[k] then Term(0.5, z[NeighbourIndex(m, w, k, Fwd(axis))]) else 0.0
  {
    Aligned(m, w, axis);
    ClassesActive(m, w, axis);
    AxisDirs(axis);
    ShiftedBlock(m, w, HasBoth(m, w, axis), Bwd(axis), 0.5, z, k, NeighbourIndex(m, w, k, Fwd(axis)));
  }

  /**
   * Before the division by the step size, the row of active pixel k applied
   * to z is the reference difference at k.
   */
  lemma {:induction false} UndividedRow(m: seq<bool>, w: int, axis: Axis, z: seq<real>, k: int)
    requires IsGrid(|m|, w) && !EdgeDropped(m, w, axis)
    requires |z| == Count(m) && 0 <= k < |m| && m[k]
    ensures |RowList(m, w, axis)| == |ColList(m, w, axis)| == |DataList(m, w, axis)|
    ensures ColsBelow(Zip(RowList(m, w, axis), ColList(m, w, axis), DataList(m, w, axis)), |z|)
    ensures MatVec(Zip(RowList(m, w, axis), ColList(m, w, axis), DataList(m, w, axis)), z, DepthIndex(m)[k]) ==
      Difference(m, w, axis, z, k)
  {
    var bs := Blocks(m, w, axis);
    var r := DepthIndex(m)[k];
    RowTriplets(m, w, axis);
    MissingFwdBehind(m, w, axis, z, k);
    MissingFwdSelf(m, w, axis, z, k);
    MissingBwdAhead(m, w, axis, z, k);
    MissingBwdSelf(m, w, axis, z, k);
    HasBothBehind(m, w, axis, z, k);
    HasBothAhead(m, w, axis, z, k);
    MatVecSix(bs[0], bs[1], bs[2], bs[3], bs[4], bs[5], z, r);
    assert MatVec(bs[0] + bs[1] + bs[2] + bs[3] + bs[4] + bs[5], z, r) ==
      (MatVec(bs[0], z, r) + MatVec(bs[3], z, r)) + (MatVec(bs[1], z, r) + MatVec(bs[4], z, r)) +
      (MatVec(bs[2], z, r) + MatVec(bs[5], z, r));
    Classification(m, w, axis, k);
    PullAt(m, w, Fwd(axis), k);
    PullAt(m, w, Bwd(axis), k);
  }

  // ---------------------------------------------------------------------
  // The operator's rows

  /**
   * The row of active pixel k in the operator, applied to the depths z, is
   * the reference difference at k divided by the step size.
   */
  lemma {:induction false} OperatorRow(m: seq<bool>, w: int, axis: Axis, step: real, z: seq<real>, k: int)
    requires IsGrid(|m|, w) && step != 0.0 && !EdgeDropped(m, w, axis)
    requires |z| == Count(m) && 0 <= k < |m| && m[k]
    ensures DiffOperator(m, w, axis, step).Ok?
    ensures ColsBelow(DiffOperator(m, w, axis, step).value.entries, |z|)
    ensures MatVec(DiffOperator(m, w, axis, step).value.entries, z, DepthIndex(m)[k]) ==
      Difference(m, w, axis, z, k) / step
  {
    DiffOperatorFails(m, w, axis, step);
    UndividedRow(m, w, axis, z, k);
    var rows, cols, vals := RowList(m, w, axis), ColList(m, w, axis), DataList(m, w, axis);
    var d := CooMatrix(rows, cols, vals, Count(m), Count(m)).value;
    assert d.entries == Zip(rows, cols, vals);
    MatVecDivide(d, step, z, DepthIndex(m)[k]);
  }

  // ---------------------------------------------------------------------
  // The entries of one row

  /**
   * The dense entry of the operator in the row of pixel k and column c is
   * the reference difference at k of the c-th unit vector, over the step.
   */
  lemma {:induction false} RowEntry(m: seq<bool>, w: int, axis: Axis, step: real, k: int, c: int)
    requires IsGrid(|m|, w) && step != 0.0 && !EdgeDropped(m, w, axis)
    requires 0 <= k < |m| && m[k] && 0 <= c < Count(m)
    ensures DiffOperator(m, w, axis, step).Ok?
    ensures Entry(DiffOperator(m, w, axis, step).value.entries, DepthIndex(m)[k], c) ==
      Difference(m, w, axis, Unit(Count(m), c), k) / step
  {
    OperatorRow(m, w, axis, step, Unit(Count(m), c), k);
    MatVecUnit(DiffOperator(m, w, axis, step).value.entries, Count(m), c, DepthIndex(m)[k]);
  }

  /** The cells ahead of and behind a pixel are different cells. */
  lemma {:induction false} AheadNotBehind(m: seq<bool>, w: int, axis: Axis, k: int)
    requires IsGrid(|m|, w) && 0 <= k < |m| && m[k]
    requires Neighbour(m, w, k, Fwd(axis)) && Neighbour(m, w, k, Bwd(axis))
    ensures NeighbourIndex(m, w, k, Fwd(axis)) != NeighbourIndex(m, w, k, Bwd(axis))
  {
    StepInside(|m|, w, k, Fwd(axis));
    StepInside(|m|, w, k, Bwd(axis));
    IndexInjective(m, Step(w, k, Fwd(axis)), Step(w, k, Bwd(axis)));
  }

  /** A pixel and its active neighbour have different indices. */
  lemma {:induction false} SelfNotNeighbour(m: seq<bool>, w: int, k: int, d: Dir)
    requires IsGrid(|m|, w) && 0 <= k < |m| && m[k] && Neighbour(m, w, k, d)
    ensures NeighbourIndex(m, w, k, d) != DepthIndex(m)[k]
  {
    StepInside(|m|, w, k, d);
    IndexInjective(m, Step(w, k, d), k);
  }

  /**
   * A pixel with both neighbours active (`has_left_and_right`,
   * `has_bottom_and_top`): -0.5 at the neighbour behind and +0.5 at the
   * neighbour ahead, over the step, and nothing else.
   */
  lemma {:induction false} CentralRow(m: seq<bool>, w: int, axis: Axis, step: real, k: int, c: int)
    requires IsGrid(|m|, w) && step != 0.0 && !EdgeDropped(m, w, axis)
    requires 0 <= k < |m| && m[k] && 0 <= c < Count(m)
    requires Neighbour(m, w, k, Fwd(axis)) && Neighbour(m, w, k, Bwd(axis))
    ensures DiffOperator(m, w, axis, step).Ok?
    ensures NeighbourIndex(m, w, k, Fwd(axis)) != NeighbourIndex(m, w, k, Bwd(axis))
    ensures Entry(DiffOperator(m, w, axis, step).value.entries, DepthIndex(m)[k], c) ==
      (if c == NeighbourIndex(m, w, k, Fwd(axis)) then 0.5
       else if c == NeighbourIndex(m, w, k, Bwd(axis)) then -0.5
       else 0.0) / step
  {
    RowEntry(m, w, axis, step, k, c);
    AheadNotBehind(m, w, axis, k);
  }

  /**
   * A pixel whose only active neighbour is behind it (`has_only_left`,
   * `has_only_bottom`): +1 at the pixel and -1 at that neighbour, over the
   * step, and nothing else.
   */
  lemma {:induction false} BehindRow(m: seq<bool>, w: int, axis: Axis, step: real, k: int, c: int)
    requires IsGrid(|m|, w) && step != 0.0 && !EdgeDropped(m, w, axis)
    requires 0 <= k < |m| && m[k] && 0 <= c < Count(m)
    requires !Neighbour(m, w, k, Fwd(axis)) && Neighbour(m, w, k, Bwd(axis))
    ensures DiffOperator(m, w, axis, step).Ok?
    ensures NeighbourIndex(m, w, k, Bwd(axis)) != DepthIndex(m)[k]
    ensures Entry(DiffOperator(m, w, axis, step).value.entries, DepthIndex(m)[k], c) ==
      (if c == DepthIndex(m)[k] then 1.0
       else if c == NeighbourIndex(m, w, k, Bwd(axis)) then -1.0
       else 0.0) / step
  {
    RowEntry(m, w, axis, step, k, c);
    SelfNotNeighbour(m, w, k, Bwd(axis));
    BehindDifference(m, w, axis, k, c);
  }

  lemma {:induction false} BehindDifference(m: seq<bool>, w: int, axis: Axis, k: int, c: int)
    requires IsGrid(|m|, w) && 0 <= k < |m| && m[k] && 0 <= c < Count(m)
    requires !Neighbour(m, w, k, Fwd(axis)) && Neighbour(m, w, k, Bwd(axis))
    ensures Difference(m, w, axis, Unit(Count(m), c), k) ==
      (if c == DepthIndex(m)[k] then 1.0
       else if c == NeighbourIndex(m, w, k, Bwd(axis)) then -1.0
       else 0.0)
  {
    SelfNotNeighbour(m, w, k, Bwd(axis));
    DepthIndexAt(m, k);
  }

  /**
   * A pixel whose only active neighbour is ahead of it (`has_only_right`,
   * `has_only_top`): +1 at that neighbour and -1 at the pixel, over the
   * step, and nothing else.
   */
  lemma {:induction false} AheadRow(m: seq<bool>, w: int, axis: Axis, step: real, k: int, c: int)
    requires IsGrid(|m|, w) && step != 0.0 && !EdgeDropped(m, w, axis)
    requires 0 <= k < |m| && m[k] && 0 <= c < Count(m)
    requires Neighbour(m, w, k, Fwd(axis)) && !Neighbour(m, w, k, Bwd(axis))
    ensures DiffOperator(m, w, axis, step).Ok?
    ensures NeighbourIndex(m, w, k, Fwd(axis)) != DepthIndex(m)[k]
    ensures Entry(DiffOperator(m, w, axis, step).value.entries, DepthIndex(m)[k], c) ==
      (if c == NeighbourIndex(m, w, k, Fwd(axis)) then 1.0
       else if c == DepthIndex(m)[k] then -1.0
       else 0.0) / step
  {
    RowEntry(m, w, axis, step, k, c);
    SelfNotNeighbour(m, w, k, Fwd(axis));
    AheadDifference(m, w, axis, k, c);
  }

  lemma {:induction false} AheadDifference(m: seq<bool>, w: int, axis: Axis, k: int, c: int)
    requires IsGrid(|m|, w) && 0 <= k < |m| && m[k] && 0 <= c < Count(m)
    requires Neighbour(m, w, k, Fwd(axis)) && !Neighbour(m, w, k, Bwd(axis))
    ensures Difference(m, w, axis, Unit(Count(m), c), k) ==
      (if c == NeighbourIndex(m, w, k, Fwd(axis)) then 1.0
       else if c == DepthIndex(m)[k] then -1.0
       else 0.0)
  {
    SelfNotNeighbour(m, w, k, Fwd(axis));
    DepthIndexAt(m, k);
  }

  /**
   * A pixel with no active neighbour on the axis sits in both one-sided
   * classes; its four triplets cancel once duplicates are summed, leaving an
   * all-zero row.
   */
  lemma {:induction false} IsolatedRow(m: seq<bool>, w: int, axis: Axis, step: real, k: int, c: int)
    requires IsGrid(|m|, w) && step != 0.0 && !EdgeDropped(m, w, axis)
    requires 0 <= k < |m| && m[k] && 0 <= c < Count(m)
    requires !Neighbour(m, w, k, Fwd(axis)) && !Neighbour(m, w, k, Bwd(axis))
    ensures DiffOperator(m, w, axis, step).Ok?
    ensures MissingFwd(m, w, axis)[k] && MissingBwd(m, w, axis)[k]
    ensures Entry(DiffOperator(m, w, axis, step).value.entries, DepthIndex(m)[k], c) == 0.0
  {
    RowEntry(m, w, axis, step, k, c);
    Classification(m, w, axis, k);
    NoNeighbourDifference(m, w, axis, Unit(Count(m), c), k);
    ZeroOver(Difference(m, w, axis, Unit(Count(m), c), k), step);
  }

  /** Without active neighbours the difference is zero, whatever the depths. */
  lemma {:induction false} NoNeighbourDifference(m: seq<bool>, w: int, axis: Axis, z: seq<real>, k: int)
    requires IsGrid(|m|, w) && 0 <= k < |m| && m[k] && |z| == Count(m)
    requires !Neighbour(m, w, k, Fwd(axis)) && !Neighbour(m, w, k, Bwd(axis))
    ensures Difference(m, w, axis, z, k) == 0.0
  {
  }

  lemma {:induction false} ZeroOver(x: real, step: real)
    requires x == 0.0 && step != 0.0
    ensures x / step == 0.0
  {
  }

  // ---------------------------------------------------------------------
  // Constant depths

  /**
   * A constant depth vector has zero gradient: the row of every active pixel
   * maps it to 0.
   */
  lemma {:induction false} ConstantRow(m: seq<bool>, w: int, axis: Axis, step: real, a: real, k: int)
    requires IsGrid(|m|, w) && step != 0.0 && !EdgeDropped(m, w, axis)
    requires 0 <= k < |m| && m[k]
    ensures DiffOperator(m, w, axis, step).Ok?
    ensures ColsBelow(DiffOperator(m, w, axis, step).value.entries, Count(m))
    ensures MatVec(DiffOperator(m, w, axis, step).value.entries, Constant(Count(m), a), DepthIndex(m)[k]) == 0.0
  {
    ConstantDifference(m, w, axis, a, k);
    OperatorRow(m, w, axis, step, Constant(Count(m), a), k);
    ZeroOver(Difference(m, w, axis, Constant(Count(m), a), k), step);
  }

  /** The reference difference of a constant vector is zero. */
  lemma {:induction false} ConstantDifference(m: seq<bool>, w: int, axis: Axis, a: real, k: int)
    requires IsGrid(|m|, w) && 0 <= k < |m| && m[k]
    ensures Difference(m, w, axis, Constant(Count(m), a), k) == 0.0
  {
    DepthIndexAt(m, k);
    if Neighbour(m, w, k, Fwd(axis)) {
      StepInside(|m|, w, k, Fwd(axis));
      DepthIndexAt(m, Step(w, k, Fwd(axis)));
    }
    if Neighbour(m, w, k, Bwd(axis)) {
      StepInside(|m|, w, k, Bwd(axis));
      DepthIndexAt(m, Step(w, k, Bwd(axis)));
    }
  }

  /** Every row of the operator sums to zero once duplicate triplets are summed. */
  lemma {:induction false} RowSumZero(m: seq<bool>, w: int, axis: Axis, step: real, r: int)
    requires IsGrid(|m|, w) && step != 0.0 && !EdgeDropped(m, w, axis)
    requires 0 <= r < Count(m)
    ensures DiffOperator(m, w, axis, step).Ok?
    ensures RowSum(DiffOperator(m, w, axis, step).value.entries, r) == 0.0
  {
    RankOfFilter(m, r);
    var k := Filter(m)[r];
    DepthIndexAt(m, k);
    ConstantRow(m, w, axis, step, 1.0, k);
    ZeroRowSum(DiffOperator(m, w, axis, step).value.entries, Count(m), r);
  }

  /** A row that maps the all-ones vector to zero has stored values summing to zero. */
  lemma {:induction false} ZeroRowSum(ts: seq<Triplet>, n: nat, r: int)
    requires ColsBelow(ts, n) && MatVec(ts, Constant(n, 1.0), r) == 0.0
    ensures RowSum(ts, r) == 0.0
  {
    MatVecConstant(ts, n, 1.0, r);
  }
}
