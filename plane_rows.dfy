/**
 * The plane-equation rows of the perspective plane fitting, over any lists
 * of pixel indices: pixel p has a list ids[p] that starts with p itself,
 * and every entry q of it gives one row
 *
 *     n(p) · p̃(q) z(q) + d(p)
 *
 * over the unknowns y = (z, d), of length 2 · |ids|. The lists are
 * flattened into `col_idx` (their concatenation) and `A_right_col` (the
 * owner of each entry), and the matrix is assembled as
 * A = [A_left | A_right] from two COO matrices whose shapes are inferred
 * from those indices.
 */
module PlaneRows {
  import opened Sparse
  import opened Vectors
  import opened Lists

  // ---------------------------------------------------------------------
  // Per-pixel lists flattened into rows

  /**
   * Lists indexed by pixel, where list p starts with p itself and names
   * only pixels, as the neighbour lists do.
   */
  predicate Owned(ids: seq<seq<int>>)
  {
    forall p :: 0 <= p < |ids| ==> |ids[p]| >= 1 && ids[p][0] == p && AllIn(ids[p], 0, |ids|)
  }

  /** `A_right_col`: each entry of the concatenated lists labelled with the pixel whose list it is in. */
  function Owners(ids: seq<seq<int>>): (o: seq<int>)
    ensures |o| == |Concat(ids)|
  {
    RepeatEach(Range(|ids|), Lengths(ids))
  }

  /** Entry a of list p is at position Sum(lengths before p) + a, and p owns it. */
  lemma {:induction false} EntryOwner(ids: seq<seq<int>>, p: int, a: int, r: int)
    requires 0 <= p < |ids| && 0 <= a < |ids[p]| && r == Sum(Lengths(ids)[..p]) + a
    ensures 0 <= r < |Concat(ids)| && Concat(ids)[r] == ids[p][a] && Owners(ids)[r] == p
  {
    ConcatAt(ids, p, a, r);
    RepeatEachAt(Range(|ids|), Lengths(ids), p, a, r);
  }

  /** Every position is entry a of some list p, and p owns it. */
  lemma {:induction false} LocateEntry(ids: seq<seq<int>>, r: int) returns (p: int, a: int)
    requires 0 <= r < |Concat(ids)|
    ensures 0 <= p < |ids| && 0 <= a < |ids[p]| && r == Sum(Lengths(ids)[..p]) + a
    ensures Concat(ids)[r] == ids[p][a] && Owners(ids)[r] == p
  {
    p, a := ConcatLocate(ids, r);
    EntryOwner(ids, p, a, r);
  }

  /**
   * Pixel p owns exactly the |ids[p]| consecutive positions that start at
   * Sum(lengths before p).
   */
  lemma {:induction false} OwnerBlock(ids: seq<seq<int>>, p: int, r: int)
    requires 0 <= p < |ids| && 0 <= r < |Concat(ids)|
    ensures Owners(ids)[r] == p <==> Sum(Lengths(ids)[..p]) <= r < Sum(Lengths(ids)[..p]) + |ids[p]|
  {
    var lens := Lengths(ids);
    var q, b := LocateEntry(ids, r);
    if q < p {
      BlocksOrdered(lens, q, b, p, 0);
    } else if p < q {
      SumStep(lens, p);
      SumMono(lens, p + 1, q);
    }
  }

  /** The owners never decrease along the positions. */
  lemma {:induction false} OwnersSorted(ids: seq<seq<int>>, r1: int, r2: int)
    requires 0 <= r1 <= r2 < |Concat(ids)|
    ensures 0 <= Owners(ids)[r1] <= Owners(ids)[r2] < |ids|
  {
    var p1, a1 := LocateEntry(ids, r1);
    var p2, a2 := LocateEntry(ids, r2);
    if p2 < p1 {
      BlocksOrdered(Lengths(ids), p2, a2, p1, a1);
    }
  }

  /** Owned lists have at least one entry per pixel, so none exactly when there is no pixel. */
  lemma {:induction false} OwnedCount(ids: seq<seq<int>>)
    requires Owned(ids)
    ensures |Concat(ids)| >= |ids|
    ensures |Concat(ids)| == 0 <==> |ids| == 0
  {
    var lens := Lengths(ids);
    SumAtLeast(lens);
    if |ids| == 0 {
      assert lens == [];
    }
  }

  /** Every entry and every owner of owned lists is a pixel. */
  lemma {:induction false} OwnedEntries(ids: seq<seq<int>>)
    requires Owned(ids)
    ensures AllIn(Concat(ids), 0, |ids|) && AllIn(Owners(ids), 0, |ids|)
  {
    forall r | 0 <= r < |Concat(ids)|
      ensures 0 <= Concat(ids)[r] < |ids| && 0 <= Owners(ids)[r] < |ids|
    {
      var p, a := LocateEntry(ids, r);
    }
  }

  /**
   * The last pixel's list starts with itself, so the largest entry and the
   * largest owner are both the last pixel.
   */
  lemma {:induction false} OwnedLast(ids: seq<seq<int>>)
    requires Owned(ids) && |ids| > 0
    ensures |Concat(ids)| > 0 && Max(Concat(ids)) == |ids| - 1 && Max(Owners(ids)) == |ids| - 1
  {
    var n := |ids|;
    var r := Sum(Lengths(ids)[..n - 1]);
    EntryOwner(ids, n - 1, 0, r);
    OwnedEntries(ids);
    MaxIs(Concat(ids), n - 1, r);
    MaxIs(Owners(ids), n - 1, r);
  }

  // ---------------------------------------------------------------------
  // The two blocks and the matrix

  /** Owned lists with one normal and one ray per pixel. */
  predicate Fitting(ids: seq<seq<int>>, normals: seq<Vec3>, rays: seq<Vec3>)
  {
    Owned(ids) && |normals| == |ids| && |rays| == |ids|
  }

  /** `A_left_data`: for row r, the owner's normal against the ray of the pixel in column r. */
  function Coefficients(ids: seq<seq<int>>, normals: seq<Vec3>, rays: seq<Vec3>): (v: seq<real>)
    requires Fitting(ids, normals, rays)
    ensures |v| == |Concat(ids)|
  {
    OwnedEntries(ids);
    var nvec := RepeatEach(normals, Lengths(ids));
    var cols := Concat(ids);
    seq(|cols|, r requires 0 <= r < |cols| => Dot(nvec[r], rays[cols[r]]))
  }

  /** `A_left`: row r holds its coefficient at column `col_idx[r]`, the shape inferred. */
  function LeftBlock(ids: seq<seq<int>>, normals: seq<Vec3>, rays: seq<Vec3>): Result<Coo>
    requires Fitting(ids, normals, rays)
  {
    CooInferred(Range(|Concat(ids)|), Concat(ids), Coefficients(ids, normals, rays))
  }

  /** `A_right`: row r holds a 1 at the column of its owner, the shape inferred. */
  function RightBlock(ids: seq<seq<int>>): Result<Coo>
  {
    CooInferred(Range(|Concat(ids)|), Owners(ids), seq(|Concat(ids)|, _ => 1.0))
  }

  /** `A = hstack([A_left, A_right])`; the first failure, if any, is the result. */
  function PlaneMatrix(ids: seq<seq<int>>, normals: seq<Vec3>, rays: seq<Vec3>): Result<Coo>
    requires Fitting(ids, normals, rays)
  {
    match LeftBlock(ids, normals, rays)
    case Err(e) => Err(e)
    case Ok(left) =>
      match RightBlock(ids)
      case Err(e) => Err(e)
      case Ok(right) => HStack(left, right)
  }

  /** The coefficient of row r is the owner's normal against the ray of the column's pixel. */
  lemma {:induction false} CoefficientAt(ids: seq<seq<int>>, normals: seq<Vec3>, rays: seq<Vec3>, r: int)
    requires Fitting(ids, normals, rays) && 0 <= r < |Concat(ids)|
    ensures 0 <= Owners(ids)[r] < |ids| && 0 <= Concat(ids)[r] < |ids|
    ensures Coefficients(ids, normals, rays)[r] == Dot(normals[Owners(ids)[r]], rays[Concat(ids)[r]])
  {
    OwnedEntries(ids);
    var p, b := LocateEntry(ids, r);
    RepeatEachAt(normals, Lengths(ids), p, b, r);
  }

  /**
   * The COO constructor without a shape, given the rows 0 .. m-1 and a
   * column list whose entries lie in [0, n) and reach n - 1: it fails
   * exactly on empty lists, and otherwise builds an m × n matrix with one
   * entry per row.
   */
  lemma {:induction false} InferredRows(cols: seq<int>, vals: seq<real>, n: int)
    requires |cols| == |vals| && (|cols| > 0 ==> AllIn(cols, 0, n) && Max(cols) == n - 1)
    ensures var c := CooInferred(Range(|cols|), cols, vals);
      (c.Ok? <==> |cols| > 0) &&
      (c.Ok? ==>
        WellFormed(c.value) && c.value.nrows == |cols| && c.value.ncols == n && |c.value.entries| == |cols| &&
        forall r :: 0 <= r < |cols| ==> c.value.entries[r] == Triplet(r, cols[r], vals[r]))
  {
    var m := |cols|;
    if m > 0 {
      MaxIs(Range(m), m - 1, m - 1);
    }
  }

  /**
   * A_left is built exactly when there is a pixel; it is then
   * (number of entries) × (number of pixels), and row r holds the one
   * entry n(owner) · p̃(col_idx[r]) at column col_idx[r].
   */
  lemma {:induction false} LeftShape(ids: seq<seq<int>>, normals: seq<Vec3>, rays: seq<Vec3>)
    requires Fitting(ids, normals, rays)
    ensures LeftBlock(ids, normals, rays).Ok? <==> |ids| > 0
    ensures LeftBlock(ids, normals, rays).Ok? ==>
      var left := LeftBlock(ids, normals, rays).value;
      WellFormed(left) && left.nrows == |Concat(ids)| && left.ncols == |ids| && |left.entries| == |Concat(ids)| &&
      forall r :: 0 <= r < |left.entries| ==>
        left.entries[r] == Triplet(r, Concat(ids)[r], Coefficients(ids, normals, rays)[r])
  {
    OwnedCount(ids);
    if |ids| > 0 {
      OwnedLast(ids);
      OwnedEntries(ids);
    }
    InferredRows(Concat(ids), Coefficients(ids, normals, rays), |ids|);
  }

  /**
   * A_right is built exactly when there is a pixel; it is then
   * (number of entries) × (number of pixels), and row r holds the one
   * entry 1 at the column of its owner.
   */
  lemma {:induction false} RightShape(ids: seq<seq<int>>)
    requires Owned(ids)
    ensures RightBlock(ids).Ok? <==> |ids| > 0
    ensures RightBlock(ids).Ok? ==>
      var right := RightBlock(ids).value;
      WellFormed(right) && right.nrows == |Concat(ids)| && right.ncols == |ids| && |right.entries| == |Concat(ids)| &&
      forall r :: 0 <= r < |right.entries| ==> right.entries[r] == Triplet(r, Owners(ids)[r], 1.0)
  {
    OwnedCount(ids);
    if |ids| > 0 {
      OwnedLast(ids);
      OwnedEntries(ids);
    }
    InferredRows(Owners(ids), seq(|Concat(ids)|, _ => 1.0), |ids|);
  }

  /**
   * A is built exactly when there is a pixel (the inferred shapes fail on
   * empty index lists); it then has one row per entry and 2 · |ids|
   * columns, with A_right's columns after A_left's.
   */
  lemma {:induction false} MatrixShape(ids: seq<seq<int>>, normals: seq<Vec3>, rays: seq<Vec3>)
    requires Fitting(ids, normals, rays)
    ensures PlaneMatrix(ids, normals, rays).Ok? <==> |ids| > 0
    ensures PlaneMatrix(ids, normals, rays).Ok? ==>
      var a := PlaneMatrix(ids, normals, rays).value;
      WellFormed(a) && a.nrows == |Concat(ids)| && a.ncols == 2 * |ids| &&
      a.entries == LeftBlock(ids, normals, rays).value.entries + ShiftCols(RightBlock(ids).value.entries, |ids|)
  {
    LeftShape(ids, normals, rays);
    RightShape(ids);
  }

  /**
   * Two blocks of triplets side by side: one triplet per row in each, rows
   * in order, columns below n, the second block shifted n columns right.
   */
  predicate SideBySide(entries: seq<Triplet>, left: seq<Triplet>, right: seq<Triplet>, n: int)
  {
    entries == left + ShiftCols(right, n) && |left| == |right| && ColsBelow(left, n) && ColsBelow(right, n) &&
    RowPerEntry(left) && RowPerEntry(right)
  }

  /** Triplet j sits in row j. */
  predicate RowPerEntry(ts: seq<Triplet>)
  {
    forall j :: 0 <= j < |ts| ==> ts[j].row == j
  }

  /** Row r of side-by-side blocks: v at column q on the left, 1 at column p on the right. */
  predicate RowPair(entries: seq<Triplet>, left: seq<Triplet>, right: seq<Triplet>, n: int, r: int, q: int, p: int, v: real)
  {
    SideBySide(entries, left, right, n) && 0 <= r < |left| &&
    left[r] == Triplet(r, q, v) && right[r] == Triplet(r, p, 1.0)
  }

  /** With one triplet per row, row r of the product is that triplet's value times its column's entry. */
  lemma {:induction false} SingleEntryRow(ts: seq<Triplet>, z: seq<real>, r: int, c: int, v: real)
    requires RowPerEntry(ts) && ColsBelow(ts, |z|) && 0 <= r < |ts| && ts[r] == Triplet(r, c, v)
    ensures 0 <= c < |z| && MatVec(ts, z, r) == v * z[c]
  {
    MatVecOneRow(ts, z, r, r);
  }

  /**
   * The column facts of side-by-side blocks: the shifted block is one
   * triplet per row below 2n, and row r of it holds the 1 at n + p.
   */
  lemma {:induction false} ShiftedBlock(entries: seq<Triplet>, left: seq<Triplet>, right: seq<Triplet>, n: int, r: int, p: int)
    requires SideBySide(entries, left, right, n) && 0 <= r < |right| && right[r] == Triplet(r, p, 1.0)
    ensures RowPerEntry(ShiftCols(right, n)) && ColsBelow(ShiftCols(right, n), 2 * n) && ColsBelow(left, 2 * n)
    ensures ShiftCols(right, n)[r] == Triplet(r, n + p, 1.0)
  {
  }

  /**
   * When row r holds v at column q in the first block and a 1 at column p
   * in the second, row r of the product with y is v · y[q] + y[n + p].
   */
  lemma {:induction false} PairedRow(entries: seq<Triplet>, left: seq<Triplet>, right: seq<Triplet>, n: int,
                                     y: seq<real>, r: int, q: int, p: int, v: real)
    requires RowPair(entries, left, right, n, r, q, p, v) && |y| == 2 * n
    ensures ColsBelow(entries, |y|) && 0 <= q < |y| && 0 <= n + p < |y|
    ensures MatVec(entries, y, r) == v * y[q] + y[n + p]
  {
    var shifted := ShiftCols(right, n);
    ShiftedBlock(entries, left, right, n, r, p);
    SingleEntryRow(left, y, r, q, v);
    SingleEntryRow(shifted, y, r, n + p, 1.0);
    MatVecAppend(left, shifted, y, r);
  }

  /**
   * Row r of A is the pair of its A_left and A_right rows: n(owner) · p̃(col)
   * at the column index, and a 1 at the owner.
   */
  lemma {:induction false} RowTriplets(ids: seq<seq<int>>, normals: seq<Vec3>, rays: seq<Vec3>, r: int)
    returns (left: seq<Triplet>, right: seq<Triplet>)
    requires Fitting(ids, normals, rays) && PlaneMatrix(ids, normals, rays).Ok? && 0 <= r < |Concat(ids)|
    ensures LeftBlock(ids, normals, rays).Ok? && left == LeftBlock(ids, normals, rays).value.entries
    ensures RightBlock(ids).Ok? && right == RightBlock(ids).value.entries
    ensures var p, q := Owners(ids)[r], Concat(ids)[r];
      0 <= p < |ids| && 0 <= q < |ids| &&
      RowPair(PlaneMatrix(ids, normals, rays).value.entries, left, right, |ids|, r, q, p, Dot(normals[p], rays[q]))
  {
    MatrixShape(ids, normals, rays);
    LeftShape(ids, normals, rays);
    RightShape(ids);
    CoefficientAt(ids, normals, rays, r);
    left, right := LeftBlock(ids, normals, rays).value.entries, RightBlock(ids).value.entries;
  }

  /**
   * Row r of A against the unknowns y = (z, d): with p the owner of the
   * row and q its column index, it is n(p) · (p̃(q) z(q)) + d(p), the
   * plane equation of p's tangent plane at q's point.
   */
  lemma {:induction false} PlaneRow(ids: seq<seq<int>>, normals: seq<Vec3>, rays: seq<Vec3>, y: seq<real>, r: int)
    requires Fitting(ids, normals, rays) && PlaneMatrix(ids, normals, rays).Ok?
    requires |y| == 2 * |ids| && 0 <= r < |Concat(ids)|
    ensures var a, p, q := PlaneMatrix(ids, normals, rays).value, Owners(ids)[r], Concat(ids)[r];
      0 <= p < |ids| && 0 <= q < |ids| && ColsBelow(a.entries, |y|) &&
      MatVec(a.entries, y, r) == Dot(normals[p], Scale(rays[q], y[q])) + y[|ids| + p]
  {
    var left, right := RowTriplets(ids, normals, rays, r);
    OwnedRow(PlaneMatrix(ids, normals, rays).value.entries, left, right, ids, normals, rays, y, r);
  }

  /**
   * Row r of side-by-side blocks over owned lists, with owner p and column
   * q, evaluates to n(p) · (p̃(q) y[q]) + y[|ids| + p].
   */
  lemma {:induction false} OwnedRow(entries: seq<Triplet>, left: seq<Triplet>, right: seq<Triplet>,
                                    ids: seq<seq<int>>, normals: seq<Vec3>, rays: seq<Vec3>, y: seq<real>, r: int)
    requires Fitting(ids, normals, rays) && |y| == 2 * |ids| && 0 <= r < |Concat(ids)|
    requires var p, q := Owners(ids)[r], Concat(ids)[r];
      0 <= p < |ids| && 0 <= q < |ids| &&
      RowPair(entries, left, right, |ids|, r, q, p, Dot(normals[p], rays[q]))
    ensures var p, q := Owners(ids)[r], Concat(ids)[r];
      0 <= p < |ids| && 0 <= q < |ids| && ColsBelow(entries, |y|) &&
      MatVec(entries, y, r) == Dot(normals[p], Scale(rays[q], y[q])) + y[|ids| + p]
  {
    var p, q := Owners(ids)[r], Concat(ids)[r];
    PairedRow(entries, left, right, |ids|, y, r, q, p, Dot(normals[p], rays[q]));
    DotScale(normals[p], rays[q], y[q]);
  }
}
