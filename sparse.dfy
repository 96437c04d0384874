/**
 * Sparse matrices in coordinate (COO) form, as the assembly code builds them:
 * three parallel lists (row, column, value) turned into a matrix whose
 * duplicate coordinates are summed. Only the checks that the COO constructor
 * performs on its input, the scaling by a scalar and the horizontal and
 * vertical stacking are modelled; the matrix is observed through its
 * product with a vector (`MatVec`) and its dense entries (`Entry`), both of
 * which sum duplicates.
 */
module Sparse {
  import opened Lists

  datatype Result<T> = Ok(value: T) | Err(msg: string)

  /** One stored coordinate of a COO matrix. */
  datatype Triplet = Triplet(row: int, col: int, val: real)

  /** A COO matrix: its shape and its stored triplets (duplicates allowed). */
  datatype Coo = Coo(nrows: nat, ncols: nat, entries: seq<Triplet>)

  predicate InShape(ts: seq<Triplet>, nrows: int, ncols: int)
  {
    forall j :: 0 <= j < |ts| ==> 0 <= ts[j].row < nrows && 0 <= ts[j].col < ncols
  }

  predicate WellFormed(m: Coo)
  {
    InShape(m.entries, m.nrows, m.ncols)
  }

  /** The triplets of three parallel lists, position by position. */
  function Zip(rows: seq<int>, cols: seq<int>, vals: seq<real>): (ts: seq<Triplet>)
    requires |rows| == |cols| == |vals|
    ensures |ts| == |rows|
    ensures forall j :: 0 <= j < |ts| ==> ts[j] == Triplet(rows[j], cols[j], vals[j])
  {
    seq(|rows|, j requires 0 <= j < |rows| => Triplet(rows[j], cols[j], vals[j]))
  }

  /**
   * The COO constructor with an explicit shape: it refuses lists of unequal
   * length and indices outside the shape.
   */
  function CooMatrix(rows: seq<int>, cols: seq<int>, vals: seq<real>, nrows: nat, ncols: nat): (r: Result<Coo>)
    ensures r.Ok? <==> |rows| == |cols| == |vals| && AllIn(rows, 0, nrows) && AllIn(cols, 0, ncols)
    ensures r.Ok? ==> WellFormed(r.value) && r.value.nrows == nrows && r.value.ncols == ncols
    ensures r.Ok? ==> |r.value.entries| == |rows|
    ensures r.Ok? ==> forall j :: 0 <= j < |rows| ==> r.value.entries[j] == Triplet(rows[j], cols[j], vals[j])
  {
    if !(|rows| == |cols| == |vals|) then Err("row, column, and data array must all be the same length")
    else if !AllIn(rows, 0, nrows) then Err("row index exceeds matrix dimensions")
    else if !AllIn(cols, 0, ncols) then Err("column index exceeds matrix dimensions")
    else Ok(Coo(nrows, ncols, Zip(rows, cols, vals)))
  }

  /** The largest element of a non-empty list. */
  function Max(s: seq<int>): (m: int)
    requires |s| > 0
    ensures forall j :: 0 <= j < |s| ==> s[j] <= m
    ensures exists j :: 0 <= j < |s| && s[j] == m
  {
    if |s| == 1 then s[0]
    else
      var rest := Max(s[1..]);
      assert forall j :: 1 <= j < |s| ==> s[j] == s[1..][j - 1];
      if s[0] >= rest then s[0] else rest
  }

  /** A bound that some element reaches is the largest element. */
  lemma {:induction false} MaxIs(s: seq<int>, v: int, j0: int)
    requires 0 <= j0 < |s| && s[j0] == v && forall j :: 0 <= j < |s| ==> s[j] <= v
    ensures Max(s) == v
  {
  }

  /**
   * The COO constructor without a shape: the shape is inferred as one more
   * than the largest row and column index, which fails on empty lists.
   */
  function CooInferred(rows: seq<int>, cols: seq<int>, vals: seq<real>): (r: Result<Coo>)
    ensures r.Ok? <==> |rows| == |cols| == |vals| && |rows| > 0 && AllIn(rows, 0, Max(rows) + 1) && AllIn(cols, 0, Max(cols) + 1)
    ensures r.Ok? ==> WellFormed(r.value) && r.value.nrows == Max(rows) + 1 && r.value.ncols == Max(cols) + 1
    ensures r.Ok? ==> |r.value.entries| == |rows|
    ensures r.Ok? ==> forall j :: 0 <= j < |rows| ==> r.value.entries[j] == Triplet(rows[j], cols[j], vals[j])
  {
    if !(|rows| == |cols| == |vals|) then Err("row, column, and data array must all be the same length")
    else if |rows| == 0 then Err("cannot infer dimensions from zero sized index arrays")
    else if !AllIn(rows, 0, Max(rows) + 1) then Err("negative row index found")
    else if !AllIn(cols, 0, Max(cols) + 1) then Err("negative column index found")
    else CooMatrix(rows, cols, vals, Max(rows) + 1, Max(cols) + 1)
  }

  /** Every stored value divided by `s` (the matrix divided by a scalar). */
  function Divide(m: Coo, s: real): (d: Coo)
    requires s != 0.0
    ensures d.nrows == m.nrows && d.ncols == m.ncols && |d.entries| == |m.entries|
    ensures WellFormed(m) ==> WellFormed(d)
    ensures forall j :: 0 <= j < |m.entries| ==>
      d.entries[j].row == m.entries[j].row && d.entries[j].col == m.entries[j].col && d.entries[j].val == m.entries[j].val / s
  {
    Coo(m.nrows, m.ncols, seq(|m.entries|, j requires 0 <= j < |m.entries| =>
      Triplet(m.entries[j].row, m.entries[j].col, m.entries[j].val / s)))
  }

  function ShiftRows(ts: seq<Triplet>, delta: int): (r: seq<Triplet>)
    ensures |r| == |ts|
    ensures forall j :: 0 <= j < |ts| ==> r[j] == Triplet(ts[j].row + delta, ts[j].col, ts[j].val)
  {
    seq(|ts|, j requires 0 <= j < |ts| => Triplet(ts[j].row + delta, ts[j].col, ts[j].val))
  }

  function ShiftCols(ts: seq<Triplet>, delta: int): (r: seq<Triplet>)
    ensures |r| == |ts|
    ensures forall j :: 0 <= j < |ts| ==> r[j] == Triplet(ts[j].row, ts[j].col + delta, ts[j].val)
  {
    seq(|ts|, j requires 0 <= j < |ts| => Triplet(ts[j].row, ts[j].col + delta, ts[j].val))
  }

  /** `top` stacked over `bottom`; the column counts must agree. */
  function VStack(top: Coo, bottom: Coo): (r: Result<Coo>)
    ensures r.Ok? <==> top.ncols == bottom.ncols
    ensures r.Ok? ==> r.value.nrows == top.nrows + bottom.nrows && r.value.ncols == top.ncols
    ensures r.Ok? && WellFormed(top) && WellFormed(bottom) ==> WellFormed(r.value)
  {
    if top.ncols != bottom.ncols then Err("blocks[1,:] has incompatible column dimensions")
    else Ok(Coo(top.nrows + bottom.nrows, top.ncols, top.entries + ShiftRows(bottom.entries, top.nrows)))
  }

  /** `left` beside `right`; the row counts must agree. */
  function HStack(left: Coo, right: Coo): (r: Result<Coo>)
    ensures r.Ok? <==> left.nrows == right.nrows
    ensures r.Ok? ==> r.value.nrows == left.nrows && r.value.ncols == left.ncols + right.ncols
    ensures r.Ok? && WellFormed(left) && WellFormed(right) ==> WellFormed(r.value)
  {
    if left.nrows != right.nrows then Err("blocks[0,:] has incompatible row dimensions")
    else Ok(Coo(left.nrows, left.ncols + right.ncols, left.entries + ShiftCols(right.entries, left.ncols)))
  }

  /**
   * Row `r` of the product of the matrix held by `ts` with `z`: every stored
   * triplet of that row contributes, so duplicates are summed.
   */
  function MatVec(ts: seq<Triplet>, z: seq<real>, r: int): real
    requires ColsBelow(ts, |z|)
  {
    if |ts| == 0 then 0.0
    else Contribution(ts[0], z, r) + MatVec(ts[1..], z, r)
  }

  /** What the triplet t adds to row r of the product with z. */
  function Contribution(t: Triplet, z: seq<real>, r: int): real
    requires 0 <= t.col < |z|
  {
    if t.row == r then t.val * z[t.col] else 0.0
  }

  /** The dense entry at (r, c): the sum of the values stored there. */
  function Entry(ts: seq<Triplet>, r: int, c: int): real
  {
    if |ts| == 0 then 0.0
    else (if ts[0].row == r && ts[0].col == c then ts[0].val else 0.0) + Entry(ts[1..], r, c)
  }

  /** The sum of the values stored in row r. */
  function RowSum(ts: seq<Triplet>, r: int): real
  {
    if |ts| == 0 then 0.0
    else (if ts[0].row == r then ts[0].val else 0.0) + RowSum(ts[1..], r)
  }

  function Constant(n: nat, a: real): (v: seq<real>)
    ensures |v| == n && forall j :: 0 <= j < n ==> v[j] == a
  {
    seq(n, _ => a)
  }

  function Unit(n: nat, c: nat): (v: seq<real>)
    ensures |v| == n && forall j :: 0 <= j < n ==> v[j] == if j == c then 1.0 else 0.0
  {
    seq(n, j => if j == c then 1.0 else 0.0)
  }

  /** The entrywise sum of two vectors. */
  function Plus(a: seq<real>, b: seq<real>): (s: seq<real>)
    requires |a| == |b|
    ensures |s| == |a| && forall j :: 0 <= j < |a| ==> s[j] == a[j] + b[j]
  {
    seq(|a|, j requires 0 <= j < |a| => a[j] + b[j])
  }

  predicate ColsBelow(ts: seq<Triplet>, n: int)
  {
    forall j :: 0 <= j < |ts| ==> 0 <= ts[j].col < n
  }

  lemma {:induction false} ZipAppend(a1: seq<int>, b1: seq<int>, c1: seq<real>, a2: seq<int>, b2: seq<int>, c2: seq<real>)
    requires |a1| == |b1| == |c1| && |a2| == |b2| == |c2|
    ensures Zip(a1 + a2, b1 + b2, c1 + c2) == Zip(a1, b1, c1) + Zip(a2, b2, c2)
  {
    var l, r := Zip(a1 + a2, b1 + b2, c1 + c2), Zip(a1, b1, c1) + Zip(a2, b2, c2);
    forall j | 0 <= j < |l|
      ensures l[j] == r[j]
    {
      if j >= |a1| {
        assert (a1 + a2)[j] == a2[j - |a1|] && (b1 + b2)[j] == b2[j - |a1|] && (c1 + c2)[j] == c2[j - |a1|];
      }
    }
  }

  lemma {:induction false} MatVecAppend(a: seq<Triplet>, b: seq<Triplet>, z: seq<real>, r: int)
    requires ColsBelow(a, |z|) && ColsBelow(b, |z|)
    ensures ColsBelow(a + b, |z|)
    ensures MatVec(a + b, z, r) == MatVec(a, z, r) + MatVec(b, z, r)
  {
    if |a| > 0 {
      assert (a + b)[1..] == a[1..] + b;
      MatVecAppend(a[1..], b, z, r);
    } else {
      assert a + b == b;
    }
  }

  lemma {:induction false} EntryAppend(a: seq<Triplet>, b: seq<Triplet>, r: int, c: int)
    ensures Entry(a + b, r, c) == Entry(a, r, c) + Entry(b, r, c)
  {
    if |a| > 0 {
      assert (a + b)[1..] == a[1..] + b;
      EntryAppend(a[1..], b, r, c);
    } else {
      assert a + b == b;
    }
  }

  /** The product with the c-th unit vector reads column c: the dense entry. */
  lemma {:induction false} MatVecUnit(ts: seq<Triplet>, n: nat, c: nat, r: int)
    requires c < n && ColsBelow(ts, n)
    ensures MatVec(ts, Unit(n, c), r) == Entry(ts, r, c)
  {
    if |ts| > 0 {
      MatVecUnit(ts[1..], n, c, r);
    }
  }

  /** The product with a constant vector is the constant times the row sum. */
  lemma {:induction false} MatVecConstant(ts: seq<Triplet>, n: nat, a: real, r: int)
    requires ColsBelow(ts, n)
    ensures MatVec(ts, Constant(n, a), r) == a * RowSum(ts, r)
  {
    if |ts| > 0 {
      MatVecConstant(ts[1..], n, a, r);
    }
  }

  /** Dividing a matrix by s divides every product by s. */
  lemma {:induction false} MatVecDivide(m: Coo, s: real, z: seq<real>, r: int)
    requires s != 0.0 && ColsBelow(m.entries, |z|)
    ensures ColsBelow(Divide(m, s).entries, |z|)
    ensures MatVec(Divide(m, s).entries, z, r) == MatVec(m.entries, z, r) / s
    decreases |m.entries|
  {
    var d := Divide(m, s);
    if |m.entries| > 0 {
      var m' := Coo(m.nrows, m.ncols, m.entries[1..]);
      MatVecDivide(m', s, z, r);
      DivideTail(m, s);
      DivideContribution(m.entries[0], d.entries[0], z, r, s);
      DivideSum(Contribution(d.entries[0], z, r), MatVec(d.entries[1..], z, r),
                Contribution(m.entries[0], z, r), MatVec(m'.entries, z, r), s);
    }
  }

  lemma {:induction false} DivideTail(m: Coo, s: real)
    requires s != 0.0 && |m.entries| > 0
    ensures Divide(Coo(m.nrows, m.ncols, m.entries[1..]), s).entries == Divide(m, s).entries[1..]
  {
  }

  lemma {:induction false} DivideContribution(t: Triplet, t': Triplet, z: seq<real>, r: int, s: real)
    requires s != 0.0 && 0 <= t.col < |z|
    requires t'.row == t.row && t'.col == t.col && t'.val == t.val / s
    ensures Contribution(t', z, r) == Contribution(t, z, r) / s
  {
  }

  lemma {:induction false} DivideSum(a': real, b': real, a: real, b: real, s: real)
    requires s != 0.0 && a' == a / s && b' == b / s
    ensures a' + b' == (a + b) / s
  {
  }

  /** A row that no triplet mentions has zero product. */
  lemma {:induction false} MatVecNoRow(ts: seq<Triplet>, z: seq<real>, r: int)
    requires ColsBelow(ts, |z|)
    requires forall j :: 0 <= j < |ts| ==> ts[j].row != r
    ensures MatVec(ts, z, r) == 0.0
  {
    if |ts| > 0 {
      MatVecNoRow(ts[1..], z, r);
    }
  }

  /** A row that exactly one triplet mentions is that triplet's contribution. */
  lemma {:induction false} MatVecOneRow(ts: seq<Triplet>, z: seq<real>, r: int, j0: nat)
    requires ColsBelow(ts, |z|)
    requires j0 < |ts| && ts[j0].row == r
    requires forall j :: 0 <= j < |ts| && j != j0 ==> ts[j].row != r
    ensures MatVec(ts, z, r) == ts[j0].val * z[ts[j0].col]
  {
    if j0 == 0 {
      MatVecNoRow(ts[1..], z, r);
    } else {
      MatVecOneRow(ts[1..], z, r, j0 - 1);
    }
  }

  /** The contribution v * x of a stored value v against the vector entry x. */
  function Term(v: real, x: real): real
  {
    v * x
  }

  /** Zipped lists whose only row-r triplet sits at position j0 hold (r, c, v) there. */
  lemma {:induction false} ZipHit(rows: seq<int>, cols: seq<int>, vals: seq<real>, z: seq<real>, r: int, j0: int, c: int, v: real)
    requires |rows| == |cols| == |vals| && AllIn(cols, 0, |z|)
    requires 0 <= j0 < |rows| && rows[j0] == r && cols[j0] == c && vals[j0] == v
    requires forall j :: 0 <= j < |rows| && j != j0 ==> rows[j] != r
    ensures 0 <= c < |z| && ColsBelow(Zip(rows, cols, vals), |z|)
    ensures MatVec(Zip(rows, cols, vals), z, r) == Term(v, z[c])
  {
    MatVecOneRow(Zip(rows, cols, vals), z, r, j0);
  }

  /** Zipped lists without a row-r triplet contribute nothing to row r. */
  lemma {:induction false} ZipMiss(rows: seq<int>, cols: seq<int>, vals: seq<real>, z: seq<real>, r: int)
    requires |rows| == |cols| == |vals| && AllIn(cols, 0, |z|)
    requires forall j :: 0 <= j < |rows| ==> rows[j] != r
    ensures ColsBelow(Zip(rows, cols, vals), |z|)
    ensures MatVec(Zip(rows, cols, vals), z, r) == 0.0
  {
    MatVecNoRow(Zip(rows, cols, vals), z, r);
  }

  lemma {:induction false} MatVecShiftRows(ts: seq<Triplet>, delta: int, z: seq<real>, r: int)
    requires ColsBelow(ts, |z|)
    ensures ColsBelow(ShiftRows(ts, delta), |z|)
    ensures MatVec(ShiftRows(ts, delta), z, r + delta) == MatVec(ts, z, r)
  {
    if |ts| > 0 {
      assert ShiftRows(ts, delta)[1..] == ShiftRows(ts[1..], delta);
      MatVecShiftRows(ts[1..], delta, z, r);
    }
  }

  /** Stacking: the top block keeps its rows, the bottom block's rows move down. */
  lemma {:induction false} MatVecVStack(top: Coo, bottom: Coo, z: seq<real>, r: int)
    requires VStack(top, bottom).Ok? && WellFormed(top) && WellFormed(bottom) && |z| == top.ncols
    ensures ColsBelow(VStack(top, bottom).value.entries, |z|)
    ensures 0 <= r < top.nrows ==> MatVec(VStack(top, bottom).value.entries, z, r) == MatVec(top.entries, z, r)
    ensures top.nrows <= r ==> MatVec(VStack(top, bottom).value.entries, z, r) == MatVec(bottom.entries, z, r - top.nrows)
  {
    var sb := ShiftRows(bottom.entries, top.nrows);
    MatVecShiftRows(bottom.entries, top.nrows, z, r - top.nrows);
    MatVecAppend(top.entries, sb, z, r);
    if 0 <= r < top.nrows {
      MatVecNoRow(sb, z, r);
    }
    if top.nrows <= r {
      MatVecNoRow(top.entries, z, r);
    }
  }

  /** The product is linear in the vector: a sum of vectors maps to the sum of their products. */
  lemma {:induction false} MatVecPlus(ts: seq<Triplet>, y: seq<real>, z: seq<real>, r: int)
    requires |y| == |z| && ColsBelow(ts, |z|)
    ensures MatVec(ts, Plus(y, z), r) == MatVec(ts, y, r) + MatVec(ts, z, r)
  {
    if |ts| > 0 {
      MatVecPlus(ts[1..], y, z, r);
      ContributionPlus(ts[0], y, z, r);
    }
  }

  lemma {:induction false} ContributionPlus(t: Triplet, y: seq<real>, z: seq<real>, r: int)
    requires |y| == |z| && 0 <= t.col < |z|
    ensures Contribution(t, Plus(y, z), r) == Contribution(t, y, r) + Contribution(t, z, r)
  {
    if t.row == r {
      Distribute(t.val, y[t.col], z[t.col], Plus(y, z)[t.col]);
    }
  }

  lemma {:induction false} Distribute(v: real, a: real, b: real, s: real)
    requires s == a + b
    ensures v * s == v * a + v * b
  {
  }
}
