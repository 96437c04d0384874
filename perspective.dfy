/**
 * The neighbour graph of the perspective five-point plane fitting: every
 * active pixel gets a 1-based index, the mask and the index array are
 * padded with a one-cell border of false / 0, each of the four one-cell
 * moves of the padded mask reads the padded index array at the neighbour in
 * that direction, and the five columns (the pixel itself, then its top,
 * bottom, left and right neighbours) become, after dropping the zeros and
 * shifting to 0-based, the list of pixels whose planes the pixel fits.
 *
 * The moves come from a helper module whose code is not part of this model;
 * they are modelled by their evident effect: `move_top` moves the mask one
 * row up (toward row i-1), so each cell reads the cell below it, and the
 * other three alike, with cells that move in from outside reading false.
 */
module Perspective {
  import opened Grid
  import opened Lists

  // ---------------------------------------------------------------------
  // The 1-based pixel index

  /** `pixel_idx`: the t-th active pixel in row-major order holds t + 1, every other cell 0. */
  function PixelIndex(mask: seq<seq<bool>>): (idx: seq<seq<int>>)
    requires Rectangular(mask, Width(mask))
    ensures |idx| == |mask| && Rectangular(idx, Width(mask))
  {
    var w := Width(mask);
    seq(|mask|, i requires 0 <= i < |mask| =>
      seq(w, j requires 0 <= j < w => if mask[i][j] then Before(mask, w, i, j) + 1 else 0))
  }

  /** Cell k of the flattened index array, against the index map of the flattened mask. */
  lemma {:induction false} PixelIndexAt(mask: seq<seq<bool>>, k: int)
    requires Rectangular(mask, Width(mask)) && 0 <= k < |Flatten(mask, Width(mask))|
    ensures 0 <= k < |Flatten(PixelIndex(mask), Width(mask))|
    ensures Flatten(PixelIndex(mask), Width(mask))[k] ==
      if Flatten(mask, Width(mask))[k] then DepthIndex(Flatten(mask, Width(mask)))[k] + 1 else 0
  {
    var w := Width(mask);
    var m := Flatten(mask, w);
    DivBelow(k, |mask|, w);
    var i, j := k / w, k % w;
    DivMod(k, w);
    assert m[k] == mask[i][j];
    assert Flatten(PixelIndex(mask), w)[k] == PixelIndex(mask)[i][j];
    if m[k] {
      DepthIndexAt(m, k);
    }
  }

  /**
   * The active pixels get 1 .. num_normals, one each, in row-major order;
   * every inactive cell holds 0, which no active pixel holds.
   */
  lemma {:induction false} PixelIndexNumbering(mask: seq<seq<bool>>)
    requires Rectangular(mask, Width(mask))
    ensures var m, f := Flatten(mask, Width(mask)), Flatten(PixelIndex(mask), Width(mask));
      |f| == |m| &&
      (forall k :: 0 <= k < |m| && !m[k] ==> f[k] == 0) &&
      (forall k :: 0 <= k < |m| && m[k] ==> 1 <= f[k] <= Count(m) && Filter(m)[f[k] - 1] == k) &&
      (forall t :: 0 <= t < Count(m) ==> 0 <= Filter(m)[t] < |m| && f[Filter(m)[t]] == t + 1)
  {
    var m, f := Flatten(mask, Width(mask)), Flatten(PixelIndex(mask), Width(mask));
    forall k | 0 <= k < |m| && !m[k]
      ensures f[k] == 0
    {
      PixelIndexAt(mask, k);
    }
    forall k | 0 <= k < |m| && m[k]
      ensures 1 <= f[k] <= Count(m) && Filter(m)[f[k] - 1] == k
    {
      PixelIndexAt(mask, k);
      DepthIndexAt(m, k);
    }
    forall t | 0 <= t < Count(m)
      ensures 0 <= Filter(m)[t] < |m| && f[Filter(m)[t]] == t + 1
    {
      SelfIdAt(mask, t);
    }
  }

  /**
   * `pixel_idx = zeros; pixel_idx[mask] = arange(num_normals) + 1`: the
   * array holds the pixel index.
   */
  method BuildPixelIndex(mask: seq<seq<bool>>) returns (idx: array2<int>)
    requires Rectangular(mask, Width(mask))
    ensures fresh(idx) && idx.Length0 == |mask| && idx.Length1 == Width(mask)
    ensures forall i, j :: 0 <= i < |mask| && 0 <= j < Width(mask) ==> idx[i, j] == PixelIndex(mask)[i][j]
  {
    var w := Width(mask);
    idx := new int[|mask|, w]((i, j) => 0);
    FillMasked(idx, mask, seq(Count(Flatten(mask, w)), t => t + 1));
  }

  // ---------------------------------------------------------------------
  // Padding and the four moves

  /** `np.pad(g, 1, constant_values=z)`: g inside a border of z one cell wide. */
  function Pad<T>(g: seq<seq<T>>, w: nat, z: T): (p: seq<seq<T>>)
    requires Rectangular(g, w)
    ensures |p| == |g| + 2 && Rectangular(p, w + 2)
  {
    seq(|g| + 2, i requires 0 <= i < |g| + 2 =>
      seq(w + 2, j requires 0 <= j < w + 2 =>
        if 1 <= i <= |g| && 1 <= j <= w then g[i - 1][j - 1] else z))
  }

  /** The flattened padded mask. */
  function PaddedMask(mask: seq<seq<bool>>): (x: seq<bool>)
    requires Rectangular(mask, Width(mask))
    ensures IsGrid(|x|, Width(mask) + 2)
  {
    var w := Width(mask);
    ModUnique((|mask| + 2) * (w + 2), w + 2, |mask| + 2, 0);
    Flatten(Pad(mask, w, false), w + 2)
  }

  /** The flattened padded index array. */
  function PaddedIndex(mask: seq<seq<bool>>): (e: seq<int>)
    requires Rectangular(mask, Width(mask))
    ensures |e| == |PaddedMask(mask)|
  {
    Flatten(Pad(PixelIndex(mask), Width(mask), 0), Width(mask) + 2)
  }

  /**
   * `move_top`, `move_bottom`, `move_left`, `move_right`: the mask moved one
   * cell toward d; each cell reads the cell on its other side, and cells
   * moving in from outside the grid read false.
   */
  function Moved(x: seq<bool>, w: int, d: Dir): (y: seq<bool>)
    requires IsGrid(|x|, w)
    ensures |y| == |x|
  {
    Pull(x, w, Opposite(d))
  }

  /** `top_neighbor` and the other three: the padded index read through the moved padded mask. */
  function NeighbourRead(mask: seq<seq<bool>>, d: Dir): seq<int>
    requires Rectangular(mask, Width(mask))
  {
    Select(PaddedIndex(mask), Moved(PaddedMask(mask), Width(mask) + 2, d))
  }

  /** The row and column change of one step in direction d. */
  function DRow(d: Dir): int
  {
    match d
    case North => -1
    case South => 1
    case West => 0
    case East => 0
  }

  function DCol(d: Dir): int
  {
    match d
    case North => 0
    case South => 0
    case West => -1
    case East => 1
  }

  /** The pixel index at (i, j), and 0 outside the grid, which is what the padding holds there. */
  function IdAt(mask: seq<seq<bool>>, i: int, j: int): int
    requires Rectangular(mask, Width(mask))
  {
    if 0 <= i < |mask| && 0 <= j < Width(mask) then PixelIndex(mask)[i][j] else 0
  }

  /** Every active cell of the padded mask lies inside the border, so it has a neighbour in each direction. */
  lemma {:induction false} PaddedInterior(mask: seq<seq<bool>>, d: Dir)
    requires Rectangular(mask, Width(mask))
    ensures var x := PaddedMask(mask);
      forall k :: 0 <= k < |x| && x[k] ==> Has(|x|, Width(mask) + 2, k, d)
  {
    var x := PaddedMask(mask);
    forall k | 0 <= k < |x| && x[k]
      ensures Has(|x|, Width(mask) + 2, k, d)
    {
      PaddedCell(mask, k, d);
    }
  }

  lemma {:induction false} PaddedCell(mask: seq<seq<bool>>, k: int, d: Dir)
    requires Rectangular(mask, Width(mask)) && 0 <= k < |PaddedMask(mask)| && PaddedMask(mask)[k]
    ensures Has(|PaddedMask(mask)|, Width(mask) + 2, k, d)
  {
    var w := Width(mask);
    var ww := w + 2;
    var p := Pad(mask, w, false);
    var x := PaddedMask(mask);
    assert |x| == (|mask| + 2) * ww;
    DivBelow(k, |p|, ww);
    var q, r := k / ww, k % ww;
    DivMod(k, ww);
    assert x[k] == p[q][r];
    InteriorHas(|x|, ww, |mask|, k, q, r, d);
  }

  /** A cell strictly inside a one-cell border has a neighbour inside the grid in each direction. */
  lemma {:induction false} InteriorHas(n: int, ww: int, h: int, k: int, q: int, r: int, d: Dir)
    requires ww >= 2 && n == (h + 2) * ww && k == q * ww + r && 1 <= q <= h && 1 <= r <= ww - 2
    ensures Has(n, ww, k, d)
  {
    ModUnique(k, ww, q, r);
    MulMono(1, q, ww);
    MulMono(q + 2, h + 2, ww);
    assert (q + 2) * ww == q * ww + 2 * ww;
  }

  /** A border row of the padded mask adds nothing to the count of active cells. */
  lemma {:induction false} BorderRow(mask: seq<seq<bool>>, r: int, j: int)
    requires Rectangular(mask, Width(mask)) && (r == 0 || r == |mask| + 1) && 0 <= j <= Width(mask) + 2
    ensures Before(Pad(mask, Width(mask), false), Width(mask) + 2, r, j) ==
      Before(Pad(mask, Width(mask), false), Width(mask) + 2, r, 0)
  {
    if j > 0 {
      BorderRow(mask, r, j - 1);
      BeforeStep(Pad(mask, Width(mask), false), Width(mask) + 2, r, j - 1);
    }
  }

  /**
   * The active cells before the start of padded row i + 1 (past its border
   * cell) are those before row i of the mask.
   */
  lemma {:induction false} PadBeforeRowStart(mask: seq<seq<bool>>, i: int)
    requires Rectangular(mask, Width(mask)) && 0 <= i <= |mask|
    ensures Before(Pad(mask, Width(mask), false), Width(mask) + 2, i + 1, 1) == Before(mask, Width(mask), i, 0)
    decreases i, 0
  {
    if i == 0 {
      PadFirstRow(mask);
    } else {
      PadBeforeInRow(mask, i - 1, Width(mask));
      PadSeam(mask, i);
    }
  }

  /** Nothing is active before padded cell (1, 1): the top border row and the first border cell. */
  lemma {:induction false} PadFirstRow(mask: seq<seq<bool>>)
    requires Rectangular(mask, Width(mask))
    ensures Before(Pad(mask, Width(mask), false), Width(mask) + 2, 1, 1) == 0
  {
    var p := Pad(mask, Width(mask), false);
    var ww := Width(mask) + 2;
    BorderRow(mask, 0, ww);
    assert Before(p, ww, 0, 0) == 0;
    BeforeNextRow(p, ww, 0);
    BeforeStep(p, ww, 1, 0);
  }

  /**
   * From the last mask cell of padded row i to the first mask cell of
   * padded row i + 1 there are only border cells.
   */
  lemma {:induction false} PadSeam(mask: seq<seq<bool>>, i: int)
    requires Rectangular(mask, Width(mask)) && 1 <= i <= |mask|
    ensures Before(Pad(mask, Width(mask), false), Width(mask) + 2, i + 1, 1) ==
      Before(Pad(mask, Width(mask), false), Width(mask) + 2, i, Width(mask) + 1)
    ensures Before(mask, Width(mask), i, 0) == Before(mask, Width(mask), i - 1, Width(mask))
  {
    var w := Width(mask);
    var p := Pad(mask, w, false);
    var ww := w + 2;
    BeforeStep(p, ww, i, w + 1);
    BeforeNextRow(p, ww, i);
    BeforeStep(p, ww, i + 1, 0);
    BeforeNextRow(mask, w, i - 1);
  }

  /** Padded cell (i + 1, j + 1) has as many active cells before it as mask cell (i, j). */
  lemma {:induction false} PadBeforeInRow(mask: seq<seq<bool>>, i: int, j: int)
    requires Rectangular(mask, Width(mask)) && 0 <= i < |mask| && 0 <= j <= Width(mask)
    ensures Before(Pad(mask, Width(mask), false), Width(mask) + 2, i + 1, j + 1) == Before(mask, Width(mask), i, j)
    decreases i, j + 1
  {
    if j == 0 {
      PadBeforeRowStart(mask, i);
    } else {
      var c := j - 1;
      PadBeforeInRow(mask, i, c);
      PadBeforeStep(mask, i, c);
    }
  }

  /** Padded cell (i + 1, c + 1) is mask cell (i, c), so both counts grow alike past it. */
  lemma {:induction false} PadBeforeStep(mask: seq<seq<bool>>, i: int, c: int)
    requires Rectangular(mask, Width(mask)) && 0 <= i < |mask| && 0 <= c < Width(mask)
    requires Before(Pad(mask, Width(mask), false), Width(mask) + 2, i + 1, c + 1) == Before(mask, Width(mask), i, c)
    ensures Before(Pad(mask, Width(mask), false), Width(mask) + 2, i + 1, c + 2) == Before(mask, Width(mask), i, c + 1)
  {
    var w := Width(mask);
    var p, ww, j := Pad(mask, w, false), w + 2, c + 1;
    BeforeStep(p, ww, i + 1, j);
    BeforeStep(mask, w, i, c);
    assert p[i + 1][j] == mask[i][c];
  }

  /** Padding adds no active cell. */
  lemma {:induction false} PadCount(mask: seq<seq<bool>>)
    requires Rectangular(mask, Width(mask))
    ensures Count(PaddedMask(mask)) == Count(Flatten(mask, Width(mask)))
  {
    var w := Width(mask);
    var p := Pad(mask, w, false);
    var ww := w + 2;
    var h := |mask|;
    PadBeforeRowStart(mask, h);
    BorderRow(mask, h + 1, 1);
    BorderRow(mask, h + 1, ww);
    BeforeNextRow(p, ww, h + 1);
    RankAll(PaddedMask(mask));
    RankAll(Flatten(mask, w));
  }

  /** The active pixel (i, j) is the same entry of the active cells of the padded mask, at (i + 1, j + 1). */
  lemma {:induction false} PadPosition(mask: seq<seq<bool>>, i: int, j: int)
    requires Rectangular(mask, Width(mask)) && 0 <= i < |mask| && 0 <= j < Width(mask) && mask[i][j]
    ensures Before(mask, Width(mask), i, j) < Count(PaddedMask(mask))
    ensures Filter(PaddedMask(mask))[Before(mask, Width(mask), i, j)] == (i + 1) * (Width(mask) + 2) + (j + 1)
  {
    var p := Pad(mask, Width(mask), false);
    PadBeforeInRow(mask, i, j);
    assert p[i + 1][j + 1];
    BeforeIsPosition(p, Width(mask) + 2, i + 1, j + 1);
  }

  /** One step in direction d from padded cell (a, b) of a width-ww grid. */
  lemma {:induction false} PadStep(ww: int, a: int, b: int, d: Dir)
    ensures a * ww + b + Offset(ww, d) == (a + DRow(d)) * ww + (b + DCol(d))
  {
    match d
    case North => assert (a - 1) * ww == a * ww - ww;
    case South => assert (a + 1) * ww == a * ww + ww;
    case West =>
    case East =>
  }

  /**
   * Selecting through a moved mask whose true cells all have a neighbour
   * toward d: the t-th selected value is read one step toward d from the
   * t-th true cell.
   */
  lemma {:induction false} MovedSelection(x: seq<bool>, e: seq<int>, w: int, d: Dir)
    requires IsGrid(|x|, w) && |e| == |x|
    requires forall k :: 0 <= k < |x| && x[k] ==> Has(|x|, w, k, d)
    ensures |Select(e, Moved(x, w, d))| == Count(x)
    ensures forall t :: 0 <= t < Count(x) ==>
      0 <= Filter(x)[t] + Offset(w, d) < |e| && Select(e, Moved(x, w, d))[t] == e[Filter(x)[t] + Offset(w, d)]
  {
    assert Opposite(Opposite(d)) == d;
    ShiftedSelection(x, w, Opposite(d));
  }

  /** Each of the four reads has one entry per active pixel. */
  lemma {:induction false} NeighbourReadLength(mask: seq<seq<bool>>, d: Dir)
    requires Rectangular(mask, Width(mask))
    ensures |NeighbourRead(mask, d)| == Count(Flatten(mask, Width(mask)))
  {
    PaddedInterior(mask, d);
    MovedSelection(PaddedMask(mask), PaddedIndex(mask), Width(mask) + 2, d);
    PadCount(mask);
  }

  /**
   * The read toward d holds, for the active pixel (i, j), the index of the
   * cell one step toward d: its 1-based index if that cell is an active
   * pixel, and 0 if it is inactive or outside the grid.
   */
  lemma {:induction false} NeighbourReadAt(mask: seq<seq<bool>>, d: Dir, i: int, j: int, ni: int, nj: int)
    requires Rectangular(mask, Width(mask)) && 0 <= i < |mask| && 0 <= j < Width(mask) && mask[i][j]
    requires ni == i + DRow(d) && nj == j + DCol(d)
    ensures |NeighbourRead(mask, d)| == Count(Flatten(mask, Width(mask)))
    ensures Before(mask, Width(mask), i, j) < |NeighbourRead(mask, d)|
    ensures NeighbourRead(mask, d)[Before(mask, Width(mask), i, j)] == IdAt(mask, ni, nj)
  {
    var w := Width(mask);
    var ww := w + 2;
    var x, e := PaddedMask(mask), PaddedIndex(mask);
    var t := Before(mask, w, i, j);
    NeighbourReadLength(mask, d);
    PaddedInterior(mask, d);
    MovedSelection(x, e, ww, d);
    PadPosition(mask, i, j);
    var a, b := ni + 1, nj + 1;
    var v := a * ww + b;
    PadStep(ww, i + 1, j + 1, d);
    assert v == Filter(x)[t] + Offset(ww, d);
    FlattenAt(Pad(PixelIndex(mask), w, 0), ww, a, b);
    PaddedIdAt(mask, ni, nj, a, b);
  }

  /** Padded index cell (i + 1, j + 1) holds IdAt(i, j), for every cell of the grid and its border. */
  lemma {:induction false} PaddedIdAt(mask: seq<seq<bool>>, i: int, j: int, a: int, b: int)
    requires Rectangular(mask, Width(mask)) && -1 <= i <= |mask| && -1 <= j <= Width(mask)
    requires a == i + 1 && b == j + 1
    ensures 0 <= a < |mask| + 2 && 0 <= b < Width(mask) + 2
    ensures Pad(PixelIndex(mask), Width(mask), 0)[a][b] == IdAt(mask, i, j)
  {
  }

  // ---------------------------------------------------------------------
  // The neighbour lists

  /** `pixel_idx[mask]`: the pixel's own index, t + 1 for the t-th active pixel. */
  function SelfIds(mask: seq<seq<bool>>): (s: seq<int>)
    requires Rectangular(mask, Width(mask))
    ensures |s| == Count(Flatten(mask, Width(mask)))
  {
    Select(Flatten(PixelIndex(mask), Width(mask)), Flatten(mask, Width(mask)))
  }

  lemma {:induction false} SelfIdAt(mask: seq<seq<bool>>, t: int)
    requires Rectangular(mask, Width(mask)) && 0 <= t < Count(Flatten(mask, Width(mask)))
    ensures 0 <= Filter(Flatten(mask, Width(mask)))[t] < |Flatten(mask, Width(mask))|
    ensures Flatten(PixelIndex(mask), Width(mask))[Filter(Flatten(mask, Width(mask)))[t]] == t + 1
    ensures SelfIds(mask)[t] == t + 1
  {
    var m := Flatten(mask, Width(mask));
    RankOfFilter(m, t);
    var k := Filter(m)[t];
    PixelIndexAt(mask, k);
    DepthIndexAt(m, k);
  }

  /** The five stacked columns: the row of the t-th active pixel. */
  function IdTable(mask: seq<seq<bool>>): (rows: seq<seq<int>>)
    requires Rectangular(mask, Width(mask))
    ensures |rows| == Count(Flatten(mask, Width(mask)))
  {
    NeighbourReadLength(mask, North);
    NeighbourReadLength(mask, South);
    NeighbourReadLength(mask, West);
    NeighbourReadLength(mask, East);
    var n := Count(Flatten(mask, Width(mask)));
    seq(n, t requires 0 <= t < n =>
      [SelfIds(mask)[t], NeighbourRead(mask, North)[t], NeighbourRead(mask, South)[t],
       NeighbourRead(mask, West)[t], NeighbourRead(mask, East)[t]])
  }

  /** `i[i != 0] - 1`: the non-zero entries, shifted to 0-based. */
  function Compact(s: seq<int>): seq<int>
  {
    if |s| == 0 then [] else Kept(s[0]) + Compact(s[1..])
  }

  function Kept(v: int): seq<int>
  {
    if v != 0 then [v - 1] else []
  }

  /** `neighbor_pixel_ids`: for each active pixel, its row of the table with the zeros dropped. */
  function NeighbourIds(mask: seq<seq<bool>>): (ids: seq<seq<int>>)
    requires Rectangular(mask, Width(mask))
    ensures |ids| == Count(Flatten(mask, Width(mask)))
  {
    var rows := IdTable(mask);
    seq(|rows|, t requires 0 <= t < |rows| => Compact(rows[t]))
  }

  /** The 0-based index of (i, j) as a one-element list if it is an active pixel, else nothing. */
  function ActiveAt(mask: seq<seq<bool>>, i: int, j: int): seq<int>
    requires Rectangular(mask, Width(mask))
  {
    if 0 <= i < |mask| && 0 <= j < Width(mask) && mask[i][j] then [Before(mask, Width(mask), i, j)] else []
  }

  lemma {:induction false} Compact5(a: int, b: int, c: int, d: int, e: int)
    ensures Compact([a, b, c, d, e]) == Kept(a) + Kept(b) + Kept(c) + Kept(d) + Kept(e)
  {
    assert [e][1..] == [];
    assert Compact([e]) == Kept(e);
    assert [d, e][1..] == [e];
    assert Compact([d, e]) == Kept(d) + Kept(e);
    assert [c, d, e][1..] == [d, e];
    assert Compact([c, d, e]) == Kept(c) + Kept(d) + Kept(e);
    assert [b, c, d, e][1..] == [c, d, e];
    assert Compact([b, c, d, e]) == Kept(b) + Kept(c) + Kept(d) + Kept(e);
    assert [a, b, c, d, e][1..] == [b, c, d, e];
  }

  lemma {:induction false} KeptId(mask: seq<seq<bool>>, i: int, j: int)
    requires Rectangular(mask, Width(mask))
    ensures Kept(IdAt(mask, i, j)) == ActiveAt(mask, i, j)
  {
  }

  /**
   * The list of the active pixel (i, j): its own 0-based index, then those
   * of its active top (row i-1), bottom, left and right neighbours, in that
   * order; an inactive or missing neighbour contributes nothing.
   */
  lemma {:induction false} NeighbourList(mask: seq<seq<bool>>, i: int, j: int)
    requires Rectangular(mask, Width(mask)) && 0 <= i < |mask| && 0 <= j < Width(mask) && mask[i][j]
    ensures Before(mask, Width(mask), i, j) < |NeighbourIds(mask)|
    ensures NeighbourIds(mask)[Before(mask, Width(mask), i, j)] ==
      [Before(mask, Width(mask), i, j)] + ActiveAt(mask, i - 1, j) + ActiveAt(mask, i + 1, j)
        + ActiveAt(mask, i, j - 1) + ActiveAt(mask, i, j + 1)
  {
    var t := Before(mask, Width(mask), i, j);
    TableRow(mask, i, j);
    Compact5(t + 1, IdAt(mask, i - 1, j), IdAt(mask, i + 1, j), IdAt(mask, i, j - 1), IdAt(mask, i, j + 1));
    KeptId(mask, i - 1, j);
    KeptId(mask, i + 1, j);
    KeptId(mask, i, j - 1);
    KeptId(mask, i, j + 1);
  }

  /** The table row of the active pixel (i, j): its own index, then the indices read toward the four neighbours. */
  lemma {:induction false} TableRow(mask: seq<seq<bool>>, i: int, j: int)
    requires Rectangular(mask, Width(mask)) && 0 <= i < |mask| && 0 <= j < Width(mask) && mask[i][j]
    ensures Before(mask, Width(mask), i, j) < |IdTable(mask)|
    ensures IdTable(mask)[Before(mask, Width(mask), i, j)] ==
      [Before(mask, Width(mask), i, j) + 1, IdAt(mask, i - 1, j), IdAt(mask, i + 1, j), IdAt(mask, i, j - 1), IdAt(mask, i, j + 1)]
  {
    var t := Before(mask, Width(mask), i, j);
    SelfIdAt(mask, t);
    NeighbourReadAt(mask, North, i, j, i - 1, j);
    NeighbourReadAt(mask, South, i, j, i + 1, j);
    NeighbourReadAt(mask, West, i, j, i, j - 1);
    NeighbourReadAt(mask, East, i, j, i, j + 1);
    TableAt(mask, t);
  }

  /** Row t of the table lists the five columns at position t. */
  lemma {:induction false} TableAt(mask: seq<seq<bool>>, t: int)
    requires Rectangular(mask, Width(mask)) && 0 <= t < Count(Flatten(mask, Width(mask)))
    ensures
      |NeighbourRead(mask, North)| == |NeighbourRead(mask, South)| == Count(Flatten(mask, Width(mask))) &&
      |NeighbourRead(mask, West)| == |NeighbourRead(mask, East)| == Count(Flatten(mask, Width(mask))) &&
      IdTable(mask)[t] == [SelfIds(mask)[t], NeighbourRead(mask, North)[t], NeighbourRead(mask, South)[t],
        NeighbourRead(mask, West)[t], NeighbourRead(mask, East)[t]]
  {
    NeighbourReadLength(mask, North);
    NeighbourReadLength(mask, South);
    NeighbourReadLength(mask, West);
    NeighbourReadLength(mask, East);
  }

  /**
   * Every list starts with the pixel itself, has one to five entries, and
   * names only active pixels, by 0-based indices below num_normals.
   */
  lemma {:induction false} NeighbourListBounds(mask: seq<seq<bool>>, t: int)
    requires Rectangular(mask, Width(mask)) && 0 <= t < Count(Flatten(mask, Width(mask)))
    ensures var ids := NeighbourIds(mask)[t];
      1 <= |ids| <= 5 && ids[0] == t && AllIn(ids, 0, Count(Flatten(mask, Width(mask))))
  {
    var n := Count(Flatten(mask, Width(mask)));
    var i, j := ActivePixel(mask, Width(mask), t);
    NeighbourList(mask, i, j);
    var up, down, left, right := ActiveAt(mask, i - 1, j), ActiveAt(mask, i + 1, j), ActiveAt(mask, i, j - 1), ActiveAt(mask, i, j + 1);
    AllInAppend([t], up, 0, n);
    AllInAppend([t] + up, down, 0, n);
    AllInAppend([t] + up + down, left, 0, n);
    AllInAppend([t] + up + down + left, right, 0, n);
  }
}
