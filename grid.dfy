/**
 * Pixel grids and masks. An H×W grid is held flat in row-major order: cell
 * k is pixel (k / w, k % w). A boolean mask of that shape selects the active
 * pixels; `Filter` lists the positions of its true cells in increasing
 * (row-major) order, which is the order in which boolean-mask indexing
 * visits them, and `Pull` shifts a mask by one cell, padding the cells that
 * move in from outside the grid with false.
 */
module Grid {

  /** The four axis-aligned directions: North is row i-1, South row i+1, West column j-1, East column j+1. */
  datatype Dir = North | South | West | East

  function Opposite(d: Dir): Dir
  {
    match d
    case North => South
    case South => North
    case West => East
    case East => West
  }

  /** n cells of width w make a whole number of rows. */
  predicate IsGrid(n: int, w: int)
  {
    w > 0 && n >= 0 && n % w == 0
  }

  function Offset(w: int, d: Dir): int
  {
    match d
    case North => -w
    case South => w
    case West => -1
    case East => 1
  }

  /** The flat position of the neighbour of cell k in direction d. */
  function Step(w: int, k: int, d: Dir): int
  {
    k + Offset(w, d)
  }

  /** Whether cell k of an n-cell grid of width w has a neighbour in direction d inside the grid. */
  predicate Has(n: int, w: int, k: int, d: Dir)
    requires w > 0
  {
    match d
    case North => k >= w
    case South => k + w < n
    case West => k % w > 0
    case East => k % w + 1 < w
  }

  // ---------------------------------------------------------------------
  // Arithmetic on row-major positions

  lemma {:induction false} MulMono(a: int, b: int, w: int)
    ensures a <= b && w >= 0 ==> a * w <= b * w
  {
    assert b * w - a * w == (b - a) * w;
    if a <= b && w >= 0 {
      assert (b - a) * w >= 0;
    }
  }

  lemma {:induction false} ModUnique(k: int, w: int, q: int, r: int)
    requires w > 0 && 0 <= r < w && k == q * w + r
    ensures k / w == q && k % w == r
  {
    var q0, r0 := k / w, k % w;
    assert k == q0 * w + r0;
    var e := q - q0;
    assert e * w == q * w - q0 * w;
    MulMono(1, e, w);
    MulMono(e, -1, w);
    assert e == 0;
  }

  /** A cell position splits into its row and its column. */
  lemma {:induction false} DivMod(k: int, w: int)
    requires w > 0
    ensures k == (k / w) * w + k % w && 0 <= k % w < w
  {
  }

  lemma {:induction false} DivBelow(k: int, h: int, w: int)
    requires 0 <= k < h * w && w >= 0
    ensures w > 0 && 0 <= k / w < h
  {
    assert w != 0;
    assert k == (k / w) * w + k % w;
    MulMono(h, k / w, w);
  }

  /** Cell i*w + j of an H-row grid of width w is in the grid, in row i and column j. */
  lemma {:induction false} CellOf(h: int, w: int, i: int, j: int)
    requires 0 <= i < h && 0 <= j < w
    ensures 0 <= i * w + j < h * w
    ensures (i * w + j) / w == i && (i * w + j) % w == j
  {
    ModUnique(i * w + j, w, i, j);
    MulMono(i + 1, h, w);
    assert (i + 1) * w == i * w + w;
  }

  /** A neighbour inside the grid is a cell of the grid, and stepping back returns. */
  lemma {:induction false} StepInside(n: int, w: int, k: int, d: Dir)
    requires IsGrid(n, w) && 0 <= k < n && Has(n, w, k, d)
    ensures 0 <= Step(w, k, d) < n
    ensures Has(n, w, Step(w, k, d), Opposite(d))
    ensures Step(w, Step(w, k, d), Opposite(d)) == k
  {
    match d
    case North =>
    case South =>
    case West =>
      assert k == (k / w) * w + k % w;
      ModUnique(k - 1, w, k / w, k % w - 1);
    case East =>
      var h := n / w;
      assert n == h * w;
      DivBelow(k, h, w);
      ModUnique(k + 1, w, k / w, k % w + 1);
      CellOf(h, w, k / w, k % w + 1);
  }

  // ---------------------------------------------------------------------
  // Two-dimensional grids and their row-major flattening

  predicate Rectangular<T>(g: seq<seq<T>>, w: int)
  {
    forall i :: 0 <= i < |g| ==> |g[i]| == w
  }

  function Width<T>(g: seq<seq<T>>): nat
  {
    if |g| == 0 then 0 else |g[0]|
  }

  /** The grid read in row-major order. */
  function Flatten<T>(g: seq<seq<T>>, w: nat): (f: seq<T>)
    requires Rectangular(g, w)
    ensures |f| == |g| * w
  {
    seq(|g| * w, k requires 0 <= k < |g| * w => DivBelow(k, |g|, w); g[k / w][k % w])
  }

  lemma {:induction false} FlattenAt<T>(g: seq<seq<T>>, w: nat, i: int, j: int)
    requires Rectangular(g, w) && 0 <= i < |g| && 0 <= j < w
    ensures 0 <= i * w + j < |Flatten(g, w)| && Flatten(g, w)[i * w + j] == g[i][j]
  {
    CellOf(|g|, w, i, j);
  }

  /** The positive width used to index a flattened grid (an empty grid has any). */
  function FlatWidth<T>(g: seq<seq<T>>): (w: nat)
    ensures w > 0
  {
    if Width(g) == 0 then 1 else Width(g)
  }

  /** A rectangular grid flattens to a whole number of rows of width FlatWidth. */
  lemma {:induction false} FlattenIsGrid<T>(g: seq<seq<T>>)
    requires Rectangular(g, Width(g))
    ensures IsGrid(|Flatten(g, Width(g))|, FlatWidth(g))
  {
    if Width(g) == 0 {
      assert |g| * 0 == 0;
    } else {
      ModUnique(|g| * Width(g), Width(g), |g|, 0);
    }
  }

  // ---------------------------------------------------------------------
  // Selecting the true cells of a mask

  /** The positions of the true cells, in increasing order. */
  function Filter(x: seq<bool>): (f: seq<int>)
    ensures |f| <= |x|
  {
    if |x| == 0 then [] else Filter(x[..|x| - 1]) + (if x[|x| - 1] then [|x| - 1] else [])
  }

  /** The number of true cells. */
  function Count(x: seq<bool>): nat
  {
    |Filter(x)|
  }

  /** The number of true cells before position k. */
  function Rank(x: seq<bool>, k: int): nat
    requires 0 <= k <= |x|
  {
    if k == 0 then 0 else Rank(x, k - 1) + (if x[k - 1] then 1 else 0)
  }

  /** Rank counts the true cells of the prefix before k. */
  lemma {:induction false} RankIsPrefixCount(x: seq<bool>, k: int)
    requires 0 <= k <= |x|
    ensures Rank(x, k) == |Filter(x[..k])|
  {
    if k > 0 {
      RankIsPrefixCount(x, k - 1);
      assert x[..k][..k - 1] == x[..k - 1];
    }
  }

  predicate Increasing(s: seq<int>)
  {
    forall a, b :: 0 <= a < b < |s| ==> s[a] < s[b]
  }

  /** Filter lists exactly the true cells, each once, in increasing order. */
  lemma {:induction false} FilterSpec(x: seq<bool>)
    ensures Increasing(Filter(x))
    ensures forall j :: 0 <= j < |Filter(x)| ==> 0 <= Filter(x)[j] < |x| && x[Filter(x)[j]]
    ensures forall k :: 0 <= k < |x| && x[k] ==> k in Filter(x)
  {
    if |x| > 0 {
      var y := x[..|x| - 1];
      FilterSpec(y);
      assert forall k :: 0 <= k < |y| ==> y[k] == x[k];
    }
  }

  lemma {:induction false} RankStep(x: seq<bool>, k: int)
    requires 0 <= k < |x|
    ensures Filter(x[..k + 1]) == Filter(x[..k]) + (if x[k] then [k] else [])
    ensures Rank(x, k + 1) == Rank(x, k) + (if x[k] then 1 else 0)
  {
    assert x[..k + 1][..k] == x[..k];
  }

  lemma {:induction false} RankAll(x: seq<bool>)
    ensures Rank(x, |x|) == Count(x)
  {
    RankIsPrefixCount(x, |x|);
    assert x[..|x|] == x;
  }

  /** The true cells before k are the first Rank(x, k) entries of Filter(x). */
  lemma {:induction false} FilterPrefix(x: seq<bool>, k: int)
    requires 0 <= k <= |x|
    ensures Rank(x, k) <= Count(x)
    ensures Filter(x)[..Rank(x, k)] == Filter(x[..k])
    decreases |x|
  {
    RankIsPrefixCount(x, k);
    if k == |x| {
      assert x[..k] == x;
    } else {
      var y := x[..|x| - 1];
      assert y[..k] == x[..k];
      FilterPrefix(y, k);
    }
  }

  /** A true cell is the Rank-th entry of Filter. */
  lemma {:induction false} RankAt(x: seq<bool>, k: int)
    requires 0 <= k < |x| && x[k]
    ensures Rank(x, k) < Count(x) && Filter(x)[Rank(x, k)] == k
  {
    RankStep(x, k);
    FilterPrefix(x, k + 1);
    assert Filter(x)[..Rank(x, k + 1)][Rank(x, k)] == k;
  }

  /** The position of the t-th true cell has t true cells before it. */
  lemma {:induction false} RankOfFilter(x: seq<bool>, t: int)
    requires 0 <= t < Count(x)
    ensures 0 <= Filter(x)[t] < |x| && x[Filter(x)[t]] && Rank(x, Filter(x)[t]) == t
  {
    FilterSpec(x);
    var k := Filter(x)[t];
    RankAt(x, k);
  }

  // ---------------------------------------------------------------------
  // The depth index of the active pixels

  /**
   * The index map: the k-th active pixel in row-major order holds k, every
   * inactive cell holds the sentinel 0.
   */
  function DepthIndex(x: seq<bool>): (idx: seq<int>)
    ensures |idx| == |x|
  {
    seq(|x|, k requires 0 <= k < |x| => if x[k] then Rank(x, k) else 0)
  }

  /**
   * The index map is a bijection between the active pixels and
   * 0 .. Count(x)-1, and inactive cells hold 0 (the index of the first active pixel).
   */
  lemma {:induction false} IndexBijection(x: seq<bool>)
    ensures forall k :: 0 <= k < |x| && x[k] ==> 0 <= DepthIndex(x)[k] < Count(x) && Filter(x)[DepthIndex(x)[k]] == k
    ensures forall t :: 0 <= t < Count(x) ==> 0 <= Filter(x)[t] < |x| && DepthIndex(x)[Filter(x)[t]] == t
    ensures forall k :: 0 <= k < |x| && !x[k] ==> DepthIndex(x)[k] == 0
  {
    forall k | 0 <= k < |x| && x[k]
      ensures 0 <= DepthIndex(x)[k] < Count(x) && Filter(x)[DepthIndex(x)[k]] == k
    {
      RankAt(x, k);
    }
    forall t | 0 <= t < Count(x)
      ensures 0 <= Filter(x)[t] < |x| && DepthIndex(x)[Filter(x)[t]] == t
    {
      RankOfFilter(x, t);
    }
  }

  /** Two different active pixels have different indices. */
  lemma {:induction false} IndexInjective(x: seq<bool>, k1: int, k2: int)
    requires 0 <= k1 < |x| && 0 <= k2 < |x| && x[k1] && x[k2] && k1 != k2
    ensures DepthIndex(x)[k1] != DepthIndex(x)[k2]
  {
    RankAt(x, k1);
    RankAt(x, k2);
  }

  /** Boolean-mask indexing: the values of `a` at the true cells of `x`, in row-major order. */
  function Select<T>(a: seq<T>, x: seq<bool>): (s: seq<T>)
    requires |a| == |x|
    ensures |s| == Count(x)
    ensures forall j :: 0 <= j < |s| ==> 0 <= Filter(x)[j] < |a| && s[j] == a[Filter(x)[j]]
  {
    FilterSpec(x);
    seq(Count(x), j requires 0 <= j < Count(x) => a[Filter(x)[j]])
  }

  // ---------------------------------------------------------------------
  // Shifting a mask by one cell

  /**
   * The mask shifted so that each cell reads its neighbour in direction d; a
   * neighbour outside the grid reads as false (the padding).
   */
  function Pull(x: seq<bool>, w: int, d: Dir): (y: seq<bool>)
    requires IsGrid(|x|, w)
    ensures |y| == |x|
  {
    seq(|x|, k requires 0 <= k < |x| =>
      if Has(|x|, w, k, d) then StepInside(|x|, w, k, d); x[Step(w, k, d)] else false)
  }

  function Translate(s: seq<int>, c: int): (t: seq<int>)
    ensures |t| == |s| && forall j :: 0 <= j < |s| ==> t[j] == s[j] + c
  {
    seq(|s|, j requires 0 <= j < |s| => s[j] + c)
  }

  /** Two increasing lists with the same elements are equal. */
  lemma {:induction false} IncreasingUnique(s: seq<int>, t: seq<int>)
    requires Increasing(s) && Increasing(t)
    requires forall v :: v in s <==> v in t
    ensures s == t
    decreases |s|
  {
    if |s| == 0 {
      FirstIsMember(t);
    } else {
      assert s[0] in s;
      assert |t| > 0;
      SameHead(s, t);
      forall v
        ensures v in s[1..] <==> v in t[1..]
      {
        SameTailMember(s, t, v);
        SameTailMember(t, s, v);
      }
      IncreasingUnique(s[1..], t[1..]);
      assert s == [s[0]] + s[1..] && t == [t[0]] + t[1..];
    }
  }

  lemma {:induction false} FirstIsMember(t: seq<int>)
    ensures |t| > 0 ==> t[0] in t
  {
  }

  lemma {:induction false} SameHead(s: seq<int>, t: seq<int>)
    requires Increasing(s) && Increasing(t) && |s| > 0 && |t| > 0
    requires forall v :: v in s <==> v in t
    ensures s[0] == t[0]
  {
    assert s[0] in s && t[0] in t;
    var b :| 0 <= b < |t| && t[b] == s[0];
    var a :| 0 <= a < |s| && s[a] == t[0];
    assert t[0] <= t[b];
    assert s[0] <= s[a];
  }

  lemma {:induction false} SameTailMember(s: seq<int>, t: seq<int>, v: int)
    requires Increasing(s) && Increasing(t) && |s| > 0 && |t| > 0 && s[0] == t[0]
    requires forall v :: v in s <==> v in t
    ensures v in s[1..] ==> v in t[1..]
  {
    if v in s[1..] {
      var a :| 0 <= a < |s| - 1 && s[1..][a] == v;
      assert s[a + 1] == v && v > s[0] && v in s;
      var b :| 0 <= b < |t| && t[b] == v;
      assert b != 0 && t[1..][b - 1] == v;
    }
  }

  /**
   * Shifting a mask toward d moves each selected position one cell back,
   * against d, and keeps their order, provided every true cell has a
   * neighbour inside the grid in that backward direction.
   */
  lemma {:induction false} ShiftedSelection(x: seq<bool>, w: int, d: Dir)
    requires IsGrid(|x|, w)
    requires forall k :: 0 <= k < |x| && x[k] ==> Has(|x|, w, k, Opposite(d))
    ensures Filter(Pull(x, w, d)) == Translate(Filter(x), Offset(w, Opposite(d)))
  {
    var g := Filter(Pull(x, w, d));
    var t := Translate(Filter(x), Offset(w, Opposite(d)));
    FilterSpec(x);
    FilterSpec(Pull(x, w, d));
    forall v | v in g
      ensures v in t
    {
      ShiftedFrom(x, w, d, v);
    }
    forall a | 0 <= a < |t|
      ensures t[a] in g
    {
      ShiftedTo(x, w, d, a);
    }
    IncreasingUnique(g, t);
  }

  lemma {:induction false} PullAt(x: seq<bool>, w: int, d: Dir, k: int)
    requires IsGrid(|x|, w) && 0 <= k < |x|
    ensures Has(|x|, w, k, d) ==> 0 <= Step(w, k, d) < |x| && Pull(x, w, d)[k] == x[Step(w, k, d)]
    ensures !Has(|x|, w, k, d) ==> !Pull(x, w, d)[k]
  {
    if Has(|x|, w, k, d) {
      StepInside(|x|, w, k, d);
    }
  }

  lemma {:induction false} FilterAt(x: seq<bool>, a: int)
    requires 0 <= a < |Filter(x)|
    ensures 0 <= Filter(x)[a] < |x| && x[Filter(x)[a]]
  {
    FilterSpec(x);
  }

  lemma {:induction false} InFilter(x: seq<bool>, k: int)
    requires 0 <= k < |x| && x[k]
    ensures k in Filter(x)
  {
    FilterSpec(x);
  }

  lemma {:induction false} ShiftedFrom(x: seq<bool>, w: int, d: Dir, v: int)
    requires IsGrid(|x|, w)
    requires v in Filter(Pull(x, w, d))
    ensures v in Translate(Filter(x), Offset(w, Opposite(d)))
  {
    var y := Pull(x, w, d);
    FilterSpec(y);
    FilterSpec(x);
    StepInside(|x|, w, v, d);
    var k := Step(w, v, d);
    assert x[k];
    var a :| 0 <= a < |Filter(x)| && Filter(x)[a] == k;
    assert Translate(Filter(x), Offset(w, Opposite(d)))[a] == v;
  }

  lemma {:induction false} BackAndForth(x: seq<bool>, w: int, d: Dir, k: int)
    requires IsGrid(|x|, w) && 0 <= k < |x| && x[k] && Has(|x|, w, k, Opposite(d))
    ensures 0 <= Step(w, k, Opposite(d)) < |x|
    ensures Has(|x|, w, Step(w, k, Opposite(d)), d) && Step(w, Step(w, k, Opposite(d)), d) == k
  {
    StepInside(|x|, w, k, Opposite(d));
    assert Opposite(Opposite(d)) == d;
  }

  lemma {:induction false} ShiftedTo(x: seq<bool>, w: int, d: Dir, a: int)
    requires IsGrid(|x|, w) && 0 <= a < |Filter(x)|
    requires 0 <= Filter(x)[a] < |x| && Has(|x|, w, Filter(x)[a], Opposite(d))
    ensures Filter(x)[a] + Offset(w, Opposite(d)) in Filter(Pull(x, w, d))
  {
    var k := Filter(x)[a];
    var v := k + Offset(w, Opposite(d));
    FilterAt(x, a);
    BackAndForth(x, w, d, k);
    PullAt(x, w, d, v);
    var y := Pull(x, w, d);
    assert 0 <= v < |y| && y[v];
    InFilter(y, v);
  }

  /** The cells of x that have a neighbour inside the grid in direction d. */
  function Keep(x: seq<bool>, w: int, d: Dir): (y: seq<bool>)
    requires w > 0
    ensures |y| == |x|
  {
    seq(|x|, k requires 0 <= k < |x| => x[k] && Has(|x|, w, k, d))
  }

  /** A mask that is true only where x is has no more true cells, and strictly fewer if x has one it lacks. */
  lemma {:induction false} CountSubset(x: seq<bool>, y: seq<bool>)
    requires |x| == |y| && forall k :: 0 <= k < |y| && y[k] ==> x[k]
    ensures Count(y) <= Count(x)
    ensures (exists k :: 0 <= k < |x| && x[k] && !y[k]) ==> Count(y) < Count(x)
  {
    if |x| > 0 {
      var n := |x| - 1;
      CountSubset(x[..n], y[..n]);
      if exists k :: 0 <= k < |x| && x[k] && !y[k] {
        var k :| 0 <= k < |x| && x[k] && !y[k];
        if k < n {
          assert x[..n][k] && !y[..n][k];
        }
      }
    }
  }

  /**
   * Shifting toward d keeps exactly those true cells that have a neighbour
   * inside the grid against d: the count drops if and only if some true
   * cell lacks one.
   */
  lemma {:induction false} PullCount(x: seq<bool>, w: int, d: Dir)
    requires IsGrid(|x|, w)
    ensures Count(Pull(x, w, d)) == Count(Keep(x, w, Opposite(d))) <= Count(x)
    ensures Count(Pull(x, w, d)) == Count(x) <==> forall k :: 0 <= k < |x| && x[k] ==> Has(|x|, w, k, Opposite(d))
  {
    var x' := Keep(x, w, Opposite(d));
    forall k | 0 <= k < |x|
      ensures Pull(x, w, d)[k] == Pull(x', w, d)[k]
    {
      if Has(|x|, w, k, d) {
        StepInside(|x|, w, k, d);
      }
    }
    assert Pull(x, w, d) == Pull(x', w, d);
    ShiftedSelection(x', w, d);
    CountSubset(x, x');
    if forall k :: 0 <= k < |x| && x[k] ==> Has(|x|, w, k, Opposite(d)) {
      assert x' == x;
    }
  }

  /** An all-false mask selects nothing. */
  lemma {:induction false} CountNone(x: seq<bool>)
    requires forall k :: 0 <= k < |x| ==> !x[k]
    ensures Count(x) == 0
  {
    if |x| > 0 {
      CountNone(x[..|x| - 1]);
    }
  }

  // ---------------------------------------------------------------------
  // Scattering values into the active pixels of a two-dimensional array

  /** A depth-map cell: NaN where no depth is defined, a number elsewhere. */
  datatype Sample = NaN | Num(v: real)

  lemma {:induction false} BeforeInRange(h: int, w: int, i: int, j: int)
    requires 0 <= i <= h && 0 <= j <= w && (i == h ==> j == 0)
    ensures 0 <= i * w + j <= h * w
  {
    MulMono(0, i, w);
    if i < h {
      MulMono(i + 1, h, w);
      assert (i + 1) * w == i * w + w;
    }
  }

  /**
   * The number of active pixels that come before pixel (i, j) in row-major
   * order; j == w stands for the end of row i. For an active pixel this is
   * its position in the list of active pixels.
   */
  function Before(mask: seq<seq<bool>>, w: nat, i: int, j: int): (r: nat)
    requires Rectangular(mask, w) && 0 <= i <= |mask| && 0 <= j <= w && (i == |mask| ==> j == 0)
    ensures i < |mask| && j < w && mask[i][j] ==> r < Count(Flatten(mask, w))
  {
    BeforeInRange(|mask|, w, i, j);
    BeforeBound(mask, w, i, j);
    Rank(Flatten(mask, w), i * w + j)
  }

  lemma {:induction false} BeforeBound(mask: seq<seq<bool>>, w: nat, i: int, j: int)
    requires Rectangular(mask, w) && 0 <= i <= |mask| && 0 <= j <= w && 0 <= i * w + j <= |mask| * w
    ensures i < |mask| && j < w && mask[i][j] ==>
      Rank(Flatten(mask, w), i * w + j) < Count(Flatten(mask, w)) &&
      Filter(Flatten(mask, w))[Rank(Flatten(mask, w), i * w + j)] == i * w + j
  {
    if i < |mask| && j < w && mask[i][j] {
      FlattenAt(mask, w, i, j);
      RankAt(Flatten(mask, w), i * w + j);
    }
  }

  /** The active pixel (i, j) is entry Before(i, j) of the row-major list of active pixels. */
  lemma {:induction false} BeforeIsPosition(mask: seq<seq<bool>>, w: nat, i: int, j: int)
    requires Rectangular(mask, w) && 0 <= i < |mask| && 0 <= j < w && mask[i][j]
    ensures 0 <= i * w + j < |Flatten(mask, w)|
    ensures Before(mask, w, i, j) < Count(Flatten(mask, w))
    ensures Filter(Flatten(mask, w))[Before(mask, w, i, j)] == i * w + j
    ensures DepthIndex(Flatten(mask, w))[i * w + j] == Before(mask, w, i, j)
  {
    var x, k := Flatten(mask, w), i * w + j;
    FlattenAt(mask, w, i, j);
    assert Before(mask, w, i, j) == Rank(x, k);
    DepthIndexAt(x, k);
  }

  /** The t-th active pixel in row-major order, as a row and a column. */
  lemma {:induction false} ActivePixel(mask: seq<seq<bool>>, w: nat, t: int) returns (i: int, j: int)
    requires Rectangular(mask, w) && 0 <= t < Count(Flatten(mask, w))
    ensures 0 <= i < |mask| && 0 <= j < w && mask[i][j] && Before(mask, w, i, j) == t
  {
    var m := Flatten(mask, w);
    RankOfFilter(m, t);
    var k := Filter(m)[t];
    DivBelow(k, |mask|, w);
    i, j := k / w, k % w;
    DivMod(k, w);
    assert m[k] == mask[i][j];
  }

  /** Boolean-mask indexing of a grid: entry Before(i, j) of the selection is the active cell (i, j). */
  lemma {:induction false} SelectAt<T>(g: seq<seq<T>>, mask: seq<seq<bool>>, w: nat, i: int, j: int)
    requires Rectangular(mask, w) && Rectangular(g, w) && |g| == |mask|
    requires 0 <= i < |mask| && 0 <= j < w && mask[i][j]
    ensures Before(mask, w, i, j) < |Select(Flatten(g, w), Flatten(mask, w))|
    ensures Select(Flatten(g, w), Flatten(mask, w))[Before(mask, w, i, j)] == g[i][j]
  {
    BeforeIsPosition(mask, w, i, j);
    FlattenAt(g, w, i, j);
  }

  lemma {:induction false} DepthIndexAt(x: seq<bool>, k: int)
    requires 0 <= k < |x| && x[k]
    ensures Rank(x, k) < Count(x) && Filter(x)[Rank(x, k)] == k && DepthIndex(x)[k] == Rank(x, k)
  {
    RankAt(x, k);
  }

  lemma {:induction false} BeforeStep(mask: seq<seq<bool>>, w: nat, i: int, j: int)
    requires Rectangular(mask, w) && 0 <= i < |mask| && 0 <= j < w
    ensures Before(mask, w, i, j + 1) == Before(mask, w, i, j) + (if mask[i][j] then 1 else 0)
  {
    FlattenAt(mask, w, i, j);
    BeforeInRange(|mask|, w, i, j + 1);
    RankStep(Flatten(mask, w), i * w + j);
  }

  lemma {:induction false} BeforeNextRow(mask: seq<seq<bool>>, w: nat, i: int)
    requires Rectangular(mask, w) && 0 <= i < |mask|
    ensures Before(mask, w, i, w) == Before(mask, w, i + 1, 0)
  {
    assert i * w + w == (i + 1) * w;
  }

  /**
   * Boolean-mask assignment `a[mask] = vals`: the k-th active pixel in
   * row-major order receives vals[k]; every other cell keeps its value.
   */
  method FillMasked<T>(a: array2<T>, mask: seq<seq<bool>>, vals: seq<T>)
    requires a.Length0 == |mask| && Rectangular(mask, a.Length1)
    requires |vals| == Count(Flatten(mask, a.Length1))
    modifies a
    ensures forall i, j :: 0 <= i < a.Length0 && 0 <= j < a.Length1 ==>
      a[i, j] == if mask[i][j] then vals[Before(mask, a.Length1, i, j)] else old(a[i, j])
  {
    var h, w := a.Length0, a.Length1;
    var c := 0;
    var i := 0;
    assert Flatten(mask, w)[..0] == [];
    while i < h
      invariant 0 <= i <= h
      invariant c == Before(mask, w, i, 0)
      invariant forall i', j' :: 0 <= i' < i && 0 <= j' < w ==>
        a[i', j'] == if mask[i'][j'] then vals[Before(mask, w, i', j')] else old(a[i', j'])
      invariant forall i', j' :: i <= i' < h && 0 <= j' < w ==> a[i', j'] == old(a[i', j'])
    {
      var j := 0;
      while j < w
        invariant 0 <= j <= w
        invariant c == Before(mask, w, i, j)
        invariant forall i', j' :: 0 <= i' < i && 0 <= j' < w ==>
          a[i', j'] == if mask[i'][j'] then vals[Before(mask, w, i', j')] else old(a[i', j'])
        invariant forall j' :: 0 <= j' < j ==>
          a[i, j'] == if mask[i][j'] then vals[Before(mask, w, i, j')] else old(a[i, j'])
        invariant forall i', j' :: i <= i' < h && 0 <= j' < w && (i' > i || j' >= j) ==> a[i', j'] == old(a[i', j'])
      {
        BeforeStep(mask, w, i, j);
        if mask[i][j] {
          a[i, j] := vals[c];
          c := c + 1;
        }
        j := j + 1;
      }
      BeforeNextRow(mask, w, i);
      i := i + 1;
    }
  }

  /** The solution as depth-map samples. */
  function Samples(z: seq<real>): (s: seq<Sample>)
    ensures |s| == |z| && forall t :: 0 <= t < |z| ==> s[t] == Num(z[t])
  {
    seq(|z|, t requires 0 <= t < |z| => Num(z[t]))
  }

  /**
   * A depth map: NaN everywhere, then the solved depths written into the
   * active pixels in row-major order.
   */
  method ScatterDepth(mask: seq<seq<bool>>, z: seq<real>) returns (d: array2<Sample>)
    requires Rectangular(mask, Width(mask))
    requires |z| == Count(Flatten(mask, Width(mask)))
    ensures fresh(d) && d.Length0 == |mask| && d.Length1 == Width(mask)
    ensures forall i, j :: 0 <= i < |mask| && 0 <= j < Width(mask) ==>
      d[i, j] == if mask[i][j] then Num(z[Before(mask, Width(mask), i, j)]) else NaN
  {
    d := new Sample[|mask|, Width(mask)]((i, j) => NaN);
    FillMasked(d, mask, Samples(z));
  }
}
