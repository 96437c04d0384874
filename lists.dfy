/**
 * Lists of lists and the flat lists built from them: the concatenation of
 * per-pixel lists (`np.concatenate`), each value repeated a given number of
 * times (`np.repeat`), and the prefix sums of the lengths that locate a
 * block inside the concatenation.
 */
module Lists {

  /** The sum of a list of counts. */
  function Sum(s: seq<nat>): nat
  {
    if |s| == 0 then 0 else Sum(s[..|s| - 1]) + s[|s| - 1]
  }

  /** The length of each list. */
  function Lengths<T>(ls: seq<seq<T>>): (r: seq<nat>)
    ensures |r| == |ls| && forall p :: 0 <= p < |ls| ==> r[p] == |ls[p]|
  {
    seq(|ls|, p requires 0 <= p < |ls| => |ls[p]|)
  }

  /** The lists one after the other. */
  function Concat<T>(ls: seq<seq<T>>): (r: seq<T>)
    ensures |r| == Sum(Lengths(ls))
  {
    if |ls| == 0 then []
    else
      assert Lengths(ls[..|ls| - 1]) == Lengths(ls)[..|ls| - 1];
      Concat(ls[..|ls| - 1]) + ls[|ls| - 1]
  }

  /** `np.arange(n)`. */
  function Range(n: nat): (r: seq<int>)
    ensures |r| == n && forall j :: 0 <= j < n ==> r[j] == j
  {
    seq(n, j => j)
  }

  /** `np.repeat(vals, lens)`: vals[p] repeated lens[p] times, block after block. */
  function RepeatEach<T>(vals: seq<T>, lens: seq<nat>): (r: seq<T>)
    requires |vals| == |lens|
    ensures |r| == Sum(lens)
  {
    var blocks := seq(|vals|, p requires 0 <= p < |vals| => seq(lens[p], _ => vals[p]));
    assert Lengths(blocks) == lens;
    Concat(blocks)
  }

  lemma {:induction false} SumStep(s: seq<nat>, p: int)
    requires 0 <= p < |s|
    ensures Sum(s[..p + 1]) == Sum(s[..p]) + s[p]
  {
    assert s[..p + 1][..p] == s[..p];
  }

  /** A longer prefix never sums to less. */
  lemma {:induction false} SumMono(s: seq<nat>, p: int, q: int)
    requires 0 <= p <= q <= |s|
    ensures Sum(s[..p]) <= Sum(s[..q])
    decreases q - p
  {
    if p < q {
      SumStep(s, p);
      SumMono(s, p + 1, q);
    }
  }

  lemma {:induction false} SumAll(s: seq<nat>)
    ensures Sum(s[..|s|]) == Sum(s)
  {
    assert s[..|s|] == s;
  }

  /** Counts that are all at least one sum to at least their number. */
  lemma {:induction false} SumAtLeast(s: seq<nat>)
    requires forall p :: 0 <= p < |s| ==> s[p] >= 1
    ensures Sum(s) >= |s|
  {
    if |s| > 0 {
      SumAtLeast(s[..|s| - 1]);
    }
  }

  /**
   * Entry a of block p sits at position Sum(lengths before p) + a of the
   * concatenation.
   */
  lemma {:induction false} ConcatAt<T>(ls: seq<seq<T>>, p: int, a: int, r: int)
    requires 0 <= p < |ls| && 0 <= a < |ls[p]|
    requires r == Sum(Lengths(ls)[..p]) + a
    ensures 0 <= r < |Concat(ls)| && Concat(ls)[r] == ls[p][a]
    decreases |ls|
  {
    var n := |ls| - 1;
    var front := ls[..n];
    var c := Concat(front);
    assert Concat(ls) == c + ls[n];
    assert Lengths(front) == Lengths(ls)[..n];
    assert |c| == Sum(Lengths(ls)[..n]);
    if p == n {
      assert r == |c| + a;
    } else {
      assert front[p] == ls[p];
      assert Lengths(front)[..p] == Lengths(ls)[..p];
      ConcatAt(front, p, a, r);
    }
  }

  /** Every position of the concatenation is entry a of some block p. */
  lemma {:induction false} ConcatLocate<T>(ls: seq<seq<T>>, r: int) returns (p: int, a: int)
    requires 0 <= r < |Concat(ls)|
    ensures 0 <= p < |ls| && 0 <= a < |ls[p]| && r == Sum(Lengths(ls)[..p]) + a
    decreases |ls|
  {
    var n := |ls| - 1;
    var front := ls[..n];
    assert Lengths(front) == Lengths(ls)[..n];
    if r < |Concat(front)| {
      p, a := ConcatLocate(front, r);
      assert Lengths(front)[..p] == Lengths(ls)[..p];
    } else {
      p, a := n, r - |Concat(front)|;
    }
  }

  /** Position Sum(lens before p) + a of the repetition holds vals[p]. */
  lemma {:induction false} RepeatEachAt<T>(vals: seq<T>, lens: seq<nat>, p: int, a: int, r: int)
    requires |vals| == |lens| && 0 <= p < |vals| && 0 <= a < lens[p]
    requires r == Sum(lens[..p]) + a
    ensures 0 <= r < |RepeatEach(vals, lens)| && RepeatEach(vals, lens)[r] == vals[p]
  {
    var blocks := seq(|vals|, p requires 0 <= p < |vals| => seq(lens[p], _ => vals[p]));
    assert Lengths(blocks) == lens;
    ConcatAt(blocks, p, a, r);
  }

  /** Every position of the repetition holds the value of the block it falls in. */
  lemma {:induction false} RepeatEachLocate<T>(vals: seq<T>, lens: seq<nat>, r: int) returns (p: int, a: int)
    requires |vals| == |lens| && 0 <= r < |RepeatEach(vals, lens)|
    ensures 0 <= p < |vals| && 0 <= a < lens[p] && r == Sum(lens[..p]) + a
    ensures RepeatEach(vals, lens)[r] == vals[p]
  {
    var blocks := seq(|vals|, p requires 0 <= p < |vals| => seq(lens[p], _ => vals[p]));
    assert Lengths(blocks) == lens;
    p, a := ConcatLocate(blocks, r);
    RepeatEachAt(vals, lens, p, a, r);
  }

  /**
   * The blocks of a concatenation follow each other: a position of block p
   * comes before every position of a later block.
   */
  lemma {:induction false} BlocksOrdered(lens: seq<nat>, p: int, a: int, q: int, b: int)
    requires 0 <= p < q < |lens| && 0 <= a < lens[p] && 0 <= b
    ensures Sum(lens[..p]) + a < Sum(lens[..q]) + b
  {
    SumStep(lens, p);
    SumMono(lens, p + 1, q);
  }

  /** Every entry of s lies in [lo, hi). */
  predicate AllIn(s: seq<int>, lo: int, hi: int)
  {
    forall j :: 0 <= j < |s| ==> lo <= s[j] < hi
  }

  lemma {:induction false} AllInAppend(a: seq<int>, b: seq<int>, lo: int, hi: int)
    ensures AllIn(a + b, lo, hi) <==> AllIn(a, lo, hi) && AllIn(b, lo, hi)
  {
    if AllIn(a + b, lo, hi) {
      forall j | 0 <= j < |a|
        ensures lo <= a[j] < hi
      {
        assert (a + b)[j] == a[j];
      }
      forall j | 0 <= j < |b|
        ensures lo <= b[j] < hi
      {
        assert (a + b)[|a| + j] == b[j];
      }
    }
    if AllIn(a, lo, hi) && AllIn(b, lo, hi) {
      forall j | 0 <= j < |a + b|
        ensures lo <= (a + b)[j] < hi
      {
        if j >= |a| {
          assert (a + b)[j] == b[j - |a|];
        }
      }
    }
  }
}
