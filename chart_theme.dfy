/** `getRandomPalette(count)` of static/scripts/chart_theme.js: a copy of
    the ten-colour pool is shuffled in place by Fisher-Yates, the first
    `count` colours are taken (cycling through the shuffled pool when more
    than ten are asked for), and the pairs are split into background and
    border colours. `Math.random` is replaced by the indices it would pick:
    `draws[i]` is the `j` drawn when the loop is at `i`, with `0 <= j <= i`
    (`draws[0]` is never used). */
module ChartTheme {

  /** A pool entry `{ bg, border }`. */
  datatype ColorPair = ColorPair(bg: string, border: string)

  /** `COLOR_POOL`. */
  const ColorPool: seq<ColorPair> := [
    ColorPair("rgba(255, 215, 0, 0.6)", "rgba(255, 215, 0, 1)"),
    ColorPair("rgba(0, 255, 65, 0.5)", "rgba(0, 255, 65, 1)"),
    ColorPair("rgba(0, 123, 255, 0.6)", "rgba(0, 123, 255, 1)"),
    ColorPair("rgba(255, 0, 127, 0.5)", "rgba(255, 0, 127, 1)"),
    ColorPair("rgba(138, 43, 226, 0.6)", "rgba(138, 43, 226, 1)"),
    ColorPair("rgba(0, 206, 209, 0.5)", "rgba(0, 206, 209, 1)"),
    ColorPair("rgba(255, 69, 0, 0.6)", "rgba(255, 69, 0, 1)"),
    ColorPair("rgba(200, 200, 200, 0.4)", "rgba(200, 200, 200, 0.9)"),
    ColorPair("rgba(127, 255, 0, 0.5)", "rgba(127, 255, 0, 1)"),
    ColorPair("rgba(220, 20, 60, 0.6)", "rgba(220, 20, 60, 1)")
  ]

  /** Indices `Math.floor(Math.random() * (i + 1))` can produce. */
  predicate ValidDraws(draws: seq<int>, n: int) {
    |draws| == n && forall i :: 1 <= i < n ==> 0 <= draws[i] <= i
  }

  /** `[s[i], s[j]] = [s[j], s[i]]`. */
  function Swap<T>(s: seq<T>, i: int, j: int): (r: seq<T>)
    requires 0 <= i < |s| && 0 <= j < |s|
    ensures |r| == |s|
  {
    s[i := s[j]][j := s[i]]
  }

  /** The shuffle loop from index `i` down to 1. */
  function ShuffleFrom<T>(s: seq<T>, draws: seq<int>, i: int): (r: seq<T>)
    requires ValidDraws(draws, |s|) && i < |s|
    ensures |r| == |s|
    decreases i
  {
    if i <= 0 then s else ShuffleFrom(Swap(s, i, draws[i]), draws, i - 1)
  }

  /** The shuffled copy of the pool. */
  function Shuffled(draws: seq<int>): (p: seq<ColorPair>)
    requires ValidDraws(draws, |ColorPool|)
    ensures |p| == |ColorPool|
  {
    ShuffleFrom(ColorPool, draws, |ColorPool| - 1)
  }

  /** `s.slice(0, end)`: a negative end counts from the back. */
  function JsSliceTo<T>(s: seq<T>, end: int): (r: seq<T>)
    ensures end >= 0 ==> |r| == if end < |s| then end else |s|
    ensures end < 0 ==> |r| == if |s| + end > 0 then |s| + end else 0
    ensures r == s[..|r|]
  {
    var e := if end < 0 then (if |s| + end > 0 then |s| + end else 0) else if end < |s| then end else |s|;
    s[..e]
  }

  /** How many colours come back for `count`. */
  function PaletteLength(count: int): int {
    if count >= 0 then count else if 10 + count > 0 then 10 + count else 0
  }

  /** `getRandomPalette(count)`, returning `{ bgColors, borderColors }`. */
  method GetRandomPalette(count: int, draws: seq<int>) returns (bgColors: seq<string>, borderColors: seq<string>)
    requires ValidDraws(draws, |ColorPool|)
    ensures |bgColors| == PaletteLength(count) && |borderColors| == PaletteLength(count)
    ensures forall k :: 0 <= k < |bgColors| ==>
      bgColors[k] == Shuffled(draws)[k % |ColorPool|].bg &&
      borderColors[k] == Shuffled(draws)[k % |ColorPool|].border
  {
    var pool := new ColorPair[|ColorPool|](k requires 0 <= k < |ColorPool| => ColorPool[k]);
    assert pool[..] == ColorPool;
    FisherYates(pool, draws);
    var selected := TakeCycling(pool[..], count);
    bgColors := seq(|selected|, k requires 0 <= k < |selected| => selected[k].bg);
    borderColors := seq(|selected|, k requires 0 <= k < |selected| => selected[k].border);
  }

  /** The shuffle loop, in place on the copy of the pool. */
  method FisherYates<T>(pool: array<T>, draws: seq<int>)
    requires ValidDraws(draws, pool.Length)
    modifies pool
    ensures pool[..] == ShuffleFrom(old(pool[..]), draws, pool.Length - 1)
  {
    var i := pool.Length - 1;
    while i > 0
      invariant -1 <= i < pool.Length
      invariant pool.Length > 0 ==> 0 <= i
      invariant ShuffleFrom(pool[..], draws, i) == ShuffleFrom(old(pool[..]), draws, pool.Length - 1)
      decreases i
    {
      var j := draws[i];
      ghost var before := pool[..];
      pool[i], pool[j] := pool[j], pool[i];
      assert pool[..] == Swap(before, i, j);
      i := i - 1;
    }
  }

  /** `pool.slice(0, count)`, then pushing `pool[selected.length % pool.length]`
      while fewer than `count` were taken. */
  method TakeCycling<T>(pool: seq<T>, count: int) returns (selected: seq<T>)
    requires |pool| == 10
    ensures |selected| == PaletteLength(count)
    ensures forall k :: 0 <= k < |selected| ==> selected[k] == pool[k % |pool|]
  {
    selected := JsSliceTo(pool, count);
    while |selected| < count
      invariant |selected| <= PaletteLength(count)
      invariant forall k :: 0 <= k < |selected| ==> selected[k] == pool[k % |pool|]
      decreases count - |selected|
    {
      selected := selected + [pool[|selected| % |pool|]];
    }
  }

  // ---------------------------------------------------------------------
  // Properties
  // ---------------------------------------------------------------------

  predicate Distinct<T(==)>(s: seq<T>) {
    forall i, j :: 0 <= i < j < |s| ==> s[i] != s[j]
  }

  /** The pool's background colours differ from each other, and so do its
      border colours. */
  lemma PoolColoursDistinct()
    ensures forall i, j :: 0 <= i < j < |ColorPool| ==>
      ColorPool[i].bg != ColorPool[j].bg && ColorPool[i].border != ColorPool[j].border
  {
  }

  /** No entry of the pool appears twice. */
  lemma PoolDistinct()
    ensures Distinct(ColorPool)
  {
    PoolColoursDistinct();
  }

  lemma SwapPermutes<T>(s: seq<T>, i: int, j: int)
    requires 0 <= i < |s| && 0 <= j < |s|
    ensures multiset(Swap(s, i, j)) == multiset(s)
    ensures Distinct(s) ==> Distinct(Swap(s, i, j))
  {
  }

  /** The shuffle rearranges its input: it loses nothing, adds nothing,
      and keeps distinct entries distinct. */
  lemma {:induction false} ShufflePermutes<T>(s: seq<T>, draws: seq<int>, i: int)
    requires ValidDraws(draws, |s|) && i < |s|
    ensures multiset(ShuffleFrom(s, draws, i)) == multiset(s)
    ensures Distinct(s) ==> Distinct(ShuffleFrom(s, draws, i))
    decreases i
  {
    if i > 0 {
      SwapPermutes(s, i, draws[i]);
      ShufflePermutes(Swap(s, i, draws[i]), draws, i - 1);
    }
  }

  /** The shuffled pool is a permutation of the pool with no entry twice. */
  lemma ShuffledIsPermutation(draws: seq<int>)
    requires ValidDraws(draws, |ColorPool|)
    ensures multiset(Shuffled(draws)) == multiset(ColorPool)
    ensures Distinct(Shuffled(draws))
  {
    PoolDistinct();
    ShufflePermutes(ColorPool, draws, |ColorPool| - 1);
  }

  /** For `count >= 0` both lists have exactly `count` colours. */
  lemma NonNegativeCountLength(count: int)
    requires count >= 0
    ensures PaletteLength(count) == count
  {
  }

  /** Up to ten colours are pairwise different, in both lists; the k-th
      background and border colours always come from one pool entry. */
  lemma PaletteColoursDistinct(draws: seq<int>, k1: int, k2: int)
    requires ValidDraws(draws, |ColorPool|)
    requires 0 <= k1 < k2 < |ColorPool|
    ensures Shuffled(draws)[k1].bg != Shuffled(draws)[k2].bg
    ensures Shuffled(draws)[k1].border != Shuffled(draws)[k2].border
    ensures Shuffled(draws)[k1] in ColorPool
  {
    ShuffledIsPermutation(draws);
    PoolColoursDistinct();
    RearrangedColoursDistinct(ColorPool, Shuffled(draws), k1, k2);
  }

  /** A rearrangement without repeats of a pool whose colours are
      pairwise different keeps them pairwise different. */
  lemma RearrangedColoursDistinct(pool: seq<ColorPair>, p: seq<ColorPair>, k1: int, k2: int)
    requires multiset(p) == multiset(pool) && Distinct(p)
    requires forall i, j :: 0 <= i < j < |pool| ==>
      pool[i].bg != pool[j].bg && pool[i].border != pool[j].border
    requires 0 <= k1 < k2 < |p|
    ensures p[k1].bg != p[k2].bg && p[k1].border != p[k2].border
    ensures p[k1] in pool
  {
    assert p[k1] in multiset(p) && p[k2] in multiset(p);
    var a :| 0 <= a < |pool| && pool[a] == p[k1];
    var b :| 0 <= b < |pool| && pool[b] == p[k2];
    assert a != b;
    if a < b {
      assert pool[a].bg != pool[b].bg && pool[a].border != pool[b].border;
    } else {
      assert pool[b].bg != pool[a].bg && pool[b].border != pool[a].border;
    }
  }
}
