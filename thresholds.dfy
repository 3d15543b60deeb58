/**
 * The snow and water thresholds of the height map, and the levelling of
 * low ground to the water surface that happens while the terrain is drawn.
 *
 * The thresholds are order statistics of a coarse sample of the height map
 * (every tenth row and column): the water level is the value of rank 67 and
 * the snow line the value of rank 608 among the 676 sampled heights, which
 * is what `std::nth_element` leaves at those positions.
 */
module Thresholds {
  import opened Grid
  import opened Terrain

  /** Distance between two sampled rows (and columns). */
  const SampleStep: nat := 10
  /** Sampled rows per side: ceil(gridSize / 10). */
  const SampleSide: nat := 26
  /** Number of sampled heights, the length of the `values` buffer. */
  const SampleCount: nat := 676
  /** `sizeof(float)`: the ranks are computed from the buffer's size in bytes. */
  const FloatBytes: nat := 4
  /** floor(sizeof(values) * 0.10 / 4). */
  const WaterRank: nat := SampleCount * FloatBytes * 10 / 100 / FloatBytes
  /** floor(sizeof(values) * 0.90 / 4). */
  const SnowRank: nat := SampleCount * FloatBytes * 90 / 100 / FloatBytes
  /** The last index the drawing loops use as their bound (gridSize - 1). */
  const Limit: nat := 255

  lemma SampleShape()
    ensures SampleSide * SampleSide == SampleCount
    ensures SampleStep * (SampleSide - 1) < GridSize <= SampleStep * SampleSide
    ensures WaterRank == 67 && SnowRank == 608 && Limit == GridSize - 1
  {
  }

  // ---------------------------------------------------------------------
  // Sorting, as the reference for order statistics
  // ---------------------------------------------------------------------

  predicate Sorted(s: seq<real>)
  {
    forall i, j :: 0 <= i < j < |s| ==> s[i] <= s[j]
  }

  lemma SortedTail(a: seq<real>)
    requires Sorted(a) && a != []
    ensures Sorted(a[1..])
  {
    forall i, j | 0 <= i < j < |a| - 1
      ensures a[1..][i] <= a[1..][j]
    {
      assert a[1..][i] == a[i + 1] && a[1..][j] == a[j + 1];
    }
  }

  /** The first value of a sorted sequence is its least. */
  lemma SortedHeadIsLeast(a: seq<real>, x: real)
    requires Sorted(a) && x in multiset(a)
    ensures a[0] <= x
  {
    var i :| 0 <= i < |a| && a[i] == x;
    if i > 0 {
      assert a[0] <= a[i];
    }
  }

  lemma SortedJoin(x: seq<real>, y: seq<real>)
    requires Sorted(x) && Sorted(y) && x != []
    requires forall k :: 0 <= k < |y| ==> x[|x| - 1] <= y[k]
    ensures Sorted(x + y)
  {
    forall i, j | 0 <= i < j < |x + y|
      ensures (x + y)[i] <= (x + y)[j]
    {
      if i < |x| <= j {
        assert x[i] <= x[|x| - 1];
        assert (x + y)[j] == y[j - |x|];
      }
    }
  }

  function Insert(x: real, s: seq<real>): (r: seq<real>)
    ensures |r| == |s| + 1
  {
    if s == [] then [x]
    else if x <= s[0] then [x] + s
    else [s[0]] + Insert(x, s[1..])
  }

  /** The values of `s` in ascending order. */
  function Sort(s: seq<real>): (r: seq<real>)
    ensures |r| == |s|
  {
    if s == [] then [] else Insert(s[0], Sort(s[1..]))
  }

  lemma {:induction false} InsertMultiset(x: real, s: seq<real>)
    ensures multiset(Insert(x, s)) == multiset(s) + multiset{x}
    decreases |s|
  {
    if s != [] && x > s[0] {
      InsertMultiset(x, s[1..]);
      assert s == [s[0]] + s[1..];
    }
  }

  lemma {:induction false} InsertSorted(x: real, s: seq<real>)
    requires Sorted(s)
    ensures Sorted(Insert(x, s))
    decreases |s|
  {
    if s == [] || x <= s[0] {
      SortedJoin([x], s);
    } else {
      var t := Insert(x, s[1..]);
      SortedTail(s);
      InsertSorted(x, s[1..]);
      InsertMultiset(x, s[1..]);
      forall k | 0 <= k < |t|
        ensures s[0] <= t[k]
      {
        assert t[k] in multiset(t);
        if t[k] != x {
          assert t[k] in multiset(s[1..]);
          assert s == [s[0]] + s[1..];
          SortedHeadIsLeast(s, t[k]);
        }
      }
      SortedJoin([s[0]], t);
    }
  }

  /** Sort is a sorted permutation of its input. */
  lemma {:induction false} SortProperties(s: seq<real>)
    ensures Sorted(Sort(s))
    ensures multiset(Sort(s)) == multiset(s)
    decreases |s|
  {
    if s != [] {
      SortProperties(s[1..]);
      InsertSorted(s[0], Sort(s[1..]));
      InsertMultiset(s[0], Sort(s[1..]));
      assert s == [s[0]] + s[1..];
    }
  }

  /** A sorted sequence is determined by its multiset of values. */
  lemma {:induction false} SortedUnique(a: seq<real>, b: seq<real>)
    requires Sorted(a) && Sorted(b) && multiset(a) == multiset(b)
    ensures a == b
    decreases |a|
  {
    assert |b| == |multiset(b)| == |multiset(a)| == |a|;
    if a != [] {
      assert a[0] in multiset(a) && b[0] in multiset(b);
      SortedHeadIsLeast(a, b[0]);
      SortedHeadIsLeast(b, a[0]);
      assert a[0] == b[0];
      assert a == [a[0]] + a[1..];
      assert b == [b[0]] + b[1..];
      assert multiset(a[1..]) == multiset(a) - multiset{a[0]};
      assert multiset(b[1..]) == multiset(b) - multiset{b[0]};
      SortedTail(a);
      SortedTail(b);
      SortedUnique(a[1..], b[1..]);
    }
  }

  /** Sort only depends on which values are present, not on their order. */
  lemma SortOfPermutation(a: seq<real>, b: seq<real>)
    requires multiset(a) == multiset(b)
    ensures Sort(a) == Sort(b)
  {
    SortProperties(a);
    SortProperties(b);
    SortedUnique(Sort(a), Sort(b));
  }

  /** A lower bound of every value is a lower bound of every permutation of them. */
  lemma LowerBoundOfPermutation(v: real, b: seq<real>, c: seq<real>)
    requires multiset(b) == multiset(c)
    requires forall i :: 0 <= i < |b| ==> v <= b[i]
    ensures forall k :: 0 <= k < |c| ==> v <= c[k]
  {
    forall k | 0 <= k < |c|
      ensures v <= c[k]
    {
      assert c[k] in multiset(b);
      var i :| 0 <= i < |b| && b[i] == c[k];
    }
  }

  /**
   * A sequence whose first n+1 values are in order and no larger than any
   * later value has its n-th order statistic at position n.
   */
  lemma SelectedIsOrderStatistic(s: seq<real>, n: nat)
    requires n < |s|
    requires forall p, q :: 0 <= p < q <= n ==> s[p] <= s[q]
    requires forall p, q :: 0 <= p <= n < q < |s| ==> s[p] <= s[q]
    ensures Sort(s)[n] == s[n]
  {
    SortProperties(s[n + 1..]);
    SortProperties(s);
    SplitStatistic(s, n, Sort(s[n + 1..]), Sort(s));
  }

  /**
   * Any sorted permutation t of such an s has s[n] at position n: the prefix
   * followed by a sorted permutation h of the rest is one, and it is unique.
   */
  lemma SplitStatistic(s: seq<real>, n: nat, h: seq<real>, t: seq<real>)
    requires n < |s|
    requires forall p, q :: 0 <= p < q <= n ==> s[p] <= s[q]
    requires forall p, q :: 0 <= p <= n < q < |s| ==> s[p] <= s[q]
    requires Sorted(h) && multiset(h) == multiset(s[n + 1..])
    requires |t| == |s| && Sorted(t) && multiset(t) == multiset(s)
    ensures t[n] == s[n]
  {
    var low, high := s[..n + 1], s[n + 1..];
    SplitSorted(s, n, low, high);
    LowerBoundOfPermutation(s[n], high, h);
    SortedJoin(low, h);
    JoinPermutes(low, high, h);
    assert s == low + high;
    SortedUnique(low + h, t);
    assert (low + h)[n] == low[n];
  }

  /** The split used above: the prefix up to n is sorted and s[n] bounds the rest from below. */
  lemma SplitSorted(s: seq<real>, n: nat, low: seq<real>, high: seq<real>)
    requires n < |s| && low == s[..n + 1] && high == s[n + 1..]
    requires forall p, q :: 0 <= p < q <= n ==> s[p] <= s[q]
    requires forall p, q :: 0 <= p <= n < q < |s| ==> s[p] <= s[q]
    ensures Sorted(low)
    ensures forall i :: 0 <= i < |high| ==> s[n] <= high[i]
  {
    forall i | 0 <= i < |high| ensures s[n] <= high[i] {
      assert high[i] == s[n + 1 + i];
    }
    forall i, j | 0 <= i < j < |low| ensures low[i] <= low[j] {
      assert low[i] == s[i] && low[j] == s[j];
    }
  }

  /** Replacing the second part of a join by a permutation of it permutes the join. */
  lemma JoinPermutes(a: seq<real>, b: seq<real>, c: seq<real>)
    requires multiset(b) == multiset(c)
    ensures multiset(a + c) == multiset(a + b)
  {
  }

  // ---------------------------------------------------------------------
  // nth_element and the thresholds
  // ---------------------------------------------------------------------

  /** Index of a smallest value of a[from..]. */
  method MinFrom(a: array<real>, from: nat) returns (m: nat)
    requires from < a.Length
    ensures from <= m < a.Length
    ensures forall t :: from <= t < a.Length ==> a[m] <= a[t]
  {
    m := from;
    var j := from + 1;
    while j < a.Length
      invariant from <= m < j <= a.Length
      invariant forall t :: from <= t < j ==> a[m] <= a[t]
    {
      if a[j] < a[m] {
        m := j;
      }
      j := j + 1;
    }
  }

  method Swap(a: array<real>, i: nat, j: nat)
    requires i < a.Length && j < a.Length
    modifies a
    ensures a[..] == old(a[..])[i := old(a[j])][j := old(a[i])]
    ensures multiset(a[..]) == multiset(old(a[..]))
  {
    a[i], a[j] := a[j], a[i];
  }

  /** The first `count` values of s are its smallest, in ascending order. */
  predicate SmallestFirst(s: seq<real>, count: nat)
  {
    count <= |s| &&
    (forall p, q :: 0 <= p < q < count ==> s[p] <= s[q]) &&
    (forall p, q :: 0 <= p < count <= q < |s| ==> s[p] <= s[q])
  }

  /** One step of selection: swapping a least remaining value into place i. */
  lemma SelectStep(s: seq<real>, i: nat, m: nat)
    requires SmallestFirst(s, i) && i <= m < |s|
    requires forall t :: i <= t < |s| ==> s[m] <= s[t]
    ensures SmallestFirst(s[i := s[m]][m := s[i]], i + 1)
  {
    var r := s[i := s[m]][m := s[i]];
    forall p, q | 0 <= p < q < i + 1
      ensures r[p] <= r[q]
    {
      if q == i {
        assert r[q] == s[m] && r[p] == s[p];
      }
    }
    forall p, q | 0 <= p < i + 1 <= q < |r|
      ensures r[p] <= r[q]
    {
      assert r[q] == s[q] || (q == m && r[q] == s[i]);
    }
  }

  /**
   * Selection: moves the `count` smallest values of a, in ascending order,
   * to its front.
   */
  method SelectSmallest(a: array<real>, count: nat)
    requires count <= a.Length
    modifies a
    ensures multiset(a[..]) == multiset(old(a[..]))
    ensures SmallestFirst(a[..], count)
  {
    var i := 0;
    while i < count
      invariant i <= count
      invariant multiset(a[..]) == multiset(old(a[..]))
      invariant SmallestFirst(a[..], i)
    {
      var m := MinFrom(a, i);
      SelectStep(a[..], i, m);
      Swap(a, i, m);
      i := i + 1;
    }
  }

  /**
   * `std::nth_element(a, a + n, a + a.Length)`: permutes a so that a[n] is
   * the value sorting would put there, nothing before it is larger and
   * nothing after it is smaller.
   */
  method NthElement(a: array<real>, n: nat)
    requires n < a.Length
    modifies a
    ensures multiset(a[..]) == multiset(old(a[..]))
    ensures forall i :: 0 <= i < n ==> a[i] <= a[n]
    ensures forall i :: n < i < a.Length ==> a[n] <= a[i]
    ensures a[n] == Sort(old(a[..]))[n]
  {
    SelectSmallest(a, n + 1);
    assert SmallestFirst(a[..], n + 1);
    SelectedIsOrderStatistic(a[..], n);
    SortOfPermutation(a[..], old(a[..]));
  }

  /** The sampled heights, in the order the sampling loops visit them. */
  function Sample(h: array2<real>): (s: seq<real>)
    requires h.Length0 == GridSize && h.Length1 == GridSize
    reads h
    ensures |s| == SampleCount
    ensures forall r, c :: 0 <= r < SampleSide && 0 <= c < SampleSide ==>
              s[r * SampleSide + c] == h[SampleStep * r, SampleStep * c]
  {
    seq(SampleCount, k requires 0 <= k < SampleCount reads h =>
      h[SampleStep * (k / SampleSide), SampleStep * (k % SampleSide)])
  }

  /** The sampling loops of SetThresholds: fills the `values` buffer. */
  method CollectSample(h: array2<real>) returns (values: array<real>)
    requires h.Length0 == GridSize && h.Length1 == GridSize
    ensures fresh(values) && values[..] == Sample(h)
  {
    values := new real[SampleCount];
    var counter := 0;
    var i := 0;
    ghost var row := 0;
    while i < GridSize
      invariant row <= SampleSide && i == SampleStep * row
      invariant counter == row * SampleSide
      invariant forall k :: 0 <= k < counter ==> values[k] == Sample(h)[k]
    {
      var j := 0;
      ghost var col := 0;
      while j < GridSize
        invariant col <= SampleSide && j == SampleStep * col
        invariant counter == row * SampleSide + col
        invariant forall k :: 0 <= k < counter ==> values[k] == Sample(h)[k]
      {
        values[counter] := h[i, j];
        counter, col := counter + 1, col + 1;
        j := j + SampleStep;
      }
      i, row := i + SampleStep, row + 1;
    }
  }

  /**
   * SetThresholds: the water level and the snow line, the sampled heights of
   * rank 67 and 608. The water level never lies above the snow line.
   */
  method SetThresholds(h: array2<real>) returns (water: real, snow: real)
    requires h.Length0 == GridSize && h.Length1 == GridSize
    ensures water == Sort(Sample(h))[WaterRank]
    ensures snow == Sort(Sample(h))[SnowRank]
    ensures water <= snow
  {
    var values := CollectSample(h);
    SortProperties(Sample(h));
    NthElement(values, WaterRank);
    water := values[WaterRank];
    ghost var afterWater := values[..];
    NthElement(values, SnowRank);
    SortOfPermutation(afterWater, Sample(h));
    snow := values[SnowRank];
  }

  // ---------------------------------------------------------------------
  // Levelling the water surface
  // ---------------------------------------------------------------------

  /**
   * The height SetColor leaves at a cell of height v: a cell that is
   * neither above the snow line nor above the water level is raised to the
   * water level; every other cell keeps its height.
   */
  function Flattened(v: real, water: real, snow: real): (r: real)
    ensures v <= r
    ensures r == v || r == water
    ensures r != v ==> v < water && v <= snow
    ensures water <= snow ==> water <= r
  {
    if v > snow || v > water then v else water
  }

  /** Levelling an already levelled height changes nothing. */
  lemma FlattenedIdempotent(v: real, water: real, snow: real)
    ensures Flattened(Flattened(v, water, snow), water, snow) == Flattened(v, water, snow)
  {
  }

  /** The cells DrawTerrain passes to SetColor in either of its two loops. */
  predicate Visited(i: int, j: int)
  {
    (0 <= i < Limit && 0 <= j < Limit) || (0 < i <= Limit && 0 < j <= Limit)
  }

  /** Of the whole grid, only the corners (0, 255) and (255, 0) are never visited. */
  lemma VisitedCells(i: int, j: int)
    requires 0 <= i < GridSize && 0 <= j < GridSize
    ensures Visited(i, j) <==> !((i == 0 && j == Limit) || (i == Limit && j == 0))
  {
  }

  /** The height a cell has after DrawTerrain has run over it. */
  function FlatCell(v: real, i: int, j: int, water: real, snow: real): real
  {
    if Visited(i, j) then Flattened(v, water, snow) else v
  }

  /** The first drawing loop: x and z rise from 0 to limit - 1. */
  method LeftPass(h: array2<real>, water: real, snow: real)
    requires h.Length0 == GridSize && h.Length1 == GridSize
    modifies h
    ensures forall i, j :: 0 <= i < GridSize && 0 <= j < GridSize ==>
              h[i, j] == if i < Limit && j < Limit then Flattened(old(h[i, j]), water, snow) else old(h[i, j])
  {
    var x := 0;
    while x < Limit
      invariant 0 <= x <= Limit
      invariant forall i, j :: 0 <= i < GridSize && 0 <= j < GridSize ==>
                  h[i, j] == if i < x && j < Limit then Flattened(old(h[i, j]), water, snow) else old(h[i, j])
    {
      var z := 0;
      while z < Limit
        invariant 0 <= z <= Limit
        invariant forall i, j :: 0 <= i < GridSize && 0 <= j < GridSize ==>
                    h[i, j] == if (i < x && j < Limit) || (i == x && j < z)
                               then Flattened(old(h[i, j]), water, snow) else old(h[i, j])
      {
        h[x, z] := Flattened(h[x, z], water, snow);
        z := z + 1;
      }
      x := x + 1;
    }
  }

  /** The second drawing loop: x and z fall from limit to 1. */
  method RightPass(h: array2<real>, water: real, snow: real)
    requires h.Length0 == GridSize && h.Length1 == GridSize
    modifies h
    ensures forall i, j :: 0 <= i < GridSize && 0 <= j < GridSize ==>
              h[i, j] == if 0 < i && 0 < j then Flattened(old(h[i, j]), water, snow) else old(h[i, j])
  {
    var x := Limit;
    while x > 0
      invariant 0 <= x <= Limit
      invariant forall i, j :: 0 <= i < GridSize && 0 <= j < GridSize ==>
                  h[i, j] == if x < i && 0 < j then Flattened(old(h[i, j]), water, snow) else old(h[i, j])
    {
      var z := Limit;
      while z > 0
        invariant 0 <= z <= Limit
        invariant forall i, j :: 0 <= i < GridSize && 0 <= j < GridSize ==>
                    h[i, j] == if (x < i && 0 < j) || (i == x && z < j)
                               then Flattened(old(h[i, j]), water, snow) else old(h[i, j])
      {
        h[x, z] := Flattened(h[x, z], water, snow);
        z := z - 1;
      }
      x := x - 1;
    }
  }

  /**
   * The height-map side effect of DrawTerrain: every cell SetColor is called
   * on is levelled once, whichever of the two loops reaches it.
   */
  method FlattenTerrain(h: array2<real>, water: real, snow: real)
    requires h.Length0 == GridSize && h.Length1 == GridSize
    modifies h
    ensures forall i, j :: 0 <= i < GridSize && 0 <= j < GridSize ==>
              h[i, j] == FlatCell(old(h[i, j]), i, j, water, snow)
  {
    LeftPass(h, water, snow);
    RightPass(h, water, snow);
  }

  /** Drawing the terrain a second time (the next frame) leaves the heights as they are. */
  lemma FlatCellIdempotent(v: real, i: int, j: int, water: real, snow: real)
    ensures FlatCell(FlatCell(v, i, j, water, snow), i, j, water, snow) == FlatCell(v, i, j, water, snow)
  {
    FlattenedIdempotent(v, water, snow);
  }
}
