/**
 * Fractal terrain: recursive midpoint displacement over the height map.
 *
 * The height map is a `gridSize` x `gridSize` array of heights. The
 * generator is given the four corner values of a square; it averages them
 * into the four edge midpoints, displaces the centre by a random amount
 * that shrinks with the square, clamps the centre to [0,1] and recurses
 * into the four quarters. A square of side 1 receives the average of its
 * corners scaled by `gridSize/2 - 1`.
 */
module Terrain {
  import opened Random
  import opened Grid

  /** `gridSize/2 - 1` (integer division, 256/2 - 1): the height of a leaf whose corners are all 1. */
  const HeightScale: real := 127.0

  /** A cell of the height map: (x, y). */
  type Cell = (int, int)

  predicate IsPow2(n: nat)
  {
    if n <= 1 then n == 1 else n % 2 == 0 && IsPow2(n / 2)
  }

  lemma GridSizeIsPow2()
    ensures IsPow2(GridSize)
  {
    assert IsPow2(1) && IsPow2(2) && IsPow2(4) && IsPow2(8) && IsPow2(16);
    assert IsPow2(32) && IsPow2(64) && IsPow2(128);
  }

  /** Number of `rand()` calls that `DivideGrid` makes on a square of side `size`. */
  function Draws(size: nat): nat
  {
    if size <= 1 then 0 else (if size == GridSize then 0 else 1) + 4 * Draws(size / 2)
  }

  /** The clamp that keeps a displaced midpoint inside [0,1]. */
  function Clamp01(v: real): (r: real)
    ensures 0.0 <= r <= 1.0
    ensures 0.0 <= v <= 1.0 ==> r == v
    ensures v < 0.0 ==> r == 0.0
    ensures v > 1.0 ==> r == 1.0
  {
    if v < 0.0 then 0.0 else if v > 1.0 then 1.0 else v
  }

  /**
   * `v * n` written as repeated addition, so that terms built from it stay
   * linear for the solver; `TimesIsProduct` states the product.
   */
  function Times(v: real, n: nat): real
  {
    if n == 0 then 0.0 else Times(v, n - 1) + v
  }

  lemma {:induction false} TimesIsProduct(v: real, n: nat)
    ensures Times(v, n) == v * n as real
  {
    if n > 0 {
      TimesIsProduct(v, n - 1);
    }
  }

  /**
   * The centre of a square: forced to 1.0 for the full grid, otherwise the
   * corner average displaced by the draw `r`, by at most half of
   * `newSize / gridSize * 3`; clamped to [0,1] in both cases.
   */
  function Midpoint(size: nat, avg: real, r: RandValue): (m: real)
    ensures 0.0 <= m <= 1.0
    ensures size == GridSize ==> m == 1.0
  {
    var raw := if size == GridSize then 1.0 else avg + Times(UnitDraw(r) - 0.5, size / 2) * 3.0 / 256.0;
    Clamp01(raw)
  }

  /** Below the full grid the displacement is `(rand()/RAND_MAX - 0.5) * (newSize / gridSize * 3)`. */
  lemma MidpointDisplacement(size: nat, avg: real, r: RandValue)
    requires size != GridSize
    ensures Midpoint(size, avg, r)
         == Clamp01(avg + (UnitDraw(r) - 0.5) * ((size / 2) as real / GridSize as real * 3.0))
  {
    TimesIsProduct(UnitDraw(r) - 0.5, size / 2);
    ScaleReorder(UnitDraw(r) - 0.5, (size / 2) as real);
  }

  lemma ScaleReorder(d: real, h: real)
    ensures d * h * 3.0 / 256.0 == d * (h / GridSize as real * 3.0)
  {
  }

  /** The heights at the four corners of a square, in the source's order c1..c4. */
  datatype Corners = Corners(c1: real, c2: real, c3: real, c4: real)

  function Average(c: Corners): real
  {
    (c.c1 + c.c2 + c.c3 + c.c4) / 4.0
  }

  predicate Unit(v: real) { 0.0 <= v <= 1.0 }

  predicate UnitCorners(c: Corners)
  {
    Unit(c.c1) && Unit(c.c2) && Unit(c.c3) && Unit(c.c4)
  }

  /** The four quarters of a square, in the order the source recurses into them. */
  type Quarter = q: nat | q < 4

  /**
   * The corners of quarter q: the square's own corner, two edge midpoints
   * (averages of adjacent corners) and the displaced centre `mid`.
   */
  function QuarterCorners(c: Corners, mid: real, q: Quarter): Corners
  {
    var e1, e2, e3, e4 := (c.c1 + c.c2) / 2.0, (c.c2 + c.c3) / 2.0, (c.c3 + c.c4) / 2.0, (c.c4 + c.c1) / 2.0;
    match q
    case 0 => Corners(c.c1, e1, mid, e4)
    case 1 => Corners(e1, c.c2, e2, mid)
    case 2 => Corners(mid, e2, c.c3, e3)
    case 3 => Corners(e4, mid, e3, c.c4)
  }

  /**
   * One invocation of `DivideGrid`: the square at (x, y) of side `size`,
   * its corner values, and how many values had been drawn before it.
   */
  datatype Call = Call(drawn: nat, x: int, y: int, size: nat, c: Corners)

  /** Cell (i, j) lies in the square at (x, y) of side `size`. */
  predicate InBox(x: int, y: int, size: nat, i: int, j: int)
  {
    x <= i < x + size && y <= j < y + size
  }

  predicate InSquare(p: Call, i: int, j: int)
  {
    InBox(p.x, p.y, p.size, i, j)
  }

  /** The quarter of the square of `p` that holds cell (i, j). */
  function QuarterOf(p: Call, i: int, j: int): Quarter
  {
    var half := p.size / 2;
    if i < p.x + half && j < p.y + half then 0
    else if j < p.y + half then 1
    else if p.x + half <= i then 2
    else 3
  }

  /** Draws made by `p` before the recursion enters quarter q. */
  function DrawsBefore(p: Call, q: Quarter): nat
  {
    var own := if p.size == GridSize then 0 else 1;
    p.drawn + own + q * Draws(p.size / 2)
  }

  /** The displaced centre of the square of `p`, using the next value of the stream. */
  function Centre(s: nat -> RandValue, p: Call): real
  {
    Midpoint(p.size, Average(p.c), s(p.drawn))
  }

  /** The q-th recursive call that `p` makes, in the source's order. */
  function SubCall(s: nat -> RandValue, p: Call, q: Quarter): Call
  {
    var half := p.size / 2;
    var cq := QuarterCorners(p.c, Centre(s, p), q);
    match q
    case 0 => Call(DrawsBefore(p, 0), p.x, p.y, half, cq)
    case 1 => Call(DrawsBefore(p, 1), p.x + half, p.y, half, cq)
    case 2 => Call(DrawsBefore(p, 2), p.x + half, p.y + half, half, cq)
    case 3 => Call(DrawsBefore(p, 3), p.x, p.y + half, half, cq)
  }

  /**
   * Reference definition of the height `DivideGrid` leaves in cell (i, j)
   * of the square of `p`: follow the recursion down the one quarter that
   * holds the cell, drawing from the stream `s`.
   */
  function HeightAt(s: nat -> RandValue, p: Call, i: int, j: int): real
    requires IsPow2(p.size) && InSquare(p, i, j)
    decreases p.size
  {
    if p.size == 1 then
      Average(p.c) * HeightScale
    else
      SubCallInSquare(s, p, i, j);
      HeightAt(s, SubCall(s, p, QuarterOf(p, i, j)), i, j)
  }

  /** The quarter named by `QuarterOf` holds the cell and is again a power-of-two square. */
  lemma SubCallInSquare(s: nat -> RandValue, p: Call, i: int, j: int)
    requires IsPow2(p.size) && p.size > 1 && InSquare(p, i, j)
    ensures IsPow2(SubCall(s, p, QuarterOf(p, i, j)).size)
    ensures InSquare(SubCall(s, p, QuarterOf(p, i, j)), i, j)
  {
  }

  /** Averages of values in [0,1] stay in [0,1]. */
  lemma SubCallUnit(s: nat -> RandValue, p: Call, q: Quarter)
    requires UnitCorners(p.c)
    ensures UnitCorners(SubCall(s, p, q).c)
  {
  }

  lemma ScaleBounds(a: real)
    requires Unit(a)
    ensures 0.0 <= a * HeightScale <= HeightScale
  {
    assert a * HeightScale <= 1.0 * HeightScale;
  }

  /** With corners in [0,1], every generated height lies in [0, gridSize/2 - 1]. */
  lemma {:induction false} HeightAtBounds(s: nat -> RandValue, p: Call, i: int, j: int)
    requires IsPow2(p.size) && InSquare(p, i, j)
    requires UnitCorners(p.c)
    ensures 0.0 <= HeightAt(s, p, i, j) <= HeightScale
    decreases p.size
  {
    if p.size == 1 {
      ScaleBounds(Average(p.c));
    } else {
      var q := QuarterOf(p, i, j);
      SubCallInSquare(s, p, i, j);
      SubCallUnit(s, p, q);
      HeightAtBounds(s, SubCall(s, p, q), i, j);
    }
  }

  /** Every height of a full-grid subdivision from corners in [0,1] lies in [0, gridSize/2 - 1]. */
  lemma HeightMapBounds(s: nat -> RandValue, p: Call)
    requires p.x == 0 && p.y == 0 && p.size == GridSize && UnitCorners(p.c)
    ensures IsPow2(p.size)
    ensures forall i, j :: 0 <= i < GridSize && 0 <= j < GridSize ==> 0.0 <= HeightAt(s, p, i, j) <= HeightScale
  {
    GridSizeIsPow2();
    forall i, j | 0 <= i < GridSize && 0 <= j < GridSize
      ensures 0.0 <= HeightAt(s, p, i, j) <= HeightScale
    {
      HeightAtBounds(s, p, i, j);
    }
  }

  /**
   * The height `DivideGrid` leaves in cell (i, j) of the height map: the
   * reference height inside the square of `p`, the previous height `prev`
   * outside it.
   */
  function Filled(s: nat -> RandValue, p: Call, i: int, j: int, prev: real): real
    requires IsPow2(p.size)
  {
    if InSquare(p, i, j) then HeightAt(s, p, i, j) else prev
  }

  /** A cell of quarter q lies in the square and in no other quarter. */
  lemma QuarterCell(s: nat -> RandValue, p: Call, q: Quarter, i: int, j: int)
    requires IsPow2(p.size) && p.size > 1
    requires InSquare(SubCall(s, p, q), i, j)
    ensures InSquare(p, i, j) && QuarterOf(p, i, j) == q
    ensures forall r: Quarter :: r != q ==> !InSquare(SubCall(s, p, r), i, j)
  {
  }

  /** Filling the four quarters one after the other fills the whole square. */
  lemma QuartersFill(s: nat -> RandValue, p: Call, i: int, j: int, prev: real)
    requires IsPow2(p.size) && p.size > 1
    ensures IsPow2(p.size / 2)
    ensures Filled(s, SubCall(s, p, 3), i, j,
              Filled(s, SubCall(s, p, 2), i, j,
                Filled(s, SubCall(s, p, 1), i, j,
                  Filled(s, SubCall(s, p, 0), i, j, prev))))
         == Filled(s, p, i, j, prev)
  {
    if InSquare(SubCall(s, p, 0), i, j) {
      QuarterCell(s, p, 0, i, j);
    } else if InSquare(SubCall(s, p, 1), i, j) {
      QuarterCell(s, p, 1, i, j);
    } else if InSquare(SubCall(s, p, 2), i, j) {
      QuarterCell(s, p, 2, i, j);
    } else if InSquare(SubCall(s, p, 3), i, j) {
      QuarterCell(s, p, 3, i, j);
    } else {
      assert !InSquare(p, i, j);
    }
  }

  /** The four recursive calls of `p`, spelled out for a centre `mid`. */
  lemma SubCalls(s: nat -> RandValue, p: Call, mid: real)
    requires mid == Centre(s, p)
    ensures SubCall(s, p, 0) == Call(DrawsBefore(p, 0), p.x, p.y, p.size / 2, QuarterCorners(p.c, mid, 0))
    ensures SubCall(s, p, 1) == Call(DrawsBefore(p, 1), p.x + p.size / 2, p.y, p.size / 2, QuarterCorners(p.c, mid, 1))
    ensures SubCall(s, p, 2)
         == Call(DrawsBefore(p, 2), p.x + p.size / 2, p.y + p.size / 2, p.size / 2, QuarterCorners(p.c, mid, 2))
    ensures SubCall(s, p, 3) == Call(DrawsBefore(p, 3), p.x, p.y + p.size / 2, p.size / 2, QuarterCorners(p.c, mid, 3))
  {
  }

  /**
   * The cells the call `p` writes, in the order it writes them: one leaf
   * per cell, quarter after quarter.
   */
  function LeafOrder(s: nat -> RandValue, p: Call): seq<Cell>
    requires IsPow2(p.size)
    decreases p.size
  {
    if p.size == 1 then [(p.x, p.y)]
    else
      LeafOrder(s, SubCall(s, p, 0)) + LeafOrder(s, SubCall(s, p, 1))
        + LeafOrder(s, SubCall(s, p, 2)) + LeafOrder(s, SubCall(s, p, 3))
  }

  /** No cell occurs twice in the sequence. */
  predicate NoRepeats(w: seq<Cell>)
  {
    forall a, b :: 0 <= a < b < |w| ==> w[a] != w[b]
  }

  lemma NoRepeatsJoin(v: seq<Cell>, w: seq<Cell>)
    requires NoRepeats(v) && NoRepeats(w)
    requires forall e :: e in v ==> e !in w
    ensures NoRepeats(v + w)
  {
    forall a, b | 0 <= a < b < |v + w| ensures (v + w)[a] != (v + w)[b] {
      if b < |v| {
      } else if a >= |v| {
        assert (v + w)[a] == w[a - |v|] && (v + w)[b] == w[b - |v|];
      } else {
        assert (v + w)[a] == v[a] && v[a] in v;
        assert (v + w)[b] == w[b - |v|] && w[b - |v|] in w;
      }
    }
  }

  lemma DoubleSquare(n: int)
    ensures (2 * n) * (2 * n) == 4 * (n * n)
  {
  }

  /** A call writes size * size cells. */
  lemma {:induction false} LeafOrderLength(s: nat -> RandValue, p: Call)
    requires IsPow2(p.size)
    ensures |LeafOrder(s, p)| == p.size * p.size
    decreases p.size
  {
    if p.size > 1 {
      var half := p.size / 2;
      var a, b, c, d := SubCall(s, p, 0), SubCall(s, p, 1), SubCall(s, p, 2), SubCall(s, p, 3);
      assert a.size == half && b.size == half && c.size == half && d.size == half;
      LeafOrderLength(s, a);
      LeafOrderLength(s, b);
      LeafOrderLength(s, c);
      LeafOrderLength(s, d);
      assert LeafOrder(s, p) == LeafOrder(s, a) + LeafOrder(s, b) + LeafOrder(s, c) + LeafOrder(s, d);
      var k := half * half;
      assert |LeafOrder(s, p)| == k + k + k + k;
      assert p.size == 2 * half;
      DoubleSquare(half);
    }
  }

  /** Every cell a call writes lies in its square. */
  lemma {:induction false} LeafOrderInside(s: nat -> RandValue, p: Call)
    requires IsPow2(p.size)
    ensures forall e :: e in LeafOrder(s, p) ==> InSquare(p, e.0, e.1)
    decreases p.size
  {
    if p.size > 1 {
      var w0, w1 := LeafOrder(s, SubCall(s, p, 0)), LeafOrder(s, SubCall(s, p, 1));
      var w2, w3 := LeafOrder(s, SubCall(s, p, 2)), LeafOrder(s, SubCall(s, p, 3));
      assert LeafOrder(s, p) == w0 + w1 + w2 + w3;
      LeafOrderInside(s, SubCall(s, p, 0));
      LeafOrderInside(s, SubCall(s, p, 1));
      LeafOrderInside(s, SubCall(s, p, 2));
      LeafOrderInside(s, SubCall(s, p, 3));
      forall e | e in LeafOrder(s, p) ensures InSquare(p, e.0, e.1) {
        if e in w0 {
          QuarterCell(s, p, 0, e.0, e.1);
        } else if e in w1 {
          QuarterCell(s, p, 1, e.0, e.1);
        } else if e in w2 {
          QuarterCell(s, p, 2, e.0, e.1);
        } else {
          QuarterCell(s, p, 3, e.0, e.1);
        }
      }
    }
  }

  /** No cell is written twice. */
  lemma {:induction false} LeafOrderNoRepeats(s: nat -> RandValue, p: Call)
    requires IsPow2(p.size)
    ensures NoRepeats(LeafOrder(s, p))
    decreases p.size
  {
    if p.size > 1 {
      var w0, w1 := LeafOrder(s, SubCall(s, p, 0)), LeafOrder(s, SubCall(s, p, 1));
      var w2, w3 := LeafOrder(s, SubCall(s, p, 2)), LeafOrder(s, SubCall(s, p, 3));
      LeafOrderNoRepeats(s, SubCall(s, p, 0));
      LeafOrderNoRepeats(s, SubCall(s, p, 1));
      LeafOrderNoRepeats(s, SubCall(s, p, 2));
      LeafOrderNoRepeats(s, SubCall(s, p, 3));
      LeafOrderInside(s, SubCall(s, p, 0));
      LeafOrderInside(s, SubCall(s, p, 1));
      LeafOrderInside(s, SubCall(s, p, 2));
      LeafOrderInside(s, SubCall(s, p, 3));
      NoRepeatsJoin(w0, w1);
      NoRepeatsJoin(w0 + w1, w2);
      NoRepeatsJoin(w0 + w1 + w2, w3);
    }
  }

  /** Every cell of the square is written. */
  lemma {:induction false} LeafOrderCovers(s: nat -> RandValue, p: Call, i: int, j: int)
    requires IsPow2(p.size) && InSquare(p, i, j)
    ensures (i, j) in LeafOrder(s, p)
    decreases p.size
  {
    if p.size > 1 {
      var q := QuarterOf(p, i, j);
      SubCallInSquare(s, p, i, j);
      LeafOrderCovers(s, SubCall(s, p, q), i, j);
    }
  }

  /**
   * The displaced centre of a square of side `size > 1`: the full grid's
   * centre is 1.0 without a draw, any smaller square draws once.
   */
  method DrawCentre(rng: Rng, size: nat, avg: real) returns (mid: real)
    modifies rng
    ensures mid == Midpoint(size, avg, rng.stream(old(rng.drawn)))
    ensures rng.drawn == old(rng.drawn) + (if size == GridSize then 0 else 1)
  {
    if size == GridSize {
      mid := 1.0;
    } else {
      var r := rng.Next();
      mid := Midpoint(size, avg, r);
    }
  }

  /**
   * `DivideGrid(x, y, size, c1, c2, c3, c4)` on the height map `h`, drawing
   * from `rng` (the corners c1..c4 are passed as one `Corners` value):
   * every cell of the square receives its reference height, every other
   * cell keeps its height, and exactly `Draws(size)` values are drawn.
   */
  method DivideGrid(h: array2<real>, rng: Rng, x: int, y: int, size: nat, c: Corners)
    requires h.Length0 == GridSize && h.Length1 == GridSize
    requires IsPow2(size) && 0 <= x && x + size <= GridSize && 0 <= y && y + size <= GridSize
    modifies h, rng
    ensures rng.drawn == old(rng.drawn) + Draws(size)
    ensures forall i, j :: 0 <= i < GridSize && 0 <= j < GridSize ==>
              h[i, j] == Filled(rng.stream, Call(old(rng.drawn), x, y, size, c), i, j, old(h[i, j]))
    decreases size
  {
    ghost var p := Call(rng.drawn, x, y, size, c);
    if size > 1 {
      var half := size / 2;
      var mid := DrawCentre(rng, size, Average(c));
      SubCalls(rng.stream, p, mid);
      assert rng.drawn == DrawsBefore(p, 0);
      DivideGrid(h, rng, x, y, half, QuarterCorners(c, mid, 0));
      assert rng.drawn == DrawsBefore(p, 1);
      DivideGrid(h, rng, x + half, y, half, QuarterCorners(c, mid, 1));
      assert rng.drawn == DrawsBefore(p, 2);
      DivideGrid(h, rng, x + half, y + half, half, QuarterCorners(c, mid, 2));
      assert rng.drawn == DrawsBefore(p, 3);
      DivideGrid(h, rng, x, y + half, half, QuarterCorners(c, mid, 3));
      forall i, j | 0 <= i < GridSize && 0 <= j < GridSize
        ensures h[i, j] == Filled(rng.stream, p, i, j, old(h[i, j]))
      {
        QuartersFill(rng.stream, p, i, j, old(h[i, j]));
      }
    } else {
      h[x, y] := Average(c) * HeightScale;
    }
  }

  /**
   * The top-level `DivideGrid` call of `SetHeightMap` when n values of the
   * stream were drawn before it: the next four give the corners.
   */
  function HeightMapCall(s: nat -> RandValue, n: nat): (p: Call)
    ensures p.drawn == n + 4 && p.x == 0 && p.y == 0 && p.size == GridSize && IsPow2(p.size)
    ensures UnitCorners(p.c)
  {
    GridSizeIsPow2();
    Call(n + 4, 0, 0, GridSize, Corners(UnitDraw(s(n)), UnitDraw(s(n + 1)), UnitDraw(s(n + 2)), UnitDraw(s(n + 3))))
  }

  /**
   * The height-map part of `SetHeightMap`: four corners drawn as
   * `rand()/RAND_MAX`, then the whole grid subdivided.
   */
  method GenerateHeightMap(h: array2<real>, rng: Rng)
    requires h.Length0 == GridSize && h.Length1 == GridSize
    modifies h, rng
    ensures rng.drawn == old(rng.drawn) + 4 + Draws(GridSize)
    ensures forall i, j :: 0 <= i < GridSize && 0 <= j < GridSize ==>
              h[i, j] == HeightAt(rng.stream, HeightMapCall(rng.stream, old(rng.drawn)), i, j)
    ensures forall i, j :: 0 <= i < GridSize && 0 <= j < GridSize ==>
              0.0 <= h[i, j] <= HeightScale
  {
    ghost var n := rng.drawn;
    var r1 := rng.Next();
    var r2 := rng.Next();
    var r3 := rng.Next();
    var r4 := rng.Next();
    var c := Corners(UnitDraw(r1), UnitDraw(r2), UnitDraw(r3), UnitDraw(r4));
    ghost var p := Call(rng.drawn, 0, 0, GridSize, c);
    assert p == HeightMapCall(rng.stream, n);
    GridSizeIsPow2();
    HeightMapBounds(rng.stream, p);
    DivideGrid(h, rng, 0, 0, GridSize, c);
    forall i, j | 0 <= i < GridSize && 0 <= j < GridSize
      ensures h[i, j] == HeightAt(rng.stream, p, i, j) && 0.0 <= h[i, j] <= HeightScale
    {
      assert InSquare(p, i, j);
    }
  }
}
