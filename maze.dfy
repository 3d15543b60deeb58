/**
 * The navigation graph: a 25 x 25 table of nodes laid over the terrain,
 * one every ten height-map cells. A node is in the game when the terrain
 * under it lies strictly between the water level and the snow line. A
 * depth-first traversal from Pac-Man's start node links every reached node
 * to its in-game neighbours and puts a dot on it; the dots on the four
 * corner nodes then become power pills.
 */
module Maze {
  import opened Wrappers
  import opened Grid

  /** Distance between two parallel paths, in height-map cells. */
  const DistPaths: nat := 10
  /** Nodes per row and per column: gridSize / DistPaths. */
  const NodesPerLine: nat := 25
  /** Margin left on each side of the table: (gridSize - 250) / 2. */
  const Gap: nat := 3
  /** Column and first row of the start-node scan: NodesPerLine/2 and NodesPerLine/4. */
  const StartX: nat := 12
  const StartZ: nat := 6

  lemma LayoutConstants()
    ensures NodesPerLine == GridSize / DistPaths
    ensures Gap == (GridSize - DistPaths * NodesPerLine) / 2
    ensures StartX == NodesPerLine / 2 && StartZ == NodesPerLine / 4
  {
  }

  /** A node's indices in the table (i along x, j along z). */
  type Pos = (int, int)

  predicate InGrid(p: Pos)
  {
    0 <= p.0 < NodesPerLine && 0 <= p.1 < NodesPerLine
  }

  /**
   * Height-map coordinate of the node with index i: the middle of the i-th
   * ten-cell strip after the margin, gap + (i + 1/2) * DistPaths.
   */
  function NodeCoord(i: int): (c: int)
    ensures 0 <= i < NodesPerLine ==> Gap < c < GridSize - Gap
    ensures (c - Gap) % DistPaths == DistPaths / 2
  {
    Gap + i * DistPaths + DistPaths / 2
  }

  /** C's conversion of a float to int, which truncates toward zero. */
  function Trunc(v: real): (t: int)
    ensures 0.0 <= v ==> t as real <= v < t as real + 1.0
    ensures v < 0.0 ==> t as real - 1.0 < v <= t as real
  {
    if v >= 0.0 then v.Floor else -((-v).Floor)
  }

  /** A node is in the game when its truncated height lies strictly between water and snow. */
  predicate Walkable(height: real, water: real, snow: real)
  {
    water < Trunc(height) as real < snow
  }

  /** The in-game positions of a height map under given thresholds. */
  ghost function WalkSet(h: array2<real>, water: real, snow: real): (w: set<Pos>)
    requires h.Length0 == GridSize && h.Length1 == GridSize
    reads h
    ensures forall q :: q in w <==> InGrid(q) && Walkable(h[NodeCoord(q.0), NodeCoord(q.1)], water, snow)
  {
    set i, j | 0 <= i < NodesPerLine && 0 <= j < NodesPerLine &&
               Walkable(h[NodeCoord(i), NodeCoord(j)], water, snow) :: (i, j)
  }

  // ---------------------------------------------------------------------
  // Directions and links
  // ---------------------------------------------------------------------

  /** The four links of a node: left is -x, right is +x, up is +z, down is -z. */
  datatype Dir = Left | Up | Right | Down

  function Step(p: Pos, d: Dir): Pos
  {
    match d
    case Left => (p.0 - 1, p.1)
    case Up => (p.0, p.1 + 1)
    case Right => (p.0 + 1, p.1)
    case Down => (p.0, p.1 - 1)
  }

  function Opposite(d: Dir): (e: Dir)
    ensures e != d
    ensures forall p {:trigger Step(Step(p, d), e)} :: Step(Step(p, d), e) == p
  {
    match d
    case Left => Right
    case Up => Down
    case Right => Left
    case Down => Up
  }

  /** `Neighbors`: one optional link per direction (NULL is None). */
  datatype Links = Links(left: Option<Pos>, up: Option<Pos>, right: Option<Pos>, down: Option<Pos>)

  const NoLinks := Links(None, None, None, None)

  function Link(l: Links, d: Dir): Option<Pos>
  {
    match d
    case Left => l.left
    case Up => l.up
    case Right => l.right
    case Down => l.down
  }

  function SetLink(l: Links, d: Dir, v: Option<Pos>): (r: Links)
    ensures Link(r, d) == v
    ensures forall e :: e != d ==> Link(r, e) == Link(l, e)
  {
    match d
    case Left => l.(left := v)
    case Up => l.(up := v)
    case Right => l.(right := v)
    case Down => l.(down := v)
  }

  /**
   * A node of the table. `adj` holds the first `numadj` entries of the C
   * array, so numadj is |adj|.
   */
  datatype Node = Node(traversed: bool, x: int, z: int, ingame: bool, dot: bool, ppill: bool,
                       nbor: Links, adj: seq<Pos>)

  /** A node as static storage holds it before the table is laid out. */
  const BlankNode := Node(false, 0, 0, false, false, false, NoLinks, [])

  // ---------------------------------------------------------------------
  // What the traversal builds
  // ---------------------------------------------------------------------

  /** The link the traversal makes from centre c in direction d. */
  function LinkTarget(walk: set<Pos>, c: Pos, d: Dir): (t: Option<Pos>)
    ensures t.Some? <==> InGrid(Step(c, d)) && Step(c, d) in walk
    ensures t.Some? ==> t.value == Step(c, d)
  {
    if InGrid(Step(c, d)) && Step(c, d) in walk then Some(Step(c, d)) else None
  }

  function AsSeq(o: Option<Pos>): seq<Pos>
  {
    if o.Some? then [o.value] else []
  }

  /** The four links of a node examined around centre c. */
  function ExpectedLinks(walk: set<Pos>, c: Pos): Links
  {
    Links(LinkTarget(walk, c, Left), LinkTarget(walk, c, Up),
          LinkTarget(walk, c, Right), LinkTarget(walk, c, Down))
  }

  /** The adjacency array, in the order the traversal appends: left, right, up, down. */
  function ExpectedAdj(walk: set<Pos>, c: Pos): seq<Pos>
  {
    AsSeq(LinkTarget(walk, c, Left)) + AsSeq(LinkTarget(walk, c, Right)) +
    AsSeq(LinkTarget(walk, c, Up)) + AsSeq(LinkTarget(walk, c, Down))
  }

  /** numadj is at most 4, and adj[0..numadj) lists exactly the non-null links. */
  lemma AdjListsLinks(walk: set<Pos>, c: Pos)
    ensures |ExpectedAdj(walk, c)| <= 4
    ensures forall n :: n in ExpectedAdj(walk, c) <==> exists d :: Link(ExpectedLinks(walk, c), d) == Some(n)
  {
    var a := ExpectedAdj(walk, c);
    forall n | n in a
      ensures exists d :: Link(ExpectedLinks(walk, c), d) == Some(n)
    {
      if n in AsSeq(LinkTarget(walk, c, Left)) {
        assert Link(ExpectedLinks(walk, c), Left) == Some(n);
      } else if n in AsSeq(LinkTarget(walk, c, Right)) {
        assert Link(ExpectedLinks(walk, c), Right) == Some(n);
      } else if n in AsSeq(LinkTarget(walk, c, Up)) {
        assert Link(ExpectedLinks(walk, c), Up) == Some(n);
      } else {
        assert Link(ExpectedLinks(walk, c), Down) == Some(n);
      }
    }
    forall n, d | Link(ExpectedLinks(walk, c), d) == Some(n)
      ensures n in a
    {
      assert LinkTarget(walk, c, d) == Some(n);
    }
  }

  /** Every link points to the grid-adjacent in-game node in its direction. */
  lemma LinksAreAdjacent(walk: set<Pos>, c: Pos, d: Dir)
    ensures Link(ExpectedLinks(walk, c), d).Some? ==>
              var n := Link(ExpectedLinks(walk, c), d).value;
              n == Step(c, d) && InGrid(n) && n in walk
  {
  }

  /** Links between two in-game nodes examined around themselves are mutual. */
  lemma LinksMutual(walk: set<Pos>, a: Pos, d: Dir)
    requires InGrid(a) && a in walk
    requires Link(ExpectedLinks(walk, a), d).Some?
    ensures Link(ExpectedLinks(walk, Step(a, d)), Opposite(d)) == Some(a)
  {
    assert Step(Step(a, d), Opposite(d)) == a;
  }

  /** Every position of the table. */
  ghost function AllPos(): (s: set<Pos>)
    ensures forall q :: q in s <==> InGrid(q)
  {
    set i, j | 0 <= i < NodesPerLine && 0 <= j < NodesPerLine :: (i, j)
  }

  // ---------------------------------------------------------------------
  // The start-node scan
  // ---------------------------------------------------------------------

  /** All four neighbours of (sx, z) are in the game. */
  predicate Surrounded(walk: set<Pos>, sx: int, z: int)
  {
    (sx + 1, z) in walk && (sx - 1, z) in walk && (sx, z + 1) in walk && (sx, z - 1) in walk
  }

  /**
   * The node findPacmanStartNode settles on, scanning up column sx from z:
   * the first node that is in the game or whose four neighbours all are;
   * None when the scan would go past the last row of the table.
   */
  function StartScan(walk: set<Pos>, sx: int, z: int): Option<Pos>
    requires 0 <= z < NodesPerLine
    decreases NodesPerLine - z
  {
    if (sx, z) in walk then Some((sx, z))
    else if z == NodesPerLine - 1 then None
    else if Surrounded(walk, sx, z) then Some((sx, z))
    else StartScan(walk, sx, z + 1)
  }

  /**
   * The scan finds the first row from z up that is in the game or
   * surrounded, and finds nothing exactly when no row is, short of the
   * last one for the surrounded test.
   */
  lemma {:induction false} StartScanFirst(walk: set<Pos>, sx: int, z: int)
    requires 0 <= z < NodesPerLine
    ensures var r := StartScan(walk, sx, z);
            r.Some? ==> r.value.0 == sx && z <= r.value.1 < NodesPerLine &&
                        (r.value in walk || Surrounded(walk, sx, r.value.1)) &&
                        forall k :: z <= k < r.value.1 ==> (sx, k) !in walk && !Surrounded(walk, sx, k)
    ensures StartScan(walk, sx, z).None? <==>
              forall k :: z <= k < NodesPerLine ==> (sx, k) !in walk && (k < NodesPerLine - 1 ==> !Surrounded(walk, sx, k))
    decreases NodesPerLine - z
  {
    if (sx, z) !in walk && z < NodesPerLine - 1 && !Surrounded(walk, sx, z) {
      StartScanFirst(walk, sx, z + 1);
    }
  }

  // ---------------------------------------------------------------------
  // The node table
  // ---------------------------------------------------------------------

  /** A node as createAdjacencyList's first loop leaves it; its links are kept. */
  function Laid(n: Node, q: Pos, ingame: bool): Node
  {
    n.(traversed := false, x := NodeCoord(q.0), z := NodeCoord(q.1), ingame := ingame,
       dot := false, ppill := false, adj := [])
  }

  predicate IsCorner(q: Pos)
  {
    (q.0 == 0 || q.0 == NodesPerLine - 1) && (q.1 == 0 || q.1 == NodesPerLine - 1)
  }

  /** placePowerpill's effect on a node: a corner dot becomes a power pill. */
  function WithPill(n: Node): (r: Node)
    ensures r.dot || r.ppill <==> n.dot || n.ppill
    ensures n.dot ==> !r.dot && r.ppill
    ensures !n.dot ==> r == n
    ensures r.traversed == n.traversed && r.x == n.x && r.z == n.z && r.ingame == n.ingame
    ensures r.nbor == n.nbor && r.adj == n.adj
  {
    if n.dot then n.(dot := false, ppill := true) else n
  }

  /** The table after createAdjacencyList's last loop: placePowerpill on the four corners. */
  ghost function WithCornerPills(t: Table): (r: Table)
    requires forall q :: InGrid(q) ==> q in t
    ensures forall q :: InGrid(q) ==> q in r && r[q] == if IsCorner(q) then WithPill(t[q]) else t[q]
  {
    map q | q in AllPos() :: if IsCorner(q) then WithPill(t[q]) else t[q]
  }

  // ---------------------------------------------------------------------
  // traverseNeighbors, on the table as a value
  // ---------------------------------------------------------------------

  /** The node table as a map from positions to nodes. */
  type Table = map<Pos, Node>

  /** The state traverseNeighbors works on: the table and the global dot count. */
  datatype Graph = Graph(table: Table, numDots: int)

  /** Every position of the grid has a node. */
  ghost predicate Complete(t: Table)
  {
    forall q :: InGrid(q) ==> q in t
  }

  /** The positions whose nodes are marked traversed. */
  ghost function Reached(t: Table): (r: set<Pos>)
    ensures forall q :: q in r <==> InGrid(q) && q in t && t[q].traversed
  {
    set q | q in AllPos() && q in t && t[q].traversed
  }

  /** Writing one node changes the traversed set only at that node. */
  lemma ReachedUpdate(t: Table, p: Pos, v: Node)
    requires InGrid(p)
    ensures Reached(t[p := v]) == if v.traversed then Reached(t) + {p} else Reached(t) - {p}
  {
  }

  /** Writing a node without changing its traversed flag leaves the traversed set as it is. */
  lemma ReachedSame(t: Table, p: Pos, v: Node)
    requires InGrid(p) && p in t && v.traversed == t[p].traversed
    ensures Reached(t[p := v]) == Reached(t)
  {
    ReachedUpdate(t, p, v);
  }

  /** The fields the traversal never changes. */
  predicate Kept(a: Node, b: Node)
  {
    a.x == b.x && a.z == b.z && a.ingame == b.ingame
  }

  /** The neighbour of centre c in direction d, when it is on the grid and in the game. */
  ghost function Target(t: Table, c: Pos, d: Dir): (r: Option<Pos>)
    requires Complete(t)
    ensures r.Some? <==> InGrid(Step(c, d)) && t[Step(c, d)].ingame
    ensures r.Some? ==> r.value == Step(c, d)
  {
    if InGrid(Step(c, d)) && t[Step(c, d)].ingame then Some(Step(c, d)) else None
  }

  /** Targets depend on the in-game flags only, which the traversal keeps. */
  lemma TargetsKept(a: Table, b: Table, c: Pos)
    requires Complete(a) && Complete(b)
    requires forall q :: InGrid(q) ==> Kept(b[q], a[q])
    ensures forall d :: Target(b, c, d) == Target(a, c, d)
  {
  }

  /** Node v after the block of traverseNeighbors for direction d: the link set and, if not NULL, appended to adj. */
  function Linked(v: Node, target: Option<Pos>, d: Dir): Node
  {
    v.(nbor := SetLink(v.nbor, d, target), adj := v.adj + AsSeq(target))
  }

  /**
   * Table b follows a in the traversal: every node keeps its coordinates
   * and in-game flag, the traversed set only grows, and the nodes in
   * `fixed` and those still not traversed are as they were.
   */
  ghost predicate Grows(a: Table, b: Table, fixed: set<Pos>)
  {
    Complete(b) && Reached(a) <= Reached(b) &&
    forall q {:trigger b[q]} :: InGrid(q) ==> q in a && Kept(b[q], a[q]) && (q in fixed || q !in Reached(b) ==> b[q] == a[q])
  }

  /** Writing a traversed node keeps every other node. */
  lemma GrowsUpdate(t: Table, p: Pos, v: Node)
    requires Complete(t) && InGrid(p) && Kept(v, t[p]) && v.traversed
    ensures Grows(t, t[p := v], Reached(t) - {p})
  {
    ReachedUpdate(t, p, v);
  }

  /** The part of the grid not yet traversed shrinks as the traversed set grows. */
  lemma PendingShrinks(a: Table, b: Table)
    requires Reached(a) <= Reached(b)
    ensures AllPos() - Reached(b) <= AllPos() - Reached(a)
  {
  }

  lemma GrowsTrans(a: Table, b: Table, c: Table, f: set<Pos>, g: set<Pos>)
    requires Grows(a, b, f) && Grows(b, c, g) && f <= g
    ensures Grows(a, c, f)
  {
  }

  /**
   * `traverseNeighbors(node, x, y)` with c = (x, y): nothing when the node
   * is already traversed; otherwise mark it, and when it is in the game
   * give it a dot, count it and run the four neighbour blocks.
   */
  ghost function TraverseFrom(g: Graph, node: Pos, c: Pos): (r: Graph)
    requires Complete(g.table) && InGrid(node) && InGrid(c)
    ensures Grows(g.table, r.table, Reached(g.table)) && node in Reached(r.table)
    decreases AllPos() - Reached(g.table), 0
  {
    var n := g.table[node];
    if n.traversed then g
    else if !n.ingame then
      GrowsUpdate(g.table, node, n.(traversed := true));
      Graph(g.table[node := n.(traversed := true)], g.numDots)
    else
      var g1 := Graph(g.table[node := n.(traversed := true, dot := true, adj := [])], g.numDots + 1);
      GrowsUpdate(g.table, node, g1.table[node]);
      var r := VisitAll(g1, node, c, Blocks);
      GrowsTrans(g.table, g1.table, r.table, Reached(g.table), Reached(g1.table) - {node});
      r
  }

  /** The neighbour blocks of traverseNeighbors, in the source's order. */
  const Blocks: seq<Dir> := [Left, Right, Up, Down]

  /** Node v after the neighbour blocks for directions ds, in order, with targets read from t. */
  ghost function LinkedAll(v: Node, t: Table, c: Pos, ds: seq<Dir>): Node
    requires Complete(t)
  {
    if ds == [] then v
    else Linked(LinkedAll(v, t, c, ds[..|ds| - 1]), Target(t, c, ds[|ds| - 1]), ds[|ds| - 1])
  }

  /** The neighbour blocks for directions ds, run one after the other. */
  ghost function VisitAll(g: Graph, node: Pos, c: Pos, ds: seq<Dir>): (r: Graph)
    requires Complete(g.table) && InGrid(node) && InGrid(c) && node in Reached(g.table)
    ensures Grows(g.table, r.table, Reached(g.table) - {node})
    ensures r.table[node] == LinkedAll(g.table[node], g.table, c, ds)
    ensures forall d :: d in ds && Target(g.table, c, d).Some? ==> Target(g.table, c, d).value in Reached(r.table)
    ensures Complete(r.table) && node in Reached(r.table)
    decreases AllPos() - Reached(g.table), 2, |ds|
  {
    if ds == [] then
      GrowsUpdate(g.table, node, g.table[node]);
      assert g.table[node := g.table[node]] == g.table;
      g
    else
      var g1 := VisitAll(g, node, c, ds[..|ds| - 1]);
      PendingShrinks(g.table, g1.table);
      TargetsKept(g.table, g1.table, c);
      var r := VisitFrom(g1, node, c, ds[|ds| - 1]);
      GrowsTrans(g.table, g1.table, r.table, Reached(g.table) - {node}, Reached(g1.table) - {node});
      r
  }

  /**
   * One neighbour block: when the neighbour of c in direction d exists and
   * is in the game, link node to it, append it to adj and traverse from it;
   * otherwise set the link to NULL.
   */
  ghost function VisitFrom(g: Graph, node: Pos, c: Pos, d: Dir): (r: Graph)
    requires Complete(g.table) && InGrid(node) && InGrid(c) && node in Reached(g.table)
    ensures Grows(g.table, r.table, Reached(g.table) - {node})
    ensures r.table[node] == Linked(g.table[node], Target(g.table, c, d), d)
    ensures Target(g.table, c, d).Some? ==> Target(g.table, c, d).value in Reached(r.table)
    ensures Complete(r.table) && node in Reached(r.table)
    decreases AllPos() - Reached(g.table), 1
  {
    var v := g.table[node];
    var m := Step(c, d);
    if InGrid(m) && g.table[m].ingame then
      var t1 := g.table[node := v.(nbor := SetLink(v.nbor, d, Some(m)), adj := v.adj + [m])];
      GrowsUpdate(g.table, node, t1[node]);
      ReachedSame(g.table, node, t1[node]);
      var r := TraverseFrom(Graph(t1, g.numDots), m, m);
      GrowsTrans(g.table, t1, r.table, Reached(g.table) - {node}, Reached(t1));
      r
    else
      GrowsUpdate(g.table, node, v.(nbor := SetLink(v.nbor, d, None)));
      Graph(g.table[node := v.(nbor := SetLink(v.nbor, d, None))], g.numDots)
  }

  /** traverseNeighbors on a node already traversed changes nothing. */
  lemma TraverseDone(g: Graph, node: Pos, c: Pos)
    requires Complete(g.table) && InGrid(node) && InGrid(c) && g.table[node].traversed
    ensures TraverseFrom(g, node, c) == g
  {
  }

  /** traverseNeighbors on a node out of the game only marks it. */
  lemma TraverseBlocked(g: Graph, node: Pos, c: Pos)
    requires Complete(g.table) && InGrid(node) && InGrid(c)
    requires !g.table[node].traversed && !g.table[node].ingame
    ensures TraverseFrom(g, node, c) == Graph(g.table[node := g.table[node].(traversed := true)], g.numDots)
  {
  }

  /**
   * traverseNeighbors on a fresh in-game node marks it, gives it a dot and
   * counts it, then runs the four blocks.
   */
  lemma TraverseOpen(g: Graph, node: Pos, c: Pos, g1: Graph)
    requires Complete(g.table) && InGrid(node) && InGrid(c)
    requires !g.table[node].traversed && g.table[node].ingame
    requires g1 == Graph(g.table[node := g.table[node].(traversed := true, dot := true, adj := [])], g.numDots + 1)
    ensures TraverseFrom(g, node, c) == VisitAll(g1, node, c, Blocks)
  {
  }

  /** Marking a fresh node traversed shrinks what is left to traverse. */
  lemma MarkShrinks(t: Table, node: Pos, v: Node)
    requires Complete(t) && InGrid(node) && !t[node].traversed && v.traversed
    ensures Complete(t[node := v]) && node in Reached(t[node := v])
    ensures AllPos() - Reached(t[node := v]) < AllPos() - Reached(t)
  {
    ReachedUpdate(t, node, v);
  }

  /** One more block at the end of the fold. */
  lemma VisitAllSnoc(g: Graph, node: Pos, c: Pos, ds: seq<Dir>, i: nat)
    requires Complete(g.table) && InGrid(node) && InGrid(c) && node in Reached(g.table) && i < |ds|
    ensures VisitAll(g, node, c, ds[..i + 1]) == VisitFrom(VisitAll(g, node, c, ds[..i]), node, c, ds[i])
  {
    assert ds[..i + 1] == ds[..i] + [ds[i]];
    assert (ds[..i] + [ds[i]])[..i] == ds[..i];
  }
}
