/**
 * The global node table `Nodes[NodesPerLine][NodesPerLine]` and the global
 * dot counter, with createAdjacencyList and the functions it calls. Each
 * method is proved against the value-level model in module Maze; what the
 * model builds is proved in module MazeSearch.
 */
module NavGraphs {
  import opened Wrappers
  import opened Grid
  import opened Maze
  import opened MazeSearch

  class NavGraph {
    const nodes: array2<Node>
    var numDots: int
    /** The table as a map from positions to nodes, kept equal to the array. */
    ghost var table: Table

    ghost predicate Valid()
      reads this`table, nodes
    {
      nodes.Length0 == NodesPerLine && nodes.Length1 == NodesPerLine &&
      Complete(table) &&
      forall q {:trigger nodes[q.0, q.1]} :: InGrid(q) ==> nodes[q.0, q.1] == table[q]
    }

    /** The node at p, read from the array. */
    function At(p: Pos): Node
      requires nodes.Length0 == NodesPerLine && nodes.Length1 == NodesPerLine && InGrid(p)
      reads nodes
    {
      nodes[p.0, p.1]
    }

    ghost function State(): Graph
      reads this
    {
      Graph(table, numDots)
    }

    /** The table as static storage holds it: every node zero. */
    constructor ()
      ensures Valid() && fresh(nodes) && numDots == 0
      ensures forall q :: InGrid(q) ==> table[q] == BlankNode
    {
      nodes := new Node[NodesPerLine, NodesPerLine]((i, j) => BlankNode);
      numDots := 0;
      table := map q | q in AllPos() :: BlankNode;
    }

    /** Assignment to one node of the table. */
    method Write(p: Pos, v: Node)
      requires Valid() && InGrid(p)
      modifies this`table, nodes
      ensures Valid() && table == old(table)[p := v]
    {
      nodes[p.0, p.1] := v;
      table := table[p := v];
    }

    /**
     * The first loop of createAdjacencyList: each node gets its height-map
     * coordinates, is in the game when the truncated height lies strictly
     * between the two thresholds, and has its flags and adjacency count
     * cleared. Its links are left as they were.
     */
    method LayNodes(h: array2<real>, water: real, snow: real)
      requires Valid() && h.Length0 == GridSize && h.Length1 == GridSize
      modifies this`table, nodes
      ensures Valid() && numDots == old(numDots)
      ensures table == LaidOut(old(table), WalkSet(h, water, snow))
    {
      for i := 0 to NodesPerLine
        invariant Valid()
        invariant forall q :: InGrid(q) ==>
                    At(q) == if q.0 < i then Laid(old(At(q)), q, Walkable(h[NodeCoord(q.0), NodeCoord(q.1)], water, snow))
                             else old(At(q))
      {
        for j := 0 to NodesPerLine
          invariant Valid()
          invariant forall q :: InGrid(q) ==>
                      At(q) == if q.0 < i || (q.0 == i && q.1 < j)
                               then Laid(old(At(q)), q, Walkable(h[NodeCoord(q.0), NodeCoord(q.1)], water, snow))
                               else old(At(q))
        {
          var x := NodeCoord(i);
          var z := NodeCoord(j);
          var height := Trunc(h[x, z]);
          var ingame := !(height as real >= snow || height as real <= water);
          Write((i, j), nodes[i, j].(x := x, z := z, ingame := ingame,
                                     traversed := false, dot := false, ppill := false, adj := []));
        }
      }
      // the ghost table rebuilt with exactly the grid as keys
      table := LaidOut(old(table), WalkSet(h, water, snow));
    }

    /**
     * findPacmanStartNode(sx, sz): scan up column sx from row sz for the first
     * node that is in the game or whose four neighbours all are. None where
     * the source would read past the last row of the table.
     */
    method FindPacmanStartNode(sx: int, sz: int, ghost walk: set<Pos>) returns (r: Option<Pos>)
      requires Valid() && 0 < sx < NodesPerLine - 1 && 0 < sz < NodesPerLine
      requires forall q :: InGrid(q) ==> (At(q).ingame <==> q in walk)
      ensures r == StartScan(walk, sx, sz)
    {
      var z := sz;
      while true
        invariant sz <= z < NodesPerLine && StartScan(walk, sx, z) == StartScan(walk, sx, sz)
        decreases NodesPerLine - z
      {
        if nodes[sx, z].ingame {
          return Some((sx, z));
        }
        if z == NodesPerLine - 1 {
          return None;
        }
        if nodes[sx + 1, z].ingame && nodes[sx - 1, z].ingame && nodes[sx, z + 1].ingame && nodes[sx, z - 1].ingame {
          return Some((sx, z));
        }
        z := z + 1;
      }
    }

    /**
     * createAdjacencyList(): lay out the nodes over the height map, find
     * Pac-Man's start node from (startX, startZ), traverse the maze from it
     * and put power pills on the corners. Returns the start node, which the
     * source stores in Man.cur; None where the start scan would run off the
     * table, in which case nothing is traversed.
     */
    method CreateAdjacencyList(h: array2<real>, water: real, snow: real) returns (start: Option<Pos>)
      requires Valid() && h.Length0 == GridSize && h.Length1 == GridSize
      modifies this, nodes
      ensures Valid()
      ensures start == StartScan(old(WalkSet(h, water, snow)), StartX, StartZ)
      ensures start.None? ==>
                numDots == 0 && forall q :: InGrid(q) ==> At(q) == old(LaidOut(table, WalkSet(h, water, snow)))[q]
      ensures start.Some? ==>
                AdjacencyBuilt(table, numDots, old(LaidOut(table, WalkSet(h, water, snow))),
                               Search(old(WalkSet(h, water, snow)), start.value, (StartX, StartZ)))
    {
      ghost var walk := WalkSet(h, water, snow);
      ghost var init := LaidOut(table, walk);
      numDots := 0;
      LayNodes(h, water, snow);
      start := FindPacmanStartNode(StartX, StartZ, walk);
      StartScanFirst(walk, StartX, StartZ);
      if start.Some? {
        BuildFrom(start.value, walk, init);
      } else {
        NoStartOutcome(init, walk);
        PlaceCornerPills();
      }
    }

    /** The rest of createAdjacencyList once the start node is found: the traversal and the corner loop. */
    method BuildFrom(start: Pos, ghost walk: set<Pos>, ghost init: Table)
      requires Valid() && InGrid(start) && table == init && Layout(init, walk) && numDots == 0
      modifies this, nodes
      ensures Valid()
      ensures AdjacencyBuilt(table, numDots, init, Search(walk, start, (StartX, StartZ)))
    {
      ghost var s := Search(walk, start, (StartX, StartZ));
      CreateOutcome(init, s);
      TraverseNeighbors(start, StartX, StartZ);
      ghost var r := State();
      PlaceCornerPills();
      BuiltAgree(WithCornerPills(r.table), table, numDots, init, s);
    }

    /** traverseNeighbors(node, x, y). */
    method TraverseNeighbors(node: Pos, x: int, y: int)
      requires Valid() && InGrid(node) && InGrid((x, y))
      modifies this, nodes
      ensures Valid()
      ensures State() == TraverseFrom(old(State()), node, (x, y))
      decreases AllPos() - Reached(table), 0
    {
      ghost var g0 := State();
      var n := nodes[node.0, node.1];
      if n.traversed {
        TraverseDone(g0, node, (x, y));
        return;
      }
      Write(node, n.(traversed := true));
      if !n.ingame {
        TraverseBlocked(g0, node, (x, y));
        return;
      }
      Write(node, n.(traversed := true, dot := true, adj := []));
      numDots := numDots + 1;
      assert table == g0.table[node := n.(traversed := true, dot := true, adj := [])];
      MarkShrinks(g0.table, node, table[node]);
      TraverseOpen(g0, node, (x, y), State());
      VisitNeighbors(node, x, y);
    }

    /** The four neighbour blocks of traverseNeighbors, left, right, up, down. */
    method VisitNeighbors(node: Pos, x: int, y: int)
      requires Valid() && InGrid(node) && InGrid((x, y)) && node in Reached(table)
      modifies this, nodes
      ensures Valid()
      ensures State() == VisitAll(old(State()), node, (x, y), Blocks)
      decreases AllPos() - Reached(table), 2
    {
      ghost var g := State();
      for i := 0 to |Blocks|
        invariant Valid() && node in Reached(table) && Reached(g.table) <= Reached(table)
        invariant State() == VisitAll(g, node, (x, y), Blocks[..i])
      {
        VisitAllSnoc(g, node, (x, y), Blocks, i);
        Visit(node, x, y, Blocks[i]);
      }
      assert Blocks[..|Blocks|] == Blocks;
    }

    /**
     * One neighbour block of traverseNeighbors: when the neighbour of (x, y)
     * in direction d is on the table and in the game, link node to it,
     * append it to the adjacency list and traverse from it; otherwise set
     * the link to NULL.
     */
    method Visit(node: Pos, x: int, y: int, d: Dir)
      requires Valid() && InGrid(node) && InGrid((x, y)) && node in Reached(table)
      modifies this, nodes
      ensures Valid()
      ensures State() == VisitFrom(old(State()), node, (x, y), d)
      decreases AllPos() - Reached(table), 1
    {
      var m := Step((x, y), d);
      var v := nodes[node.0, node.1];
      if InGrid(m) && nodes[m.0, m.1].ingame {
        Write(node, v.(nbor := SetLink(v.nbor, d, Some(m)), adj := v.adj + [m]));
        ReachedSame(old(table), node, v.(nbor := SetLink(v.nbor, d, Some(m)), adj := v.adj + [m]));
        TraverseNeighbors(m, m.0, m.1);
      } else {
        Write(node, v.(nbor := SetLink(v.nbor, d, None)));
      }
    }

    /** placePowerpill(x, y): a dot on the node becomes a power pill. */
    method PlacePowerpill(x: int, y: int)
      requires Valid() && InGrid((x, y))
      modifies this`table, nodes
      ensures Valid() && table == old(table)[(x, y) := WithPill(old(At((x, y))))]
    {
      var n := nodes[x, y];
      if n.dot {
        Write((x, y), n.(dot := false, ppill := true));
      } else {
        assert old(table)[(x, y) := n] == old(table);
      }
    }

    /** The last loop of createAdjacencyList: placePowerpill on the four corners. */
    method PlaceCornerPills()
      requires Valid()
      modifies this`table, nodes
      ensures Valid()
      ensures forall q :: InGrid(q) ==> At(q) == if IsCorner(q) then WithPill(old(At(q))) else old(At(q))
      ensures forall q :: InGrid(q) ==> table[q] == WithCornerPills(old(table))[q]
    {
      var i := 0;
      while i < NodesPerLine
        invariant Valid() && (i == 0 || i == NodesPerLine - 1 || i == 2 * (NodesPerLine - 1))
        invariant forall q :: InGrid(q) ==>
                    At(q) == if IsCorner(q) && q.0 < i then WithPill(old(At(q))) else old(At(q))
      {
        var j := 0;
        while j < NodesPerLine
          invariant Valid() && (j == 0 || j == NodesPerLine - 1 || j == 2 * (NodesPerLine - 1))
          invariant forall q :: InGrid(q) ==>
                      At(q) == if IsCorner(q) && (q.0 < i || (q.0 == i && q.1 < j)) then WithPill(old(At(q)))
                               else old(At(q))
        {
          PlacePowerpill(i, j);
          j := j + NodesPerLine - 1;
        }
        i := i + NodesPerLine - 1;
      }
    }
  }
}
