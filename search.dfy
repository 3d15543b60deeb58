/**
 * What traverseNeighbors builds, proved about its value-level model
 * `Maze.TraverseFrom`: starting from the laid-out table, the traversal
 * reaches exactly the nodes reachable from the start node, puts a dot on
 * each reached node that is in the game, counts those dots, and gives each
 * of them the links to its in-game neighbours.
 */
module MazeSearch {
  import opened Wrappers
  import opened Maze

  /**
   * The fixed parameters of one traversal: the in-game positions, the start
   * node and the position whose neighbours are examined for the start node
   * (createAdjacencyList passes (startX, startZ), which is not the start
   * node when the start scan moved up the column).
   */
  datatype Search = Search(walk: set<Pos>, top: Pos, topCentre: Pos)

  /** The position whose neighbours the traversal examines for node q. */
  function Centre(s: Search, q: Pos): Pos
  {
    if q == s.top then s.topCentre else q
  }

  /** U is closed under the links the traversal makes. */
  ghost predicate Closed(s: Search, u: set<Pos>)
  {
    forall q, n :: q in u && q in s.walk && n in ExpectedAdj(s.walk, Centre(s, q)) ==> n in u
  }

  /** U contains the start node and is closed: it holds everything reachable from it. */
  ghost predicate Seed(s: Search, u: set<Pos>)
  {
    s.top in u && Closed(s, u)
  }

  /** A node without a dot, a power pill or adjacent nodes. */
  predicate Untouched(n: Node)
  {
    !n.dot && !n.ppill && n.adj == []
  }

  /** The table as createAdjacencyList's first loop leaves it: nothing traversed, in-game flags giving `walk`. */
  ghost predicate Layout(init: Table, walk: set<Pos>)
  {
    forall q :: InGrid(q) ==>
      q in init && !init[q].traversed && Untouched(init[q]) && (init[q].ingame <==> q in walk)
  }

  /** A node the traversal has finished with, examined around centre c. */
  ghost predicate Finished(n: Node, walk: set<Pos>, c: Pos, reached: set<Pos>)
  {
    n.dot && !n.ppill && n.nbor == ExpectedLinks(walk, c) && n.adj == ExpectedAdj(walk, c) &&
    forall m :: m in n.adj ==> m in reached
  }

  /** The traversed flags agree with `reached`; nodes not reached are as laid out. */
  ghost predicate Shape(t: Table, init: Table, s: Search, reached: set<Pos>, open: set<Pos>)
  {
    (forall q :: InGrid(q) ==>
       q in t && q in init && Kept(t[q], init[q]) && (t[q].traversed <==> q in reached)) &&
    (forall q :: InGrid(q) && q !in reached ==> t[q] == init[q]) &&
    (forall q :: q in reached ==> InGrid(q)) && open <= reached && open <= s.walk &&
    (reached == {} || s.top in reached)
  }

  /** Reached nodes out of the game are only marked. */
  ghost predicate Fresh(t: Table, init: Table, s: Search, reached: set<Pos>)
  {
    forall q :: InGrid(q) && q in reached && q !in s.walk ==>
      q in t && q in init && t[q] == init[q].(traversed := true)
  }

  /** Reached in-game nodes are finished, or on the recursion stack with their dot. */
  ghost predicate Built(t: Table, s: Search, reached: set<Pos>, open: set<Pos>)
  {
    (forall q :: q in reached && q in s.walk && q !in open ==>
       q in t && Finished(t[q], s.walk, Centre(s, q), reached)) &&
    (forall q :: q in open ==> q in t && t[q].dot && !t[q].ppill)
  }

  /** Nothing outside the reachable part is ever reached. */
  ghost predicate Sound(s: Search, reached: set<Pos>)
  {
    forall u :: Seed(s, u) ==> reached <= u
  }

  /**
   * The traversal invariant over table t. `reached` holds the traversed
   * nodes, `numDots` counts the reached in-game ones, and `open` holds the
   * nodes whose neighbour blocks are still running (the recursion stack).
   */
  ghost predicate Traversal(t: Table, init: Table, s: Search, reached: set<Pos>, numDots: int, open: set<Pos>)
  {
    Layout(init, s.walk) && Shape(t, init, s, reached, open) && numDots == |reached * s.walk| &&
    Fresh(t, init, s, reached) && Built(t, s, reached, open) && Sound(s, reached)
  }

  /** The laid-out table satisfies the invariant before the traversal starts. */
  lemma TraversalStart(init: Table, s: Search)
    requires Layout(init, s.walk)
    ensures Traversal(init, init, s, {}, 0, {})
  {
  }

  // ---------------------------------------------------------------------
  // One step at a time
  // ---------------------------------------------------------------------

  lemma ShapeMark(t: Table, init: Table, s: Search, reached: set<Pos>, open: set<Pos>,
                  node: Pos, v: Node, open': set<Pos>)
    requires Shape(t, init, s, reached, open)
    requires InGrid(node) && node !in reached && (reached == {} ==> node == s.top)
    requires Kept(v, t[node]) && v.traversed
    requires open <= open' <= open + {node} && open' <= s.walk
    ensures Shape(t[node := v], init, s, reached + {node}, open')
  {
  }

  lemma FreshMark(t: Table, init: Table, s: Search, reached: set<Pos>, node: Pos, v: Node)
    requires Fresh(t, init, s, reached)
    requires InGrid(node) && node !in reached && node in init
    requires node !in s.walk ==> v == init[node].(traversed := true)
    ensures Fresh(t[node := v], init, s, reached + {node})
  {
  }

  lemma BuiltMark(t: Table, s: Search, reached: set<Pos>, open: set<Pos>,
                  node: Pos, v: Node, open': set<Pos>)
    requires Built(t, s, reached, open)
    requires InGrid(node) && node !in reached && node !in open
    requires node in s.walk ==> open' == open + {node} && v.dot && !v.ppill
    requires node !in s.walk ==> open' == open
    ensures Built(t[node := v], s, reached + {node}, open')
  {
  }

  lemma SoundMark(s: Search, reached: set<Pos>, node: Pos)
    requires Sound(s, reached)
    requires forall u :: Seed(s, u) ==> node in u
    ensures Sound(s, reached + {node})
  {
  }

  /** Marking a node adds one to the count of reached in-game nodes exactly when it is in the game. */
  lemma CountMark(reached: set<Pos>, walk: set<Pos>, node: Pos)
    requires node !in reached
    ensures |(reached + {node}) * walk| == |reached * walk| + (if node in walk then 1 else 0)
  {
    if node in walk {
      assert (reached + {node}) * walk == reached * walk + {node};
    } else {
      assert (reached + {node}) * walk == reached * walk;
    }
  }

  /** Marking a node that is out of the game: it is reached, and nothing else changes. */
  lemma MarkBlocked(t: Table, init: Table, s: Search, reached: set<Pos>, numDots: int, open: set<Pos>,
                    node: Pos, v: Node)
    requires Traversal(t, init, s, reached, numDots, open)
    requires InGrid(node) && node !in reached && node !in s.walk
    requires reached == {} ==> node == s.top
    requires forall u :: Seed(s, u) ==> node in u
    requires v == t[node].(traversed := true)
    ensures Traversal(t[node := v], init, s, reached + {node}, numDots, open)
  {
    ShapeMark(t, init, s, reached, open, node, v, open);
    FreshMark(t, init, s, reached, node, v);
    BuiltMark(t, s, reached, open, node, v, open);
    SoundMark(s, reached, node);
    CountMark(reached, s.walk, node);
  }

  /** Marking an in-game node: it is reached, gets its dot and goes on the stack. */
  lemma MarkOpen(t: Table, init: Table, s: Search, reached: set<Pos>, numDots: int, open: set<Pos>,
                 node: Pos, v: Node)
    requires Traversal(t, init, s, reached, numDots, open)
    requires InGrid(node) && node !in reached && node in s.walk
    requires reached == {} ==> node == s.top
    requires forall u :: Seed(s, u) ==> node in u
    requires v == t[node].(traversed := true, dot := true, adj := [])
    ensures Traversal(t[node := v], init, s, reached + {node}, numDots + 1, open + {node})
  {
    ShapeMark(t, init, s, reached, open, node, v, open + {node});
    FreshMark(t, init, s, reached, node, v);
    BuiltMark(t, s, reached, open, node, v, open + {node});
    SoundMark(s, reached, node);
    CountMark(reached, s.walk, node);
  }

  /** Changing the links of a node on the stack. */
  lemma UpdateOpen(t: Table, init: Table, s: Search, reached: set<Pos>, numDots: int, open: set<Pos>,
                   node: Pos, v: Node)
    requires Traversal(t, init, s, reached, numDots, open)
    requires node in open && Kept(v, t[node]) && v.traversed && v.dot && !v.ppill
    ensures Traversal(t[node := v], init, s, reached, numDots, open)
  {
    assert Shape(t[node := v], init, s, reached, open);
    assert Fresh(t[node := v], init, s, reached);
    assert Built(t[node := v], s, reached, open);
  }

  /** Taking a finished node off the stack. */
  lemma CloseNode(t: Table, init: Table, s: Search, reached: set<Pos>, numDots: int, open: set<Pos>, node: Pos)
    requires Traversal(t, init, s, reached, numDots, open + {node})
    requires node !in open
    requires Finished(t[node], s.walk, Centre(s, node), reached)
    ensures Traversal(t, init, s, reached, numDots, open)
  {
    assert Shape(t, init, s, reached, open);
    assert Built(t, s, reached, open);
  }

  /** A neighbour the traversal links to lies in every closed set holding the start. */
  lemma LinkedIsReachable(s: Search, reached: set<Pos>, node: Pos, d: Dir)
    requires Sound(s, reached)
    requires node in reached && node in s.walk
    requires LinkTarget(s.walk, Centre(s, node), d).Some?
    ensures forall u :: Seed(s, u) ==> LinkTarget(s.walk, Centre(s, node), d).value in u
  {
    var c := Centre(s, node);
    assert LinkTarget(s.walk, c, d).value in ExpectedAdj(s.walk, c);
  }

  /** Read from a table whose in-game flags give `walk`, the traversal's targets are the expected links. */
  lemma TargetIsLinkTarget(t: Table, walk: set<Pos>, c: Pos)
    requires Complete(t)
    requires forall q :: InGrid(q) ==> (t[q].ingame <==> q in walk)
    ensures forall d :: Target(t, c, d) == LinkTarget(walk, c, d)
  {
  }

  /** After the four blocks a node that had no adjacent nodes has exactly the expected links, in order. */
  lemma BlocksLinkAll(v: Node, t: Table, walk: set<Pos>, c: Pos)
    requires Complete(t)
    requires forall q :: InGrid(q) ==> (t[q].ingame <==> q in walk)
    requires v.adj == []
    ensures LinkedAll(v, t, c, Blocks) ==
              v.(nbor := ExpectedLinks(walk, c), adj := ExpectedAdj(walk, c))
  {
    TargetIsLinkTarget(t, walk, c);
    assert [Left][..0] == [];
    assert LinkedAll(v, t, c, []) == v;
    var v1 := LinkedAll(v, t, c, [Left]);
    assert v1 == Linked(v, LinkTarget(walk, c, Left), Left);
    assert [Left, Right][..1] == [Left];
    var v2 := LinkedAll(v, t, c, [Left, Right]);
    assert v2 == Linked(v1, LinkTarget(walk, c, Right), Right);
    assert [Left, Right, Up][..2] == [Left, Right];
    var v3 := LinkedAll(v, t, c, [Left, Right, Up]);
    assert v3 == Linked(v2, LinkTarget(walk, c, Up), Up);
    assert Blocks[..3] == [Left, Right, Up];
    var v4 := LinkedAll(v, t, c, Blocks);
    assert v4 == Linked(v3, LinkTarget(walk, c, Down), Down);
    assert v4.nbor == ExpectedLinks(walk, c);
  }

  // ---------------------------------------------------------------------
  // The whole traversal
  // ---------------------------------------------------------------------

  /** traverseNeighbors keeps the invariant. */
  lemma {:induction false} TraverseKeeps(g: Graph, node: Pos, c: Pos, init: Table, s: Search, open: set<Pos>)
    requires Traversal(g.table, init, s, Reached(g.table), g.numDots, open)
    requires InGrid(node) && InGrid(c) && (node in Reached(g.table) || c == Centre(s, node))
    requires Reached(g.table) == {} ==> node == s.top
    requires forall u :: Seed(s, u) ==> node in u
    ensures var r := TraverseFrom(g, node, c);
            Traversal(r.table, init, s, Reached(r.table), r.numDots, open)
    decreases AllPos() - Reached(g.table), 1
  {
    var n := g.table[node];
    if !n.traversed && !n.ingame {
      BlockedKeeps(g, node, c, init, s, open);
    } else if !n.traversed {
      OpenKeeps(g, node, c, init, s, open);
    }
  }

  /** Reaching a node that is out of the game keeps the invariant. */
  lemma BlockedKeeps(g: Graph, node: Pos, c: Pos, init: Table, s: Search, open: set<Pos>)
    requires Traversal(g.table, init, s, Reached(g.table), g.numDots, open)
    requires InGrid(node) && InGrid(c) && !g.table[node].traversed
    requires Reached(g.table) == {} ==> node == s.top
    requires forall u :: Seed(s, u) ==> node in u
    ensures var r := TraverseFrom(g, node, c);
            Traversal(r.table, init, s, Reached(r.table), r.numDots, open)
    requires !g.table[node].ingame
  {
    var v := g.table[node].(traversed := true);
    ReachedUpdate(g.table, node, v);
    MarkBlocked(g.table, init, s, Reached(g.table), g.numDots, open, node, v);
    TraverseBlocked(g, node, c);
  }

  /** Reaching an in-game node, then its neighbour blocks, keep the invariant. */
  lemma {:induction false} OpenKeeps(g: Graph, node: Pos, c: Pos, init: Table, s: Search, open: set<Pos>)
    requires Traversal(g.table, init, s, Reached(g.table), g.numDots, open)
    requires InGrid(node) && InGrid(c) && !g.table[node].traversed
    requires Reached(g.table) == {} ==> node == s.top
    requires forall u :: Seed(s, u) ==> node in u
    ensures var r := TraverseFrom(g, node, c);
            Traversal(r.table, init, s, Reached(r.table), r.numDots, open)
    requires g.table[node].ingame && c == Centre(s, node)
    decreases AllPos() - Reached(g.table), 0
  {
    var v := g.table[node].(traversed := true, dot := true, adj := []);
    ReachedUpdate(g.table, node, v);
    MarkOpen(g.table, init, s, Reached(g.table), g.numDots, open, node, v);
    var g1 := Graph(g.table[node := v], g.numDots + 1);
    MarkShrinks(g.table, node, v);
    ExpandKeeps(g1, node, c, init, s, open);
    TraverseOpen(g, node, c, g1);
  }

  /** The neighbour blocks of a freshly marked node, then taking it off the stack, keep the invariant. */
  lemma {:induction false} ExpandKeeps(g: Graph, node: Pos, c: Pos, init: Table, s: Search, open: set<Pos>)
    requires Traversal(g.table, init, s, Reached(g.table), g.numDots, open + {node})
    requires InGrid(node) && node !in open && InGrid(c) && c == Centre(s, node)
    requires g.table[node].adj == []
    ensures var r := VisitAll(g, node, c, Blocks);
            Traversal(r.table, init, s, Reached(r.table), r.numDots, open)
    decreases AllPos() - Reached(g.table), 4
  {
    VisitAllKeeps(g, node, c, Blocks, init, s, open + {node});
    var r := VisitAll(g, node, c, Blocks);
    BlocksLinkAll(g.table[node], g.table, s.walk, c);
    TargetIsLinkTarget(g.table, s.walk, c);
    AdjReached(s.walk, c, Reached(r.table));
    CloseNode(r.table, init, s, Reached(r.table), r.numDots, open, node);
  }

  /** Every expected neighbour whose target lies in `reached` makes the whole adjacency list lie there. */
  lemma AdjReached(walk: set<Pos>, c: Pos, reached: set<Pos>)
    requires forall d :: d in Blocks && LinkTarget(walk, c, d).Some? ==> LinkTarget(walk, c, d).value in reached
    ensures forall m :: m in ExpectedAdj(walk, c) ==> m in reached
  {
    assert Left in Blocks && Right in Blocks && Up in Blocks && Down in Blocks;
  }

  /** The neighbour blocks for directions ds keep the invariant. */
  lemma {:induction false} VisitAllKeeps(g: Graph, node: Pos, c: Pos, ds: seq<Dir>, init: Table, s: Search, open: set<Pos>)
    requires Traversal(g.table, init, s, Reached(g.table), g.numDots, open)
    requires InGrid(node) && node in open && InGrid(c) && c == Centre(s, node)
    ensures var r := VisitAll(g, node, c, ds);
            Traversal(r.table, init, s, Reached(r.table), r.numDots, open)
    decreases AllPos() - Reached(g.table), 3, |ds|
  {
    if ds != [] {
      var g1 := VisitAll(g, node, c, ds[..|ds| - 1]);
      VisitAllKeeps(g, node, c, ds[..|ds| - 1], init, s, open);
      PendingShrinks(g.table, g1.table);
      VisitKeeps(g1, node, c, ds[|ds| - 1], init, s, open);
    }
  }

  /** One neighbour block keeps the invariant. */
  lemma {:induction false} VisitKeeps(g: Graph, node: Pos, c: Pos, d: Dir, init: Table, s: Search, open: set<Pos>)
    requires Traversal(g.table, init, s, Reached(g.table), g.numDots, open)
    requires InGrid(node) && node in open && InGrid(c) && c == Centre(s, node)
    ensures var r := VisitFrom(g, node, c, d);
            Traversal(r.table, init, s, Reached(r.table), r.numDots, open)
    decreases AllPos() - Reached(g.table), 2
  {
    var v := g.table[node];
    var m := Step(c, d);
    if InGrid(m) && g.table[m].ingame {
      var w := v.(nbor := SetLink(v.nbor, d, Some(m)), adj := v.adj + [m]);
      var t1 := g.table[node := w];
      ReachedSame(g.table, node, w);
      UpdateOpen(g.table, init, s, Reached(g.table), g.numDots, open, node, w);
      LinkedIsReachable(s, Reached(g.table), node, d);
      TraverseKeeps(Graph(t1, g.numDots), m, m, init, s, open);
    } else {
      var w := v.(nbor := SetLink(v.nbor, d, None));
      ReachedSame(g.table, node, w);
      UpdateOpen(g.table, init, s, Reached(g.table), g.numDots, open, node, w);
    }
  }

  // ---------------------------------------------------------------------
  // What the traversal leaves behind
  // ---------------------------------------------------------------------

  /** Once the stack is empty, the invariant pins the whole table down. */
  lemma TraversalOutcome(t: Table, init: Table, s: Search, reached: set<Pos>, numDots: int)
    requires Traversal(t, init, s, reached, numDots, {}) && s.top in reached
    ensures Seed(s, reached) && forall u :: Seed(s, u) ==> reached <= u
    ensures forall q :: InGrid(q) ==> q in t && (t[q].dot <==> q in reached && q in s.walk) && !t[q].ppill
    ensures forall q :: q in reached && q in s.walk ==>
              t[q].nbor == ExpectedLinks(s.walk, Centre(s, q)) && t[q].adj == ExpectedAdj(s.walk, Centre(s, q))
    ensures forall q :: InGrid(q) && q !in reached ==> t[q] == init[q]
    ensures forall q :: InGrid(q) ==> Kept(t[q], init[q])
    ensures forall q :: InGrid(q) && q in reached && q !in s.walk ==> t[q] == init[q].(traversed := true)
  {
    forall q, n | q in reached && q in s.walk && n in ExpectedAdj(s.walk, Centre(s, q))
      ensures n in reached
    {
      assert Finished(t[q], s.walk, Centre(s, q), reached);
    }
  }

  /** A laid-out table has no traversed node. */
  lemma NothingReached(init: Table, walk: set<Pos>)
    requires Layout(init, walk)
    ensures Reached(init) == {}
  {
  }

  /**
   * What traverseNeighbors leaves when run from the start node on the
   * laid-out table init with numDots at 0: the traversed nodes are exactly
   * those reachable from the start, numDots counts the reached in-game
   * nodes, exactly those carry a dot, and each of them is linked to its
   * in-game neighbours, in the source's order; reached nodes out of the
   * game are only marked, every other node is as laid out, and no node
   * changes its coordinates or in-game flag.
   */
  ghost predicate Traversed(t: Table, numDots: int, init: Table, s: Search)
  {
    Complete(t) && Complete(init) &&
    var reached := Reached(t);
    Seed(s, reached) && (forall u :: Seed(s, u) ==> reached <= u) &&
    numDots == |reached * s.walk| &&
    (forall q :: InGrid(q) ==> (t[q].dot <==> q in reached && q in s.walk) && !t[q].ppill) &&
    (forall q :: q in reached && q in s.walk ==>
       t[q].nbor == ExpectedLinks(s.walk, Centre(s, q)) && t[q].adj == ExpectedAdj(s.walk, Centre(s, q))) &&
    (forall q :: InGrid(q) && q !in reached ==> t[q] == init[q]) &&
    (forall q :: InGrid(q) ==> Kept(t[q], init[q])) &&
    (forall q :: InGrid(q) && q in reached && q !in s.walk ==> t[q] == init[q].(traversed := true))
  }

  /** traverseNeighbors from the start node on the laid-out table builds the graph described by Traversed. */
  lemma TraversalResult(init: Table, s: Search)
    requires Layout(init, s.walk) && InGrid(s.top) && InGrid(s.topCentre)
    ensures Complete(init)
    ensures var r := TraverseFrom(Graph(init, 0), s.top, s.topCentre);
            Traversed(r.table, r.numDots, init, s)
  {
    NothingReached(init, s.walk);
    TraversalStart(init, s);
    TraverseKeeps(Graph(init, 0), s.top, s.topCentre, init, s, {});
    var r := TraverseFrom(Graph(init, 0), s.top, s.topCentre);
    TraversalOutcome(r.table, init, s, Reached(r.table), r.numDots);
  }

  // ---------------------------------------------------------------------
  // createAdjacencyList
  // ---------------------------------------------------------------------

  /**
   * The table and dot count createAdjacencyList leaves once the start node
   * was found: the traversed nodes are exactly those reachable from it, the
   * count is the number of reached in-game nodes, each of those carries a
   * dot or (on a corner) a power pill and never both, each is linked to its
   * in-game neighbours; reached nodes out of the game are only marked,
   * every node not reached is as laid out, and no node changes its
   * coordinates or in-game flag.
   */
  ghost predicate AdjacencyBuilt(t: Table, numDots: int, init: Table, s: Search)
  {
    Complete(t) && Complete(init) &&
    var reached := Reached(t);
    Seed(s, reached) && (forall u :: Seed(s, u) ==> reached <= u) &&
    numDots == |reached * s.walk| &&
    (forall q :: InGrid(q) ==>
       (t[q].dot || t[q].ppill <==> q in reached && q in s.walk) && !(t[q].dot && t[q].ppill) &&
       (t[q].ppill <==> IsCorner(q) && q in reached && q in s.walk)) &&
    (forall q :: q in reached && q in s.walk ==>
       t[q].nbor == ExpectedLinks(s.walk, Centre(s, q)) && t[q].adj == ExpectedAdj(s.walk, Centre(s, q))) &&
    (forall q :: InGrid(q) && q !in reached ==> t[q] == init[q]) &&
    (forall q :: InGrid(q) ==> Kept(t[q], init[q])) &&
    (forall q :: InGrid(q) && q in reached && q !in s.walk ==> t[q] == init[q].(traversed := true))
  }

  /** The table createAdjacencyList's first loop makes out of t, with in-game positions `walk`. */
  ghost function LaidOut(t: Table, walk: set<Pos>): (r: Table)
    requires Complete(t)
    ensures forall q :: q in r <==> InGrid(q)
    ensures Layout(r, walk)
  {
    map q | q in AllPos() :: Laid(t[q], q, q in walk)
  }

  /** Two tables that agree on the grid build the same graph. */
  lemma BuiltAgree(a: Table, b: Table, numDots: int, init: Table, s: Search)
    requires AdjacencyBuilt(a, numDots, init, s)
    requires Complete(b) && forall q :: InGrid(q) ==> a[q] == b[q]
    ensures AdjacencyBuilt(b, numDots, init, s)
  {
    assert Reached(a) == Reached(b);
  }

  /** The corner loop changes no traversed flag. */
  lemma PillsKeepReached(t: Table)
    requires Complete(t)
    ensures Reached(WithCornerPills(t)) == Reached(t)
  {
    var p := WithCornerPills(t);
    forall q ensures q in Reached(p) <==> q in Reached(t) {
      if InGrid(q) {
        assert p[q].traversed == t[q].traversed;
      }
    }
  }

  /** The corner loop on a traversed table gives the graph createAdjacencyList promises. */
  lemma PillsOutcome(t: Table, numDots: int, init: Table, s: Search)
    requires Traversed(t, numDots, init, s)
    ensures AdjacencyBuilt(WithCornerPills(t), numDots, init, s)
  {
    PillsKeepReached(t);
    var p := WithCornerPills(t);
    var reached := Reached(t);
    assert Reached(p) == reached;
    forall q | InGrid(q)
      ensures (p[q].dot || p[q].ppill <==> q in reached && q in s.walk) && !(p[q].dot && p[q].ppill) &&
              (p[q].ppill <==> IsCorner(q) && q in reached && q in s.walk)
    {
    }
    forall q | InGrid(q)
      ensures Kept(p[q], init[q])
    {
      assert Kept(t[q], init[q]);
    }
    forall q | InGrid(q)
      ensures q !in reached ==> p[q] == init[q]
      ensures q in reached && q !in s.walk ==> p[q] == init[q].(traversed := true)
    {
    }
    forall q | q in reached && q in s.walk
      ensures p[q].nbor == ExpectedLinks(s.walk, Centre(s, q)) && p[q].adj == ExpectedAdj(s.walk, Centre(s, q))
    {
    }
  }

  /** The traversal from the start node followed by the corner loop builds the adjacency graph. */
  lemma CreateOutcome(init: Table, s: Search)
    requires Layout(init, s.walk) && InGrid(s.top) && InGrid(s.topCentre)
    ensures Complete(init)
    ensures var r := TraverseFrom(Graph(init, 0), s.top, s.topCentre);
            AdjacencyBuilt(WithCornerPills(r.table), r.numDots, init, s)
  {
    TraversalResult(init, s);
    var r := TraverseFrom(Graph(init, 0), s.top, s.topCentre);
    PillsOutcome(r.table, r.numDots, init, s);
  }

  /** When no start node is found, the corner loop finds no dot to turn into a pill. */
  lemma NoStartOutcome(init: Table, walk: set<Pos>)
    requires Layout(init, walk)
    ensures Complete(init) && forall q :: InGrid(q) ==> WithCornerPills(init)[q] == init[q]
  {
  }
}
