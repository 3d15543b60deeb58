/**
 * The shape of the node table that Pac-Man and the ghosts move on: every
 * node sits at its laid-out coordinates, its adjacency array lists its
 * links, and every link leads one step in its own direction to a node that
 * links back. createAdjacencyList leaves the table in this shape when it
 * traverses from the start node's own position.
 */
module Wiring {
  import opened Wrappers
  import opened Maze
  import opened MazeSearch
  import opened Moves

  /** The non-null links in the order the traversal appends them: left, right, up, down. */
  function LinkList(l: Links): seq<Pos>
  {
    AsSeq(l.left) + AsSeq(l.right) + AsSeq(l.up) + AsSeq(l.down)
  }

  /** Node q is at its laid-out coordinates, adj lists its links, and each link is one step away and mutual. */
  ghost predicate WiredAt(t: Table, q: Pos)
    requires Complete(t) && InGrid(q)
  {
    t[q].x == NodeCoord(q.0) && t[q].z == NodeCoord(q.1) && t[q].adj == LinkList(t[q].nbor) &&
    forall d {:trigger Link(t[q].nbor, d)} :: Link(t[q].nbor, d).Some? ==>
      Link(t[q].nbor, d) == Some(Step(q, d)) && InGrid(Step(q, d)) &&
      Link(t[Step(q, d)].nbor, Opposite(d)) == Some(q)
  }

  ghost predicate Wired(t: Table)
  {
    Complete(t) && forall q {:trigger WiredAt(t, q)} :: InGrid(q) ==> WiredAt(t, q)
  }

  /** An entry of a link list is one of the links. */
  lemma LinkListed(l: Links, m: Pos)
    requires m in LinkList(l)
    ensures exists d :: Link(l, d) == Some(m)
  {
    if m in AsSeq(l.left) {
      assert Link(l, Left) == Some(m);
    } else if m in AsSeq(l.right) {
      assert Link(l, Right) == Some(m);
    } else if m in AsSeq(l.up) {
      assert Link(l, Up) == Some(m);
    } else {
      assert Link(l, Down) == Some(m);
    }
  }

  /** A node with a link has a non-empty adjacency array. */
  lemma LinkedNotEmpty(l: Links, d: Dir)
    requires Link(l, d).Some?
    ensures Link(l, d).value in LinkList(l)
  {
  }

  /**
   * randomize on a wired table: the heading it computes towards an entry m
   * of the adjacency array is a unit heading whose link is m, and the node
   * it leads to has a non-empty adjacency array.
   */
  lemma RandomizeHeads(t: Table, q: Pos, m: Pos)
    requires Wired(t) && InGrid(q) && m in t[q].adj
    ensures InGrid(m)
    ensures var h := Toward(t[m].x - t[q].x, t[m].z - t[q].z);
            HeadingDir(h.0, h.1).Some? && Link(t[q].nbor, HeadingDir(h.0, h.1).value) == Some(m) &&
            h == Heading(HeadingDir(h.0, h.1).value)
  {
    var d := AdjLink(t, q, m);
    TowardStep(q, d);
    HeadingRoundTrip(d, d);
  }

  /** An entry m of a wired node's adjacency array is its link in some direction d, one step away. */
  lemma AdjLink(t: Table, q: Pos, m: Pos) returns (d: Dir)
    requires Wired(t) && InGrid(q) && m in t[q].adj
    ensures Link(t[q].nbor, d) == Some(m) && m == Step(q, d) && InGrid(m)
    ensures t[q].x == NodeCoord(q.0) && t[q].z == NodeCoord(q.1)
    ensures t[m].x == NodeCoord(m.0) && t[m].z == NodeCoord(m.1)
  {
    assert WiredAt(t, q);
    LinkListed(t[q].nbor, m);
    d :| Link(t[q].nbor, d) == Some(m);
    assert WiredAt(t, m);
  }

  /** Following a link of a wired table leads to a node that links back, so its adjacency array is not empty. */
  lemma LinkTargetLinks(t: Table, q: Pos, d: Dir)
    requires Wired(t) && InGrid(q) && Link(t[q].nbor, d).Some?
    ensures var m := Link(t[q].nbor, d).value;
            InGrid(m) && q in t[m].adj && |t[m].adj| > 0
  {
    assert WiredAt(t, q);
    var m := Step(q, d);
    assert WiredAt(t, m);
    LinkedNotEmpty(t[m].nbor, Opposite(d));
  }

  /** Changing only the dot and power-pill flags of a node keeps the table wired. */
  lemma WiredFlags(t: Table, p: Pos, v: Node)
    requires Wired(t) && InGrid(p)
    requires v.x == t[p].x && v.z == t[p].z && v.nbor == t[p].nbor && v.adj == t[p].adj
    ensures Wired(t[p := v])
  {
    var u := t[p := v];
    forall q | InGrid(q)
      ensures WiredAt(u, q)
    {
      assert WiredAt(t, q);
      forall d | Link(u[q].nbor, d).Some?
        ensures Link(u[Step(q, d)].nbor, Opposite(d)) == Some(q)
      {
        assert WiredAt(t, Step(q, d));
      }
    }
  }

  /**
   * createAdjacencyList on a table whose nodes had no links (static storage
   * starts zeroed) leaves it wired, provided the traversal examined the
   * start node's own neighbours: the start scan stopped at (startX, startZ)
   * or at a node out of the game.
   */
  lemma BuiltIsWired(t: Table, numDots: int, init: Table, s: Search)
    requires AdjacencyBuilt(t, numDots, init, s)
    requires forall q :: InGrid(q) ==>
               init[q].nbor == NoLinks && init[q].adj == [] && init[q].x == NodeCoord(q.0) && init[q].z == NodeCoord(q.1)
    requires s.top == s.topCentre || s.top !in s.walk
    ensures Wired(t)
  {
    forall q | InGrid(q)
      ensures WiredAt(t, q)
    {
      BuiltWiredAt(t, numDots, init, s, q);
    }
  }

  /** BuiltIsWired at one node. */
  lemma BuiltWiredAt(t: Table, numDots: int, init: Table, s: Search, q: Pos)
    requires AdjacencyBuilt(t, numDots, init, s) && InGrid(q)
    requires init[q].nbor == NoLinks && init[q].adj == [] && init[q].x == NodeCoord(q.0) && init[q].z == NodeCoord(q.1)
    requires s.top == s.topCentre || s.top !in s.walk
    ensures WiredAt(t, q)
  {
    if q in Reached(t) && q in s.walk {
      BuiltWiredOpen(t, numDots, init, s, q);
    } else {
      BuiltLinksKept(t, numDots, init, s, q);
      UnlinkedWired(t, q);
    }
  }

  /** A node at its laid-out coordinates without links or adjacent nodes is wired. */
  lemma UnlinkedWired(t: Table, q: Pos)
    requires Complete(t) && InGrid(q)
    requires t[q].nbor == NoLinks && t[q].adj == [] && t[q].x == NodeCoord(q.0) && t[q].z == NodeCoord(q.1)
    ensures WiredAt(t, q)
  {
    assert t[q].adj == LinkList(NoLinks);
    forall d
      ensures Link(t[q].nbor, d).None?
    {
    }
  }

  /** A node the traversal did not open keeps its laid-out links, adjacency array and coordinates. */
  lemma BuiltLinksKept(t: Table, numDots: int, init: Table, s: Search, q: Pos)
    requires AdjacencyBuilt(t, numDots, init, s) && InGrid(q) && !(q in Reached(t) && q in s.walk)
    ensures t[q].nbor == init[q].nbor && t[q].adj == init[q].adj && Kept(t[q], init[q])
  {
    if q in Reached(t) {
      assert t[q] == init[q].(traversed := true);
    } else {
      assert t[q] == init[q];
    }
  }

  /** BuiltIsWired at a reached in-game node: its links are the expected ones, one step away and mutual. */
  lemma BuiltWiredOpen(t: Table, numDots: int, init: Table, s: Search, q: Pos)
    requires AdjacencyBuilt(t, numDots, init, s) && InGrid(q) && q in Reached(t) && q in s.walk
    requires init[q].x == NodeCoord(q.0) && init[q].z == NodeCoord(q.1)
    requires s.top == s.topCentre || s.top !in s.walk
    ensures WiredAt(t, q)
  {
    assert Kept(t[q], init[q]);
    assert Centre(s, q) == q;
    assert t[q].nbor == ExpectedLinks(s.walk, q) && t[q].adj == ExpectedAdj(s.walk, q);
    assert ExpectedAdj(s.walk, q) == LinkList(ExpectedLinks(s.walk, q));
    forall d | Link(t[q].nbor, d).Some?
      ensures Link(t[q].nbor, d) == Some(Step(q, d)) && InGrid(Step(q, d))
      ensures Link(t[Step(q, d)].nbor, Opposite(d)) == Some(q)
    {
      BuiltLinkBack(t, numDots, init, s, q, d);
    }
  }

  /** A link the traversal made from a reached in-game node leads one step to a reached in-game node that links back. */
  lemma BuiltLinkBack(t: Table, numDots: int, init: Table, s: Search, q: Pos, d: Dir)
    requires AdjacencyBuilt(t, numDots, init, s) && InGrid(q) && q in Reached(t) && q in s.walk
    requires s.top == s.topCentre || s.top !in s.walk
    requires Link(ExpectedLinks(s.walk, q), d).Some?
    ensures Link(ExpectedLinks(s.walk, q), d) == Some(Step(q, d)) && InGrid(Step(q, d))
    ensures Link(t[Step(q, d)].nbor, Opposite(d)) == Some(q)
  {
    var reached := Reached(t);
    var m := Step(q, d);
    assert Centre(s, q) == q;
    LinksAreAdjacent(s.walk, q, d);
    AdjListsLinks(s.walk, q);
    assert m in ExpectedAdj(s.walk, Centre(s, q));
    assert m in reached;
    assert Centre(s, m) == m;
    LinksMutual(s.walk, q, d);
  }

  /** The table a fresh NavGraph gives createAdjacencyList, laid out, meets BuiltIsWired's demand on init. */
  lemma BlankLaidOut(prev: Table, walk: set<Pos>)
    requires Complete(prev) && forall q :: InGrid(q) ==> prev[q] == BlankNode
    ensures forall q :: InGrid(q) ==>
              var n := LaidOut(prev, walk)[q];
              n.nbor == NoLinks && n.adj == [] && n.x == NodeCoord(q.0) && n.z == NodeCoord(q.1)
  {
  }
}
