/**
 * Two ways createAdjacencyList's choice of Pac-Man's start node departs from
 * what the game evidently intends, each shown on a concrete column of
 * in-game nodes, next to the intended behaviour with its property proved.
 *
 * 1. traverseNeighbors is called with the original startZ, so when
 *    findPacmanStartNode moved up the column the start node's links are
 *    taken from the neighbours of (12, 6).
 * 2. findPacmanStartNode also stops on a node that is out of the game when
 *    its four neighbours are in it; the traversal then reaches nothing and
 *    the game starts with no dots.
 */
module StartNode {
  import opened Wrappers
  import opened Maze
  import opened MazeSearch
  import opened Wiring
  import opened GameRules

  /** Where the start scan begins: (startX, startZ) = (12, 6). */
  const Origin: Pos := (StartX, StartZ)

  /** The node above the origin, and the one above that. */
  const Above: Pos := (StartX, StartZ + 1)
  const TwoAbove: Pos := (StartX, StartZ + 2)

  /** A table whose only in-game nodes are the two above the origin. */
  const Column: set<Pos> := {Above, TwoAbove}

  /** A table whose only in-game nodes are the four neighbours of the origin. */
  const Ring: set<Pos> := {(StartX - 1, StartZ), (StartX + 1, StartZ), (StartX, StartZ - 1), (StartX, StartZ + 1)}

  /** An entry of an adjacency array is an in-game node other than the centre. */
  lemma AdjInWalk(walk: set<Pos>, c: Pos, n: Pos)
    requires n in ExpectedAdj(walk, c)
    ensures n in walk && n != c
  {
    AdjListsLinks(walk, c);
    var d :| Link(ExpectedLinks(walk, c), d) == Some(n);
    assert LinkTarget(walk, c, d) == Some(n);
  }

  /** What a built table says about reachability, dots and links, and nothing else. */
  ghost predicate Reach(t: Table, numDots: int, s: Search)
  {
    Complete(t) && s.top in Reached(t) && Closed(s, Reached(t)) &&
    (forall u :: Seed(s, u) ==> Reached(t) <= u) &&
    numDots == |Reached(t) * s.walk| &&
    (forall q :: InGrid(q) ==> (t[q].dot || t[q].ppill <==> q in Reached(t) && q in s.walk)) &&
    (forall q :: q in Reached(t) && q in s.walk ==> t[q].nbor == ExpectedLinks(s.walk, Centre(s, q)))
  }

  lemma BuiltReach(t: Table, numDots: int, init: Table, s: Search)
    requires AdjacencyBuilt(t, numDots, init, s)
    ensures Reach(t, numDots, s)
  {
  }

  // ---------------------------------------------------------------------
  // 1. The traversal centre
  // ---------------------------------------------------------------------

  /** The only link the traversal makes around the origin on Column is Above. */
  lemma OriginLinks()
    ensures !Surrounded(Column, StartX, StartZ)
    ensures ExpectedLinks(Column, Origin) == Links(None, Some(Above), None, None)
    ensures ExpectedAdj(Column, Origin) == [Above]
  {
    assert LinkTarget(Column, Origin, Up) == Some(Above);
  }

  /** On Column, with the origin as the start node's centre, {Above} is closed. */
  lemma MovedClosed()
    ensures Seed(Search(Column, Above, Origin), {Above})
  {
    var s := Search(Column, Above, Origin);
    OriginLinks();
    forall q, n | q in {Above} && q in Column && n in ExpectedAdj(Column, Centre(s, q))
      ensures n in {Above}
    {
      assert Centre(s, q) == Origin;
    }
  }

  /**
   * As written: on Column the scan moves up to Above, but the traversal
   * examines the neighbours of the origin for it. Its up link then points
   * at itself, TwoAbove is never reached and gets no dot, and only one dot
   * is counted. Whatever table createAdjacencyList builds, it is not wired.
   */
  lemma MovedStartMiswired(t: Table, numDots: int, init: Table)
    requires AdjacencyBuilt(t, numDots, init, Search(Column, Above, Origin))
    ensures StartScan(Column, StartX, StartZ) == Some(Above)
    ensures Link(t[Above].nbor, Up) == Some(Above)
    ensures !Wired(t)
    ensures Reached(t) == {Above} && numDots == 1
    ensures TwoAbove in Column && !t[TwoAbove].dot && !t[TwoAbove].ppill
  {
    BuiltReach(t, numDots, init, Search(Column, Above, Origin));
    MovedReach(t, numDots);
  }

  /** MovedStartMiswired from the reachability facts alone. */
  lemma MovedReach(t: Table, numDots: int)
    requires Reach(t, numDots, Search(Column, Above, Origin))
    ensures StartScan(Column, StartX, StartZ) == Some(Above)
    ensures Link(t[Above].nbor, Up) == Some(Above)
    ensures !Wired(t)
    ensures Reached(t) == {Above} && numDots == 1
    ensures TwoAbove in Column && !t[TwoAbove].dot && !t[TwoAbove].ppill
  {
    OriginLinks();
    MovedClosed();
    assert Reached(t) == {Above};
    assert Reached(t) * Column == {Above};
    assert t[Above].nbor == ExpectedLinks(Column, Origin);
    assert Link(t[Above].nbor, Up) == Some(Above);
    assert Step(Above, Up) == TwoAbove;
    assert !WiredAt(t, Above);
  }

  /**
   * Intended: traversing from the start node's own position, the same
   * column yields a playable table on which both nodes are reached, carry a
   * dot and are counted.
   */
  lemma CentredStartWired(prev: Table, t: Table, numDots: int)
    requires Complete(prev) && forall q :: InGrid(q) ==> prev[q] == BlankNode
    requires AdjacencyBuilt(t, numDots, LaidOut(prev, Column), Search(Column, Above, Above))
    ensures Playable(t, numDots)
    ensures Reached(t) * Column == Column && numDots == 2
    ensures t[Above].dot && t[TwoAbove].dot
  {
    var s := Search(Column, Above, Above);
    BuiltPlayable(prev, Column, t, numDots, s);
    BuiltReach(t, numDots, LaidOut(prev, Column), s);
    CentredDots(t, numDots);
  }

  /** CentredStartWired's dots from the reachability facts alone. */
  lemma CentredDots(t: Table, numDots: int)
    requires Reach(t, numDots, Search(Column, Above, Above))
    ensures Reached(t) * Column == Column && numDots == 2
    ensures t[Above].dot || t[Above].ppill
    ensures t[TwoAbove].dot || t[TwoAbove].ppill
  {
    var s := Search(Column, Above, Above);
    assert LinkTarget(Column, Above, Up) == Some(TwoAbove);
    assert TwoAbove in ExpectedAdj(Column, Centre(s, Above));
    assert TwoAbove in Reached(t);
    assert Reached(t) * Column == Column;
  }

  // ---------------------------------------------------------------------
  // 2. The start scan's stopping condition
  // ---------------------------------------------------------------------

  /**
   * As written: on Ring the origin is out of the game but surrounded, so
   * the scan stops there; the traversal marks the origin and returns, and
   * the game starts with no dot at all.
   */
  lemma SurroundedStartEmpty(t: Table, numDots: int, init: Table)
    requires AdjacencyBuilt(t, numDots, init, Search(Ring, Origin, Origin))
    ensures StartScan(Ring, StartX, StartZ) == Some(Origin) && Origin !in Ring
    ensures Reached(t) == {Origin} && numDots == 0 && Dotted(t) == {}
  {
    BuiltReach(t, numDots, init, Search(Ring, Origin, Origin));
    SurroundedReach(t, numDots);
  }

  /** The origin is out of the game on Ring, and surrounded. */
  lemma RingFacts()
    ensures Origin !in Ring && Surrounded(Ring, StartX, StartZ)
    ensures StartScan(Ring, StartX, StartZ) == Some(Origin)
  {
  }

  /** On Ring nothing is linked from the origin: {Origin} is closed. */
  lemma OriginSeed()
    ensures Seed(Search(Ring, Origin, Origin), {Origin})
  {
    RingFacts();
  }

  /** SurroundedStartEmpty from the reachability facts alone. */
  lemma SurroundedReach(t: Table, numDots: int)
    requires Reach(t, numDots, Search(Ring, Origin, Origin))
    ensures StartScan(Ring, StartX, StartZ) == Some(Origin) && Origin !in Ring
    ensures Reached(t) == {Origin} && numDots == 0 && Dotted(t) == {}
  {
    var s := Search(Ring, Origin, Origin);
    RingFacts();
    OriginSeed();
    assert Reached(t) <= {Origin};
    assert Reached(t) == {Origin};
    assert Reached(t) * Ring == {};
  }

  /**
   * The scan the loop's comment describes: the first node from row z up
   * column sx that is in the game and has an in-game neighbour.
   */
  function IntendedScan(walk: set<Pos>, sx: int, z: int): (r: Option<Pos>)
    requires 0 <= z < NodesPerLine
    ensures r.Some? ==> r.value.0 == sx && z <= r.value.1 < NodesPerLine
    ensures r.Some? ==> r.value in walk && ExpectedAdj(walk, r.value) != []
    decreases NodesPerLine - z
  {
    if (sx, z) in walk && ExpectedAdj(walk, (sx, z)) != [] then Some((sx, z))
    else if z == NodesPerLine - 1 then None
    else IntendedScan(walk, sx, z + 1)
  }

  /**
   * Intended: traversing from the node IntendedScan finds, the game starts
   * with at least two dots, so it cannot be won before Pac-Man moves.
   */
  lemma IntendedStartHasDots(walk: set<Pos>, t: Table, numDots: int, init: Table, p: Pos)
    requires IntendedScan(walk, StartX, StartZ) == Some(p)
    requires AdjacencyBuilt(t, numDots, init, Search(walk, p, p))
    ensures numDots >= 2
  {
    BuiltReach(t, numDots, init, Search(walk, p, p));
    LinkedStartDots(walk, Reached(t), p);
  }

  /** A start node in the game with an in-game neighbour: a closed set holding it holds two in-game nodes. */
  lemma LinkedStartDots(walk: set<Pos>, r: set<Pos>, p: Pos)
    requires p in walk && ExpectedAdj(walk, p) != []
    requires p in r && Closed(Search(walk, p, p), r)
    ensures |r * walk| >= 2
  {
    var s := Search(walk, p, p);
    var n := ExpectedAdj(walk, p)[0];
    AdjInWalk(walk, p, n);
    assert Centre(s, p) == p;
    ClosedStep(s, r, p, n);
    var both := {p, n};
    assert |both| == 2;
    assert both <= r * walk;
    SubsetCard(both, r * walk);
  }

  /** A closed set holds the nodes its in-game members link to. */
  lemma ClosedStep(s: Search, u: set<Pos>, q: Pos, n: Pos)
    requires Closed(s, u) && q in u && q in s.walk && n in ExpectedAdj(s.walk, Centre(s, q))
    ensures n in u
  {
  }

  lemma {:induction false} SubsetCard(a: set<Pos>, b: set<Pos>)
    requires a <= b
    ensures |a| <= |b|
  {
    if a != {} {
      var x :| x in a;
      SubsetCard(a - {x}, b - {x});
    }
  }
}
