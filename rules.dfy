/**
 * The rules of play, as values: what randomize, checkGhostTimer, one step
 * of updateGhosts, createGhosts, the three steps of refreshPacman,
 * addScores and checkCollision do to a ghost, Pac-Man or the node table.
 * The Game class proves its methods against these functions; the lemmas
 * here state what the rules keep true.
 */
module GameRules {
  import opened Wrappers
  import opened Random
  import opened Maze
  import opened MazeSearch
  import opened Moves
  import opened Wiring

  const GhostRandomTime: int := 5
  const DotScore: int := 10
  const PpillScore: int := 100
  const SlowGhostRate: real := 1.0
  const InitialGhostRate: real := 2.0

  /** A ghost; its colour is left out. `cur` is the node it stands on. */
  datatype Ghost = Ghost(alive: bool, xMov: int, yMov: int, ghostTimer: int, cur: Pos)

  datatype Pacman = Pacman(alive: bool, xMov: int, yMov: int, cur: Pos)

  /** A heading with exactly one component, of size one. */
  predicate Unit(xMov: int, yMov: int)
  {
    HeadingDir(xMov, yMov).Some? && (xMov, yMov) == Heading(HeadingDir(xMov, yMov).value)
  }

  /** A ghost on the table, with its timer in [1, 5] and a unit heading whose link is not NULL. */
  ghost predicate GhostOk(t: Table, g: Ghost)
  {
    Complete(t) && InGrid(g.cur) && 1 <= g.ghostTimer <= GhostRandomTime && Unit(g.xMov, g.yMov) &&
    Link(t[g.cur].nbor, HeadingDir(g.xMov, g.yMov).value).Some?
  }

  /** Pac-Man on the table, standing still or with a unit heading whose link is not NULL. */
  ghost predicate PacOk(t: Table, m: Pacman)
  {
    Complete(t) && InGrid(m.cur) &&
    (HeadingDir(m.xMov, m.yMov).Some? ==>
       Unit(m.xMov, m.yMov) && Link(t[m.cur].nbor, HeadingDir(m.xMov, m.yMov).value).Some?)
  }

  /** The pending arrow-key input: none, or a unit heading. */
  predicate Pending(x: int, y: int)
  {
    (x == 0 && y == 0) || Unit(x, y)
  }

  /** The heading of a direction is a unit heading, so a pending input the game accepts. */
  lemma HeadingPending(d: Dir)
    ensures Unit(Heading(d).0, Heading(d).1) && Pending(Heading(d).0, Heading(d).1)
  {
    HeadingRoundTrip(d, d);
  }

  // ---------------------------------------------------------------------
  // Ghosts
  // ---------------------------------------------------------------------

  /** What randomize reads: a node with adjacent nodes, each of them a node of the table. */
  ghost predicate CanRandomize(t: Table, q: Pos)
  {
    Complete(t) && InGrid(q) && |t[q].adj| > 0 && forall m :: m in t[q].adj ==> InGrid(m)
  }

  /** randomize with `rand()` returning r: head towards adj[r % numadj]. */
  ghost function Randomized(t: Table, g: Ghost, r: RandValue): Ghost
    requires CanRandomize(t, g.cur)
  {
    var q := g.cur;
    var m := t[q].adj[r % |t[q].adj|];
    var h := Toward(t[m].x - t[q].x, t[m].z - t[q].z);
    g.(xMov := h.0, yMov := h.1)
  }

  /**
   * On a wired table, randomize at a node with adjacent nodes sets exactly
   * one of xMov and yMov to +-1, along the link to the picked node, and
   * changes nothing else about the ghost.
   */
  lemma RandomizeStep(t: Table, g: Ghost, r: RandValue)
    requires Wired(t) && InGrid(g.cur) && |t[g.cur].adj| > 0
    ensures CanRandomize(t, g.cur)
    ensures var n := Randomized(t, g, r);
            n.cur == g.cur && n.ghostTimer == g.ghostTimer && n.alive == g.alive && Unit(n.xMov, n.yMov) &&
            Link(t[g.cur].nbor, HeadingDir(n.xMov, n.yMov).value) == Some(t[g.cur].adj[r % |t[g.cur].adj|])
  {
    WiredRandomizes(t, g.cur);
    var q := g.cur;
    RandomizeHeads(t, q, t[q].adj[r % |t[q].adj|]);
  }

  /** On a wired table every node with adjacent nodes can be randomized from. */
  lemma WiredRandomizes(t: Table, q: Pos)
    requires Wired(t) && InGrid(q) && |t[q].adj| > 0
    ensures CanRandomize(t, q)
  {
    forall m | m in t[q].adj
      ensures InGrid(m)
    {
      RandomizeHeads(t, q, m);
    }
  }

  /**
   * checkGhostTimer: count the timer down; at zero, randomize (drawing the
   * n-th value of the stream) and restart it at ghostRandomTime. Returns the
   * ghost and the number of values drawn so far.
   */
  ghost function TimerTick(t: Table, g: Ghost, s: nat -> RandValue, n: nat): (Ghost, nat)
    requires g.ghostTimer == 1 ==> CanRandomize(t, g.cur)
  {
    if g.ghostTimer - 1 == 0 then (Randomized(t, g.(ghostTimer := 0), s(n)).(ghostTimer := GhostRandomTime), n + 1)
    else (g.(ghostTimer := g.ghostTimer - 1), n)
  }

  /**
   * One ghost of updateGhosts: move along the heading's link, tick the
   * timer, and randomize when the node reached has no link in the direction
   * the ghost arrived from, which is checked even when the timer already
   * changed the heading.
   */
  ghost function GhostStep(t: Table, g: Ghost, s: nat -> RandValue, n: nat): (Ghost, nat)
    requires Wired(t) && GhostOk(t, g)
  {
    var d := HeadingDir(g.xMov, g.yMov).value;
    LinkTargetLinks(t, g.cur, d);
    var m := Link(t[g.cur].nbor, d).value;
    WiredRandomizes(t, m);
    var tick := TimerTick(t, g.(cur := m), s, n);
    if Link(t[m].nbor, d).None? then (Randomized(t, tick.0, s(tick.1)), tick.1 + 1) else tick
  }

  /**
   * A step of updateGhosts keeps a ghost on a wired table well placed: it
   * stands on the node its old link led to, its timer went down by one or
   * restarted at 5 from 1, its heading is a unit heading with a link, and
   * it drew at most two values.
   */
  lemma GhostStepOk(t: Table, g: Ghost, s: nat -> RandValue, n: nat)
    requires Wired(t) && GhostOk(t, g)
    ensures var r := GhostStep(t, g, s, n);
            GhostOk(t, r.0) && r.0.cur == Link(t[g.cur].nbor, HeadingDir(g.xMov, g.yMov).value).value &&
            r.0.ghostTimer == (if g.ghostTimer == 1 then GhostRandomTime else g.ghostTimer - 1) &&
            n <= r.1 <= n + 2
  {
    var d := HeadingDir(g.xMov, g.yMov).value;
    LinkTargetLinks(t, g.cur, d);
    var m := Link(t[g.cur].nbor, d).value;
    WiredRandomizes(t, m);
    var tick := TimerTick(t, g.(cur := m), s, n);
    if g.ghostTimer == 1 {
      RandomizeStep(t, g.(cur := m, ghostTimer := 0), s(n));
    }
    if Link(t[m].nbor, d).None? {
      RandomizeStep(t, tick.0, s(tick.1));
    }
  }

  /** updateGhosts on the first k ghosts of gs, in order, from the n-th value of the stream. */
  ghost function GhostsAfter(t: Table, gs: seq<Ghost>, s: nat -> RandValue, n: nat, k: nat): (r: (seq<Ghost>, nat))
    requires Wired(t) && k <= |gs| && forall i :: 0 <= i < |gs| ==> GhostOk(t, gs[i])
    ensures |r.0| == |gs| && n <= r.1
    ensures forall i :: 0 <= i < |gs| ==> GhostOk(t, r.0[i])
    ensures forall i :: k <= i < |gs| ==> r.0[i] == gs[i]
  {
    if k == 0 then (gs, n)
    else
      var prev := GhostsAfter(t, gs, s, n, k - 1);
      GhostStepOk(t, prev.0[k - 1], s, prev.1);
      var step := GhostStep(t, prev.0[k - 1], s, prev.1);
      (prev.0[k - 1 := step.0], step.1)
  }

  /** The node findStartNode stops at: in the game, or with an adjacent node. */
  predicate Settles(n: Node)
  {
    n.ingame || |n.adj| >= 1
  }

  /**
   * findStartNode(x, z): scan up column x from row z for the first node
   * that settles. None where the source would read past the last row.
   */
  ghost function GhostScan(t: Table, x: int, z: int): (r: Option<Pos>)
    requires Complete(t) && 0 <= x < NodesPerLine && 0 <= z
    ensures r.Some? ==> InGrid(r.value)
    decreases NodesPerLine - z
  {
    if z >= NodesPerLine then None
    else if Settles(t[(x, z)]) then Some((x, z))
    else GhostScan(t, x, z + 1)
  }

  /** GhostScan finds the lowest settling node at or above row z in column x, and fails only when there is none. */
  lemma {:induction false} GhostScanFirst(t: Table, x: int, z: int)
    requires Complete(t) && 0 <= x < NodesPerLine && 0 <= z
    ensures var r := GhostScan(t, x, z);
            (r.Some? ==> r.value.0 == x && z <= r.value.1 < NodesPerLine && Settles(t[r.value]) &&
                         forall k :: z <= k < r.value.1 ==> !Settles(t[(x, k)])) &&
            (r.None? <==> forall k :: z <= k < NodesPerLine ==> !Settles(t[(x, k)]))
    decreases NodesPerLine - z
  {
    if z < NodesPerLine && !Settles(t[(x, z)]) {
      GhostScanFirst(t, x, z + 1);
    }
  }

  /**
   * Where createGhosts puts the four ghosts, and their first headings:
   * red going down from (startX, startZ + 12), cyan going up one row
   * higher, orange going right one column to the right, pink going left
   * one column to the left of the start column.
   */
  const GhostStarts: seq<(int, int, Dir)> :=
    [(StartX, StartZ + NodesPerLine / 2, Down), (StartX, StartZ + NodesPerLine / 2 + 1, Up),
     (StartX + 1, StartZ + NodesPerLine / 2 + 1, Right), (StartX - 1, StartZ + NodesPerLine / 2 + 1, Left)]

  /** What createGhosts demands for ghost k: its scan ends on the table, and it can head somewhere. */
  ghost predicate CanStart(t: Table, k: int)
  {
    Complete(t) && 0 <= k < 4 &&
    var (x, z, d) := GhostStarts[k];
    GhostScan(t, x, z).Some? &&
    var p := GhostScan(t, x, z).value;
    Link(t[p].nbor, d).Some? || |t[p].adj| > 0
  }

  /**
   * Ghost k as createGhosts makes it: alive, heading its way with the timer
   * at ghostRandomTime on the node its scan found, then checkStartDirection
   * randomizes it when that heading has no link.
   */
  ghost function StartGhost(t: Table, k: int, s: nat -> RandValue, n: nat): (Ghost, nat)
    requires Wired(t) && CanStart(t, k)
  {
    var (x, z, d) := GhostStarts[k];
    var p := GhostScan(t, x, z).value;
    GhostScanFirst(t, x, z);
    var g := Ghost(true, Heading(d).0, Heading(d).1, GhostRandomTime, p);
    HeadingRoundTrip(d, d);
    if Link(t[p].nbor, d).None? then
      WiredRandomizes(t, p);
      (Randomized(t, g, s(n)), n + 1)
    else (g, n)
  }

  /** A ghost createGhosts makes on a wired table is well placed. */
  lemma StartGhostOk(t: Table, k: int, s: nat -> RandValue, n: nat)
    requires Wired(t) && CanStart(t, k)
    ensures GhostOk(t, StartGhost(t, k, s, n).0) && n <= StartGhost(t, k, s, n).1
  {
    var (x, z, d) := GhostStarts[k];
    GhostScanFirst(t, x, z);
    var p := GhostScan(t, x, z).value;
    var g := Ghost(true, Heading(d).0, Heading(d).1, GhostRandomTime, p);
    HeadingRoundTrip(d, d);
    if Link(t[p].nbor, d).None? {
      RandomizeStep(t, g, s(n));
    }
  }

  /** createGhosts for the first k ghosts. */
  ghost function StartGhosts(t: Table, s: nat -> RandValue, n: nat, k: nat): (r: (seq<Ghost>, nat))
    requires Wired(t) && k <= 4 && forall j :: 0 <= j < 4 ==> CanStart(t, j)
    ensures |r.0| == k && n <= r.1 && forall i :: 0 <= i < k ==> GhostOk(t, r.0[i])
  {
    if k == 0 then ([], n)
    else
      var prev := StartGhosts(t, s, n, k - 1);
      StartGhostOk(t, k - 1, s, prev.1);
      var g := StartGhost(t, k - 1, s, prev.1);
      (prev.0 + [g.0], g.1)
  }

  /** createGhosts draws for the four ghosts in order, each from where the previous one stopped. */
  lemma StartGhostsInOrder(t: Table, s: nat -> RandValue, n: nat)
    requires Wired(t) && forall j :: 0 <= j < 4 ==> CanStart(t, j)
    ensures var a := StartGhost(t, 0, s, n);
            var b := StartGhost(t, 1, s, a.1);
            var c := StartGhost(t, 2, s, b.1);
            var d := StartGhost(t, 3, s, c.1);
            StartGhosts(t, s, n, 4) == ([a.0, b.0, c.0, d.0], d.1)
  {
    var a := StartGhost(t, 0, s, n);
    var b := StartGhost(t, 1, s, a.1);
    var c := StartGhost(t, 2, s, b.1);
    var d := StartGhost(t, 3, s, c.1);
    var g0 := StartGhosts(t, s, n, 0);
    var g1 := StartGhosts(t, s, n, 1);
    assert g1.0 == g0.0 + [a.0] == [a.0] && g1.1 == a.1;
    var g2 := StartGhosts(t, s, n, 2);
    assert g2.0 == g1.0 + [b.0] == [a.0, b.0] && g2.1 == b.1;
    var g3 := StartGhosts(t, s, n, 3);
    assert g3.0 == g2.0 + [c.0] == [a.0, b.0, c.0] && g3.1 == c.1;
    var g4 := StartGhosts(t, s, n, 4);
    assert g4.0 == g3.0 + [d.0] == [a.0, b.0, c.0, d.0] && g4.1 == d.1;
  }

  // ---------------------------------------------------------------------
  // Pac-Man
  // ---------------------------------------------------------------------

  /** updatePacmanPosition: follow the heading's link, if there is a heading. */
  ghost function Advanced(t: Table, m: Pacman): Pacman
    requires PacOk(t, m)
  {
    match HeadingDir(m.xMov, m.yMov)
    case None => m
    case Some(d) => m.(cur := Link(t[m.cur].nbor, d).value)
  }

  /** updatePacmanMovement: a pending input that is not (0, 0) becomes the heading. */
  function Adopted(m: Pacman, newX: int, newY: int): Pacman
  {
    if newX != 0 || newY != 0 then m.(xMov := newX, yMov := newY) else m
  }

  /** checkPacmanMovement's stop: a heading without a link becomes (0, 0). */
  ghost function Checked(t: Table, m: Pacman): Pacman
    requires Complete(t) && InGrid(m.cur)
  {
    match HeadingDir(m.xMov, m.yMov)
    case None => m
    case Some(d) => if Link(t[m.cur].nbor, d).None? then m.(xMov := 0, yMov := 0) else m
  }

  /**
   * The movement steps of refreshPacman keep Pac-Man well placed on a wired
   * table: he moves onto a node of the table, then heads as the pending
   * input says if there is one, and stops exactly when that heading has no
   * link.
   */
  lemma PacStepOk(t: Table, m: Pacman, newX: int, newY: int)
    requires Wired(t) && PacOk(t, m) && Pending(newX, newY)
    ensures var a := Advanced(t, m);
            InGrid(a.cur) &&
            var c := Checked(t, Adopted(a, newX, newY));
            PacOk(t, c) && c.cur == a.cur &&
            var h := Adopted(a, newX, newY);
            (if HeadingDir(h.xMov, h.yMov).Some? && Link(t[a.cur].nbor, HeadingDir(h.xMov, h.yMov).value).None?
             then c.xMov == 0 && c.yMov == 0
             else c.xMov == h.xMov && c.yMov == h.yMov)
  {
    match HeadingDir(m.xMov, m.yMov)
    case None =>
    case Some(d) =>
      LinkTargetLinks(t, m.cur, d);
  }

  /** Pac-Man after the movement steps of refreshPacman, with pending input (newX, newY). */
  ghost function PacmanAfter(t: Table, m: Pacman, newX: int, newY: int): (r: Pacman)
    requires Wired(t) && PacOk(t, m) && Pending(newX, newY)
    ensures PacOk(t, r) && r.cur == Advanced(t, m).cur && r.alive == m.alive
  {
    PacStepOk(t, m, newX, newY);
    Checked(t, Adopted(Advanced(t, m), newX, newY))
  }

  // ---------------------------------------------------------------------
  // Scoring and collisions
  // ---------------------------------------------------------------------

  /** The nodes still holding a dot or a power pill. */
  ghost function Dotted(t: Table): (r: set<Pos>)
    ensures forall q :: q in r <==> InGrid(q) && q in t && (t[q].dot || t[q].ppill)
  {
    set q | q in AllPos() && q in t && (t[q].dot || t[q].ppill)
  }

  /** No node holds both a dot and a power pill. */
  ghost predicate NoBoth(t: Table)
  {
    forall q :: InGrid(q) && q in t ==> !(t[q].dot && t[q].ppill)
  }

  /** What addScores leaves of the node Pac-Man stands on. */
  function Eaten(n: Node): (r: Node)
    ensures !r.dot && !r.ppill
    ensures r.(dot := n.dot, ppill := n.ppill) == n
  {
    n.(dot := false, ppill := false)
  }

  /** The score addScores adds for a node. */
  function Points(n: Node): int
  {
    (if n.dot then DotScore else 0) + (if n.ppill then PpillScore else 0)
  }

  /** How many times addScores decrements numDots for a node. */
  function Eats(n: Node): int
  {
    (if n.dot then 1 else 0) + (if n.ppill then 1 else 0)
  }

  /**
   * Eating at p removes p from the dotted nodes, and when no node holds
   * both, the count addScores subtracts is exactly one for a dotted node
   * and zero otherwise, so numDots keeps counting the dotted nodes.
   */
  lemma EatCount(t: Table, p: Pos)
    requires InGrid(p) && p in t && NoBoth(t)
    ensures Dotted(t[p := Eaten(t[p])]) == Dotted(t) - {p}
    ensures Eats(t[p]) == (if p in Dotted(t) then 1 else 0)
    ensures |Dotted(t[p := Eaten(t[p])])| == |Dotted(t)| - Eats(t[p])
    ensures NoBoth(t[p := Eaten(t[p])])
  {
    assert Dotted(t[p := Eaten(t[p])]) == Dotted(t) - {p};
  }

  /** The table a game is played on: wired, no node with both, and numDots counting the dotted nodes. */
  ghost predicate Playable(t: Table, numDots: int)
  {
    Wired(t) && NoBoth(t) && numDots == |Dotted(t)|
  }

  /** On a playable table addScores's test numDots < 1 holds exactly when no dot or power pill is left. */
  lemma WonWhenCleared(t: Table, numDots: int)
    requires Playable(t, numDots)
    ensures numDots < 1 <==> Dotted(t) == {}
  {
  }

  /**
   * After createAdjacencyList the dotted nodes are the reached in-game
   * nodes, so numDots counts them and no node holds both.
   */
  lemma BuiltDots(t: Table, numDots: int, init: Table, s: Search)
    requires AdjacencyBuilt(t, numDots, init, s)
    ensures Dotted(t) == Reached(t) * s.walk && numDots == |Dotted(t)| && NoBoth(t)
  {
    assert Dotted(t) == Reached(t) * s.walk;
  }

  /**
   * createAdjacencyList run on a fresh node table, from a start node whose
   * own neighbours it examined, leaves a table the game can be played on.
   */
  lemma BuiltPlayable(prev: Table, walk: set<Pos>, t: Table, numDots: int, s: Search)
    requires Complete(prev) && forall q :: InGrid(q) ==> prev[q] == BlankNode
    requires s.walk == walk && AdjacencyBuilt(t, numDots, LaidOut(prev, walk), s)
    requires s.top == s.topCentre || s.top !in s.walk
    ensures Playable(t, numDots)
  {
    BlankLaidOut(prev, walk);
    BuiltIsWired(t, numDots, LaidOut(prev, walk), s);
    BuiltDots(t, numDots, LaidOut(prev, walk), s);
  }

  /** checkCollision's test for one ghost: it is on Pac-Man's node or on his link in his heading. */
  ghost predicate Collides(t: Table, m: Pacman, g: Ghost)
  {
    g.cur == m.cur ||
    (HeadingDir(m.xMov, m.yMov).Some? && m.cur in t && Link(t[m.cur].nbor, HeadingDir(m.xMov, m.yMov).value) == Some(g.cur))
  }

  /** Some ghost of gs collides with Pac-Man. */
  ghost predicate AnyCollision(t: Table, m: Pacman, gs: seq<Ghost>)
  {
    exists i :: 0 <= i < |gs| && Collides(t, m, gs[i])
  }

  /** checkCollision's loop: a collision among gs + [g] is one among gs or one with g. */
  lemma AnyCollisionSnoc(t: Table, m: Pacman, gs: seq<Ghost>, g: Ghost)
    ensures AnyCollision(t, m, gs + [g]) <==> AnyCollision(t, m, gs) || Collides(t, m, g)
  {
    if Collides(t, m, g) {
      assert (gs + [g])[|gs|] == g;
    }
    if AnyCollision(t, m, gs) {
      var i :| 0 <= i < |gs| && Collides(t, m, gs[i]);
      assert (gs + [g])[i] == gs[i];
    }
  }

  /**
   * Changing only the flags of the node at p moves no link, so Pac-Man and
   * the ghosts stay well placed and the collisions stay the same.
   */
  lemma FlagsKeep(t: Table, p: Pos, v: Node, m: Pacman, gs: seq<Ghost>)
    requires Complete(t) && InGrid(p) && v.nbor == t[p].nbor
    ensures PacOk(t[p := v], m) == PacOk(t, m)
    ensures forall i :: 0 <= i < |gs| ==> GhostOk(t[p := v], gs[i]) == GhostOk(t, gs[i])
    ensures AnyCollision(t[p := v], m, gs) == AnyCollision(t, m, gs)
  {
    forall i | 0 <= i < |gs|
      ensures Collides(t[p := v], m, gs[i]) == Collides(t, m, gs[i])
    {
    }
  }

  /**
   * addScores keeps a game playable: eating at p leaves the table wired,
   * numDots minus the eaten count still counts the dotted nodes, and
   * Pac-Man and the ghosts stay well placed.
   */
  lemma EatPlayable(t: Table, numDots: int, p: Pos, m: Pacman, gs: seq<Ghost>)
    requires Playable(t, numDots) && InGrid(p) && PacOk(t, m)
    requires forall i :: 0 <= i < |gs| ==> GhostOk(t, gs[i])
    ensures var u := t[p := Eaten(t[p])];
            Playable(u, numDots - Eats(t[p])) && PacOk(u, m) &&
            (forall i :: 0 <= i < |gs| ==> GhostOk(u, gs[i])) &&
            AnyCollision(u, m, gs) == AnyCollision(t, m, gs)
  {
    EatCount(t, p);
    WiredFlags(t, p, Eaten(t[p]));
    FlagsKeep(t, p, Eaten(t[p]), m, gs);
  }

  // ---------------------------------------------------------------------
  // Frame timing
  // ---------------------------------------------------------------------

  /**
   * One of UpdateFrame's accumulators: add inc, and when the sum passes
   * DistPaths, restart at zero (the object then moves one node). It never
   * exceeds DistPaths, and stays non-negative under non-negative steps.
   */
  function Accumulate(timer: real, inc: real): (r: real)
    ensures r <= DistPaths as real
    ensures 0.0 <= timer && 0.0 <= inc ==> 0.0 <= r
    ensures r == 0.0 || r == timer + inc
    ensures timer + inc > DistPaths as real <==> r == 0.0 && timer + inc != 0.0
  {
    if timer + inc > DistPaths as real then 0.0 else timer + inc
  }
}
