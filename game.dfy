/**
 * The game's mutable state: Pac-Man, the four ghosts, the score, the menu
 * flags, the pending arrow-key input, the camera angle and the frame
 * accumulators, over the node table built by createAdjacencyList. Each
 * method is proved against the rules in module GameRules, and every
 * method that runs during play keeps the invariant Valid().
 */
module Play {
  import opened Wrappers
  import opened Random
  import opened Grid
  import opened Maze
  import opened Moves
  import opened Wiring
  import opened GameRules
  import opened NavGraphs

  class Game {
    const graph: NavGraph
    const heightMap: array2<real>
    const rng: Rng
    const ghosts: array<Ghost>
    var man: Pacman
    var score: int
    var gameStart: int
    var gameWin: int
    var projection: int
    var projectionAngle: int
    var pacmanNewX: int
    var pacmanNewY: int
    var ghostRate: real
    var pacmanTimer: real
    var ghostTimer: real

    /**
     * The table is playable, Pac-Man and every ghost are well placed, the
     * pending input is none or a unit heading, the camera angle is a right
     * angle and the ghost rate is one of its two values.
     */
    ghost predicate Valid()
      reads this`man, this`pacmanNewX, this`pacmanNewY, this`projectionAngle, this`ghostRate
      reads graph`numDots, graph`table, graph.nodes, ghosts
    {
      Board() && Controls()
    }

    /** The table is playable, and Pac-Man and every ghost are well placed on it. */
    ghost predicate Board()
      reads this`man, graph`numDots, graph`table, graph.nodes, ghosts
    {
      graph.Valid() && heightMap.Length0 == GridSize && heightMap.Length1 == GridSize && ghosts.Length == 4 &&
      Playable(graph.table, graph.numDots) && PacOk(graph.table, man) &&
      (forall i :: 0 <= i < 4 ==> GhostOk(graph.table, ghosts[i]))
    }

    /** The pending input is none or a unit heading, the camera angle a right angle, the ghost rate one of its two values. */
    predicate Controls()
      reads this`pacmanNewX, this`pacmanNewY, this`projectionAngle, this`ghostRate
    {
      Pending(pacmanNewX, pacmanNewY) && RightAngle(projectionAngle) &&
      (ghostRate == SlowGhostRate || ghostRate == InitialGhostRate)
    }

    /** The height-map value under the node at p. */
    ghost function HeightOf(p: Pos): real
      requires heightMap.Length0 == GridSize && heightMap.Length1 == GridSize && InGrid(p)
      reads heightMap
    {
      heightMap[NodeCoord(p.0), NodeCoord(p.1)]
    }

    /**
     * The ghost rate after checkPacmanMovement for Pac-Man m: slow when his
     * heading's link leads to a higher node, the initial rate when it leads
     * to one no higher, and unchanged when he has no heading or no link.
     */
    ghost function RateAfter(t: Table, m: Pacman, rate: real): real
      requires heightMap.Length0 == GridSize && heightMap.Length1 == GridSize
      requires Wired(t) && InGrid(m.cur)
      reads heightMap
    {
      match HeadingDir(m.xMov, m.yMov)
      case None => rate
      case Some(d) =>
        match Link(t[m.cur].nbor, d)
        case None => rate
        case Some(next) =>
          LinkTargetLinks(t, m.cur, d);
          if HeightOf(m.cur) < HeightOf(next) then SlowGhostRate else InitialGhostRate
    }

    /**
     * The game as main leaves it before the first frame: createPacman on
     * the start node createAdjacencyList found, then createGhosts, with the
     * globals at their initial values.
     */
    constructor (graph: NavGraph, heightMap: array2<real>, rng: Rng, start: Pos)
      requires graph.Valid() && heightMap.Length0 == GridSize && heightMap.Length1 == GridSize
      requires Playable(graph.table, graph.numDots) && InGrid(start)
      requires forall k :: 0 <= k < 4 ==> CanStart(graph.table, k)
      modifies rng
      ensures Valid() && fresh(ghosts)
      ensures this.graph == graph && this.heightMap == heightMap && this.rng == rng
      ensures man == Pacman(true, 0, 0, start)
      ensures ghosts[..] == StartGhosts(graph.table, rng.stream, old(rng.drawn), 4).0
      ensures rng.drawn == StartGhosts(graph.table, rng.stream, old(rng.drawn), 4).1
      ensures score == 0 && gameStart == 0 && gameWin == 0 && projection == 1 && projectionAngle == 0
      ensures pacmanNewX == 0 && pacmanNewY == 0 && ghostRate == InitialGhostRate
      ensures pacmanTimer == 0.0 && ghostTimer == 0.0
    {
      this.graph := graph;
      this.heightMap := heightMap;
      this.rng := rng;
      ghosts := new Ghost[4](_ => Ghost(false, 0, 0, 0, start));
      man := Pacman(false, 0, 0, start);
      score := 0;
      gameStart := 0;
      gameWin := 0;
      projection := 1;
      projectionAngle := 0;
      pacmanNewX := 0;
      pacmanNewY := 0;
      ghostRate := InitialGhostRate;
      pacmanTimer := 0.0;
      ghostTimer := 0.0;
      new;
      CreatePacman();
      CreateGhosts();
    }

    // -------------------------------------------------------------------
    // Ghosts
    // -------------------------------------------------------------------

    /** randomize(&Ghosts[k]): draw one value and head towards adj[value % numadj]. */
    method Randomize(k: int)
      requires graph.Valid() && ghosts.Length == 4 && 0 <= k < 4 && CanRandomize(graph.table, ghosts[k].cur)
      modifies ghosts, rng
      ensures ghosts[..] == old(ghosts[..])[k := Randomized(graph.table, old(ghosts[k]), rng.stream(old(rng.drawn)))]
      ensures rng.drawn == old(rng.drawn) + 1
    {
      var g := ghosts[k];
      g := g.(xMov := 0, yMov := 0);
      var node := graph.nodes[g.cur.0, g.cur.1];
      var x := node.x;
      var z := node.z;
      var r := rng.Next();
      var rn := r % |node.adj|;
      var m := node.adj[rn];
      assert m in graph.table[g.cur].adj;
      var picked := graph.nodes[m.0, m.1];
      var xdiff := picked.x - x;
      var zdiff := picked.z - z;
      if xdiff > 0 {
        g := g.(xMov := 1);
      } else if xdiff < 0 {
        g := g.(xMov := -1);
      } else if zdiff > 0 {
        g := g.(yMov := 1);
      } else if zdiff < 0 {
        g := g.(yMov := -1);
      }
      ghosts[k] := g;
    }

    /** findStartNode(x, z); None where the scan would run past the last row. */
    method FindStartNode(x: int, z: int) returns (r: Option<Pos>)
      requires graph.Valid() && 0 <= x < NodesPerLine && 0 <= z
      ensures r == GhostScan(graph.table, x, z)
    {
      var j := z;
      while j < NodesPerLine
        invariant z <= j && GhostScan(graph.table, x, j) == GhostScan(graph.table, x, z)
        decreases NodesPerLine - j
      {
        var n := graph.nodes[x, j];
        if n.ingame || |n.adj| >= 1 {
          return Some((x, j));
        }
        j := j + 1;
      }
      return None;
    }

    /** checkStartDirection(&Ghosts[k]): randomize when the ghost's heading has no link. */
    method CheckStartDirection(k: int)
      requires graph.Valid() && ghosts.Length == 4 && 0 <= k < 4 && InGrid(ghosts[k].cur)
      requires var g := ghosts[k];
               HeadingDir(g.xMov, g.yMov).Some? && Link(graph.At(g.cur).nbor, HeadingDir(g.xMov, g.yMov).value).None? ==>
                 CanRandomize(graph.table, g.cur)
      modifies ghosts, rng
      ensures var g := old(ghosts[k]);
              if HeadingDir(g.xMov, g.yMov).Some? && Link(graph.At(g.cur).nbor, HeadingDir(g.xMov, g.yMov).value).None?
              then ghosts[..] == old(ghosts[..])[k := Randomized(graph.table, g, rng.stream(old(rng.drawn)))] &&
                   rng.drawn == old(rng.drawn) + 1
              else ghosts[..] == old(ghosts[..]) && rng.drawn == old(rng.drawn)
    {
      var g := ghosts[k];
      var l := graph.nodes[g.cur.0, g.cur.1].nbor;
      if g.xMov > 0 {
        if l.right.None? {
          Randomize(k);
        }
      } else if g.xMov < 0 {
        if l.left.None? {
          Randomize(k);
        }
      } else if g.yMov > 0 {
        if l.up.None? {
          Randomize(k);
        }
      } else if g.yMov < 0 {
        if l.down.None? {
          Randomize(k);
        }
      }
    }

    /** Ghost k of createGhosts, started from (x, z) with heading (xMov, yMov). */
    method CreateGhost(k: int, x: int, z: int, xMov: int, yMov: int)
      requires graph.Valid() && ghosts.Length == 4 && Wired(graph.table) && 0 <= k < 4 && CanStart(graph.table, k)
      requires x == GhostStarts[k].0 && z == GhostStarts[k].1 && (xMov, yMov) == Heading(GhostStarts[k].2)
      modifies ghosts, rng
      ensures ghosts[..] == old(ghosts[..])[k := StartGhost(graph.table, k, rng.stream, old(rng.drawn)).0]
      ensures rng.drawn == StartGhost(graph.table, k, rng.stream, old(rng.drawn)).1
    {
      var cur := FindStartNode(x, z);
      ghosts[k] := Ghost(true, xMov, yMov, GhostRandomTime, cur.value);
      HeadingRoundTrip(GhostStarts[k].2, GhostStarts[k].2);
      if Link(graph.At(cur.value).nbor, GhostStarts[k].2).None? {
        WiredRandomizes(graph.table, cur.value);
      }
      CheckStartDirection(k);
    }

    /** createGhosts: the four ghosts around (startX, startZ + 12), each started as CreateGhost says. */
    method CreateGhosts()
      requires graph.Valid() && ghosts.Length == 4 && Wired(graph.table)
      requires forall k :: 0 <= k < 4 ==> CanStart(graph.table, k)
      modifies ghosts, rng
      ensures ghosts[..] == StartGhosts(graph.table, rng.stream, old(rng.drawn), 4).0
      ensures rng.drawn == StartGhosts(graph.table, rng.stream, old(rng.drawn), 4).1
    {
      ghost var t := graph.table;
      ghost var n0 := rng.drawn;
      var x := StartX;
      var z := StartZ + NodesPerLine / 2;
      CreateGhost(0, x, z, 0, -1);
      ghost var n1 := rng.drawn;
      z := z + 1;
      CreateGhost(1, x, z, 0, 1);
      ghost var n2 := rng.drawn;
      x := x + 1;
      CreateGhost(2, x, z, 1, 0);
      ghost var n3 := rng.drawn;
      x := x - 2;
      CreateGhost(3, x, z, -1, 0);
      StartGhostsInOrder(t, rng.stream, n0);
      assert ghosts[..] == [ghosts[0], ghosts[1], ghosts[2], ghosts[3]];
    }

    /** checkGhostTimer(&Ghosts[k]). */
    method CheckGhostTimer(k: int)
      requires graph.Valid() && ghosts.Length == 4 && 0 <= k < 4
      requires ghosts[k].ghostTimer == 1 ==> CanRandomize(graph.table, ghosts[k].cur)
      modifies ghosts, rng
      ensures ghosts[..] == old(ghosts[..])[k := TimerTick(graph.table, old(ghosts[k]), rng.stream, old(rng.drawn)).0]
      ensures rng.drawn == TimerTick(graph.table, old(ghosts[k]), rng.stream, old(rng.drawn)).1
    {
      ghosts[k] := ghosts[k].(ghostTimer := ghosts[k].ghostTimer - 1);
      if ghosts[k].ghostTimer == 0 {
        Randomize(k);
        ghosts[k] := ghosts[k].(ghostTimer := GhostRandomTime);
      }
    }

    /** One branch of updateGhosts for ghost k heading along d. */
    method MoveGhost(k: int, d: Dir)
      requires graph.Valid() && ghosts.Length == 4 && 0 <= k < 4 && Wired(graph.table) && GhostOk(graph.table, ghosts[k])
      requires HeadingDir(ghosts[k].xMov, ghosts[k].yMov) == Some(d)
      modifies ghosts, rng
      ensures ghosts[..] == old(ghosts[..])[k := GhostStep(graph.table, old(ghosts[k]), rng.stream, old(rng.drawn)).0]
      ensures rng.drawn == GhostStep(graph.table, old(ghosts[k]), rng.stream, old(rng.drawn)).1
    {
      ghost var t := graph.table;
      var next := Link(graph.nodes[ghosts[k].cur.0, ghosts[k].cur.1].nbor, d).value;
      LinkTargetLinks(t, ghosts[k].cur, d);
      WiredRandomizes(t, next);
      ghosts[k] := ghosts[k].(cur := next);
      CheckGhostTimer(k);
      if Link(graph.nodes[next.0, next.1].nbor, d).None? {
        Randomize(k);
      }
    }

    /** The body of updateGhosts' loop for ghost k: the branch of its heading. */
    method StepGhost(k: int)
      requires graph.Valid() && ghosts.Length == 4 && 0 <= k < 4 && Wired(graph.table) && GhostOk(graph.table, ghosts[k])
      modifies ghosts, rng
      ensures ghosts[..] == old(ghosts[..])[k := GhostStep(graph.table, old(ghosts[k]), rng.stream, old(rng.drawn)).0]
      ensures rng.drawn == GhostStep(graph.table, old(ghosts[k]), rng.stream, old(rng.drawn)).1
    {
      var g := ghosts[k];
      if g.xMov > 0 {
        MoveGhost(k, Right);
      } else if g.xMov < 0 {
        MoveGhost(k, Left);
      } else if g.yMov > 0 {
        MoveGhost(k, Up);
      } else {
        MoveGhost(k, Down);
      }
    }

    /** updateGhosts: step the four ghosts in order; every ghost stays well placed. */
    method UpdateGhosts()
      requires Valid()
      modifies ghosts, rng
      ensures Valid()
      ensures ghosts[..] == GhostsAfter(graph.table, old(ghosts[..]), rng.stream, old(rng.drawn), 4).0
      ensures rng.drawn == GhostsAfter(graph.table, old(ghosts[..]), rng.stream, old(rng.drawn), 4).1
    {
      ghost var t := graph.table;
      ghost var gs := ghosts[..];
      ghost var n := rng.drawn;
      for i := 0 to 4
        invariant ghosts[..] == GhostsAfter(t, gs, rng.stream, n, i).0
        invariant rng.drawn == GhostsAfter(t, gs, rng.stream, n, i).1
      {
        StepGhost(i);
      }
    }

    // -------------------------------------------------------------------
    // Pac-Man
    // -------------------------------------------------------------------

    /** createPacman: alive and standing still; his node was set by createAdjacencyList. */
    method CreatePacman()
      modifies this`man
      ensures man == old(man).(alive := true, xMov := 0, yMov := 0)
    {
      man := man.(alive := true, xMov := 0, yMov := 0);
    }

    /** updatePacmanPosition: follow the heading's link, checked in the order right, left, down, up. */
    method UpdatePacmanPosition()
      requires graph.Valid() && PacOk(graph.table, man)
      modifies this`man
      ensures man == Advanced(graph.table, old(man))
    {
      var l := graph.nodes[man.cur.0, man.cur.1].nbor;
      if man.xMov > 0 {
        man := man.(cur := l.right.value);
      } else if man.xMov < 0 {
        man := man.(cur := l.left.value);
      } else if man.yMov < 0 {
        man := man.(cur := l.down.value);
      } else if man.yMov > 0 {
        man := man.(cur := l.up.value);
      }
    }

    /** updatePacmanMovement: a pending input that is not (0, 0) becomes the heading and is consumed. */
    method UpdatePacmanMovement()
      modifies this`man, this`pacmanNewX, this`pacmanNewY
      ensures man == Adopted(old(man), old(pacmanNewX), old(pacmanNewY))
      ensures pacmanNewX == 0 && pacmanNewY == 0
    {
      if pacmanNewX != 0 || pacmanNewY != 0 {
        man := man.(xMov := pacmanNewX, yMov := pacmanNewY);
        pacmanNewX := 0;
        pacmanNewY := 0;
      }
    }

    /** stopPacman. */
    method StopPacman()
      modifies this`man
      ensures man == old(man).(xMov := 0, yMov := 0)
    {
      man := man.(xMov := 0, yMov := 0);
    }

    /** checkPacmanMovement: stop at a missing link, else set the ghost rate by the slope ahead. */
    method CheckPacmanMovement()
      requires graph.Valid() && heightMap.Length0 == GridSize && heightMap.Length1 == GridSize
      requires Wired(graph.table) && InGrid(man.cur)
      modifies this`man, this`ghostRate
      ensures man == Checked(graph.table, old(man))
      ensures ghostRate == RateAfter(graph.table, old(man), old(ghostRate))
    {
      if man.xMov > 0 {
        CheckLink(Right);
      } else if man.xMov < 0 {
        CheckLink(Left);
      } else if man.yMov < 0 {
        CheckLink(Down);
      } else if man.yMov > 0 {
        CheckLink(Up);
      }
    }

    /** One branch of checkPacmanMovement, for Pac-Man heading along d. */
    method CheckLink(d: Dir)
      requires graph.Valid() && heightMap.Length0 == GridSize && heightMap.Length1 == GridSize
      requires Wired(graph.table) && InGrid(man.cur) && HeadingDir(man.xMov, man.yMov) == Some(d)
      modifies this`man, this`ghostRate
      ensures man == Checked(graph.table, old(man))
      ensures ghostRate == RateAfter(graph.table, old(man), old(ghostRate))
    {
      var n := graph.nodes[man.cur.0, man.cur.1];
      var next := Link(n.nbor, d);
      if next.None? {
        StopPacman();
      } else {
        ghost var t := graph.table;
        assert WiredAt(t, man.cur);
        LinkTargetLinks(t, man.cur, d);
        assert WiredAt(t, next.value);
        var m := graph.nodes[next.value.0, next.value.1];
        if heightMap[n.x, n.z] < heightMap[m.x, m.z] {
          ghostRate := SlowGhostRate;
        } else {
          ghostRate := InitialGhostRate;
        }
      }
    }

    // -------------------------------------------------------------------
    // Scoring and the menu
    // -------------------------------------------------------------------

    /** returnToMenu(win). */
    method ReturnToMenu(win: int)
      modifies this`gameStart, this`projection, this`gameWin
      ensures gameStart == 0 && projection == 1 && gameWin == win
    {
      gameStart := 0;
      projection := 1;
      gameWin := win;
    }

    /** The 's' key: reset the score and start the game. */
    method StartKey()
      modifies this`score, this`projection, this`gameStart, this`gameWin
      ensures score == 0 && projection == 0 && gameStart == 1 && gameWin == 0
    {
      score := 0;
      projection := 0;
      gameStart := 1;
      gameWin := 0;
    }

    /**
     * addScores: eat the dot and the power pill on Pac-Man's node, adding
     * their points and counting each down from numDots; when numDots drops
     * below one, return to the menu as the winner.
     */
    method AddScores()
      requires graph.Valid() && InGrid(man.cur)
      modifies graph`numDots, graph`table, graph.nodes, this`score, this`gameStart, this`projection, this`gameWin
      ensures graph.Valid()
      ensures graph.table == old(graph.table)[man.cur := Eaten(old(graph.table)[man.cur])]
      ensures score == old(score) + Points(old(graph.table)[man.cur])
      ensures graph.numDots == old(graph.numDots) - Eats(old(graph.table)[man.cur])
      ensures graph.numDots < 1 ==> gameStart == 0 && projection == 1 && gameWin == 1
      ensures graph.numDots >= 1 ==>
                gameStart == old(gameStart) && projection == old(projection) && gameWin == old(gameWin)
    {
      var n := graph.nodes[man.cur.0, man.cur.1];
      if n.dot {
        score := score + DotScore;
        n := n.(dot := false);
        graph.numDots := graph.numDots - 1;
      }
      if n.ppill {
        score := score + PpillScore;
        n := n.(ppill := false);
        graph.numDots := graph.numDots - 1;
      }
      graph.Write(man.cur, n);
      if graph.numDots < 1 {
        ReturnToMenu(1);
      }
    }

    /**
     * checkCollision: return to the menu as the loser when some ghost is on
     * Pac-Man's node or on his link in his heading; otherwise nothing changes.
     */
    method CheckCollision()
      requires graph.Valid() && ghosts.Length == 4 && InGrid(man.cur)
      modifies this`gameStart, this`projection, this`gameWin
      ensures AnyCollision(graph.table, man, ghosts[..]) ==> gameStart == 0 && projection == 1 && gameWin == -1
      ensures !AnyCollision(graph.table, man, ghosts[..]) ==>
                gameStart == old(gameStart) && projection == old(projection) && gameWin == old(gameWin)
    {
      ghost var t := graph.table;
      for i := 0 to 4
        invariant AnyCollision(t, man, ghosts[..i]) ==> gameStart == 0 && projection == 1 && gameWin == -1
        invariant !AnyCollision(t, man, ghosts[..i]) ==>
                    gameStart == old(gameStart) && projection == old(projection) && gameWin == old(gameWin)
      {
        var hit := false;
        if man.cur == ghosts[i].cur {
          ReturnToMenu(-1);
          hit := true;
        }
        var l := graph.nodes[man.cur.0, man.cur.1].nbor;
        if man.xMov > 0 {
          if l.right == Some(ghosts[i].cur) {
            ReturnToMenu(-1);
            hit := true;
          }
        } else if man.xMov < 0 {
          if l.left == Some(ghosts[i].cur) {
            ReturnToMenu(-1);
            hit := true;
          }
        } else if man.yMov < 0 {
          if l.down == Some(ghosts[i].cur) {
            ReturnToMenu(-1);
            hit := true;
          }
        } else if man.yMov > 0 {
          if l.up == Some(ghosts[i].cur) {
            ReturnToMenu(-1);
            hit := true;
          }
        }
        assert hit <==> Collides(t, man, ghosts[i]);
        assert ghosts[..i + 1] == ghosts[..i] + [ghosts[i]];
        AnyCollisionSnoc(t, man, ghosts[..i], ghosts[i]);
      }
      assert ghosts[..4] == ghosts[..];
    }

    // -------------------------------------------------------------------
    // A frame
    // -------------------------------------------------------------------

    /**
     * refreshPacman: test for a collision, move Pac-Man one node and take up
     * the pending input, eat what lies on his new node, and test again.
     * The game is won (gameWin 1) when the last dot or power pill is eaten
     * and lost (gameWin -1) on a collision; the second test overrides a win.
     */
    method RefreshPacman()
      requires Valid()
      modifies this`man, this`pacmanNewX, this`pacmanNewY, this`ghostRate, this`score
      modifies this`gameStart, this`projection, this`gameWin, graph`numDots, graph`table, graph.nodes
      ensures Valid()
      ensures man == PacmanAfter(old(graph.table), old(man), old(pacmanNewX), old(pacmanNewY))
      ensures pacmanNewX == 0 && pacmanNewY == 0
      ensures ghostRate == RateAfter(old(graph.table), Adopted(Advanced(old(graph.table), old(man)), old(pacmanNewX), old(pacmanNewY)), old(ghostRate))
      ensures graph.table == old(graph.table)[man.cur := Eaten(old(graph.table)[man.cur])]
      ensures score == old(score) + Points(old(graph.table)[man.cur])
      ensures var lostBefore := AnyCollision(old(graph.table), old(man), ghosts[..]);
              var lostAfter := AnyCollision(graph.table, man, ghosts[..]);
              var won := graph.numDots < 1;
              (if lostAfter then gameWin == -1
               else if won then gameWin == 1
               else if lostBefore then gameWin == -1
               else gameWin == old(gameWin)) &&
              (lostBefore || won || lostAfter ==> gameStart == 0 && projection == 1) &&
              (!(lostBefore || won || lostAfter) ==> gameStart == old(gameStart) && projection == old(projection))
    {
      CheckAndMove();
      EatAndCheck();
    }

    /** The first half of refreshPacman: checkCollision, then the movement steps. */
    method CheckAndMove()
      requires Valid()
      modifies this`man, this`pacmanNewX, this`pacmanNewY, this`ghostRate
      modifies this`gameStart, this`projection, this`gameWin
      ensures Valid()
      ensures man == PacmanAfter(graph.table, old(man), old(pacmanNewX), old(pacmanNewY))
      ensures pacmanNewX == 0 && pacmanNewY == 0
      ensures ghostRate ==
                RateAfter(graph.table, Adopted(Advanced(graph.table, old(man)), old(pacmanNewX), old(pacmanNewY)),
                          old(ghostRate))
      ensures AnyCollision(graph.table, old(man), ghosts[..]) ==> gameStart == 0 && projection == 1 && gameWin == -1
      ensures !AnyCollision(graph.table, old(man), ghosts[..]) ==>
                gameStart == old(gameStart) && projection == old(projection) && gameWin == old(gameWin)
    {
      CheckCollision();
      MovePacman();
    }

    /**
     * The end of refreshPacman: addScores on Pac-Man's node, then
     * checkCollision; a collision overrides the win addScores may report.
     */
    method EatAndCheck()
      requires Valid()
      modifies this`score, this`gameStart, this`projection, this`gameWin, graph`numDots, graph`table, graph.nodes
      ensures Valid()
      ensures graph.table == old(graph.table)[man.cur := Eaten(old(graph.table)[man.cur])]
      ensures score == old(score) + Points(old(graph.table)[man.cur])
      ensures AnyCollision(graph.table, man, ghosts[..]) == AnyCollision(old(graph.table), man, ghosts[..])
      ensures if AnyCollision(graph.table, man, ghosts[..]) then gameStart == 0 && projection == 1 && gameWin == -1
              else if graph.numDots < 1 then gameStart == 0 && projection == 1 && gameWin == 1
              else gameStart == old(gameStart) && projection == old(projection) && gameWin == old(gameWin)
    {
      EatDots();
      CheckCollision();
    }

    /** addScores during play: it keeps the game valid, and the dotted nodes lose Pac-Man's node. */
    method EatDots()
      requires Valid()
      modifies this`score, this`gameStart, this`projection, this`gameWin, graph`numDots, graph`table, graph.nodes
      ensures Valid()
      ensures graph.table == old(graph.table)[man.cur := Eaten(old(graph.table)[man.cur])]
      ensures score == old(score) + Points(old(graph.table)[man.cur])
      ensures AnyCollision(graph.table, man, ghosts[..]) == AnyCollision(old(graph.table), man, ghosts[..])
      ensures graph.numDots < 1 ==> gameStart == 0 && projection == 1 && gameWin == 1
      ensures graph.numDots >= 1 ==>
                gameStart == old(gameStart) && projection == old(projection) && gameWin == old(gameWin)
    {
      ghost var t0 := graph.table;
      ghost var p := man.cur;
      ghost var gs := ghosts[..];
      EatPlayable(t0, graph.numDots, p, man, gs);
      ghost var u := t0[p := Eaten(t0[p])];
      ghost var dots := graph.numDots - Eats(t0[p]);
      AddScores();
      assert graph.table == u && graph.numDots == dots;
      assert forall i :: 0 <= i < 4 ==> GhostOk(u, ghosts[i]) by {
        forall i | 0 <= i < 4
          ensures GhostOk(u, ghosts[i])
        {
          assert gs[i] == ghosts[i];
        }
      }
    }

    /** The movement steps of refreshPacman: updatePacmanPosition, updatePacmanMovement, checkPacmanMovement. */
    method MovePacman()
      requires Valid()
      modifies this`man, this`pacmanNewX, this`pacmanNewY, this`ghostRate
      ensures Valid()
      ensures man == PacmanAfter(graph.table, old(man), old(pacmanNewX), old(pacmanNewY))
      ensures pacmanNewX == 0 && pacmanNewY == 0
      ensures ghostRate ==
                RateAfter(graph.table, Adopted(Advanced(graph.table, old(man)), old(pacmanNewX), old(pacmanNewY)),
                          old(ghostRate))
    {
      PacStepOk(graph.table, man, pacmanNewX, pacmanNewY);
      UpdatePacmanPosition();
      UpdatePacmanMovement();
      CheckPacmanMovement();
    }

    /**
     * GameSpecialKeyAction: an arrow key turns the camera angle, and any
     * special key sets the pending input to the heading of the new angle,
     * the old heading turned as the key says.
     */
    method SpecialKey(key: Key)
      requires Valid()
      modifies this`projectionAngle, this`pacmanNewX, this`pacmanNewY
      ensures Valid()
      ensures projectionAngle == TurnAngle(old(projectionAngle), key)
      ensures (pacmanNewX, pacmanNewY) == AngleHeading(projectionAngle)
      ensures (pacmanNewX, pacmanNewY) == Rotate(AngleHeading(old(projectionAngle)), key)
    {
      TurnHeading(projectionAngle, key);
      HeadingPending(Up);
      HeadingPending(Right);
      HeadingPending(Down);
      HeadingPending(Left);
      match key {
        case KeyUp => projectionAngle := CRem(projectionAngle, 360);
        case KeyDown => projectionAngle := CRem(projectionAngle + 180, 360);
        case KeyRight => projectionAngle := CRem(projectionAngle - 90, 360);
        case KeyLeft => projectionAngle := CRem(projectionAngle + 90, 360);
        case OtherKey =>
      }
      var h := AngleHeading(projectionAngle);
      pacmanNewX := h.0;
      pacmanNewY := h.1;
    }

    /**
     * UpdateFrame, given the frame's length dt in seconds: advance both
     * accumulators by dt * DistPaths (the ghosts' scaled by the ghost rate);
     * an accumulator that passes DistPaths restarts at zero and moves its
     * side one node, the ghosts first. The source adds to both accumulators
     * before either test; neither half reads the other's accumulator, and
     * the ghosts' increment is taken before refreshPacman changes the rate,
     * so doing the ghosts' half first is the same.
     */
    method UpdateFrame(dt: real)
      requires Valid()
      modifies this`pacmanTimer, this`ghostTimer, ghosts, rng
      modifies this`man, this`pacmanNewX, this`pacmanNewY, this`ghostRate, this`score
      modifies this`gameStart, this`projection, this`gameWin, graph`numDots, graph`table, graph.nodes
      ensures Valid()
      ensures ghostTimer == Accumulate(old(ghostTimer), old(ghostRate) * (dt * DistPaths as real))
      ensures old(ghostTimer) + old(ghostRate) * (dt * DistPaths as real) > DistPaths as real ==>
                ghosts[..] == GhostsAfter(old(graph.table), old(ghosts[..]), rng.stream, old(rng.drawn), 4).0 &&
                rng.drawn == GhostsAfter(old(graph.table), old(ghosts[..]), rng.stream, old(rng.drawn), 4).1
      ensures old(ghostTimer) + old(ghostRate) * (dt * DistPaths as real) <= DistPaths as real ==>
                ghosts[..] == old(ghosts[..]) && rng.drawn == old(rng.drawn)
      ensures pacmanTimer == Accumulate(old(pacmanTimer), dt * DistPaths as real)
      ensures old(pacmanTimer) + dt * DistPaths as real > DistPaths as real ==>
                man == PacmanAfter(old(graph.table), old(man), old(pacmanNewX), old(pacmanNewY)) &&
                pacmanNewX == 0 && pacmanNewY == 0 &&
                ghostRate == RateAfter(old(graph.table), Adopted(Advanced(old(graph.table), old(man)), old(pacmanNewX), old(pacmanNewY)), old(ghostRate)) &&
                graph.table == old(graph.table)[man.cur := Eaten(old(graph.table)[man.cur])] &&
                score == old(score) + Points(old(graph.table)[man.cur])
      ensures old(pacmanTimer) + dt * DistPaths as real > DistPaths as real ==>
                var lostBefore := AnyCollision(old(graph.table), old(man), ghosts[..]);
                var lostAfter := AnyCollision(graph.table, man, ghosts[..]);
                var won := graph.numDots < 1;
                (if lostAfter then gameWin == -1
                 else if won then gameWin == 1
                 else if lostBefore then gameWin == -1
                 else gameWin == old(gameWin)) &&
                (lostBefore || won || lostAfter ==> gameStart == 0 && projection == 1) &&
                (!(lostBefore || won || lostAfter) ==> gameStart == old(gameStart) && projection == old(projection))
      ensures old(pacmanTimer) + dt * DistPaths as real <= DistPaths as real ==>
                man == old(man) && graph.table == old(graph.table) && score == old(score) &&
                graph.numDots == old(graph.numDots) && gameWin == old(gameWin) && gameStart == old(gameStart) &&
                projection == old(projection) && ghostRate == old(ghostRate) &&
                pacmanNewX == old(pacmanNewX) && pacmanNewY == old(pacmanNewY)
    {
      var step := dt * DistPaths as real;
      GhostTick(ghostRate * step);
      PacmanTick(step);
    }

    /**
     * The part of GameDrawScene that holds the game on the menu: while
     * gameStart < 1 both accumulators restart at zero on every drawn frame,
     * so the next UpdateFrame moves Pac-Man only when dt * DistPaths alone
     * passes DistPaths, and the ghosts only when ghostRate times it does.
     */
    method HoldOnMenu()
      modifies this`pacmanTimer, this`ghostTimer
      ensures gameStart < 1 ==> pacmanTimer == 0.0 && ghostTimer == 0.0
      ensures gameStart >= 1 ==> pacmanTimer == old(pacmanTimer) && ghostTimer == old(ghostTimer)
    {
      if gameStart < 1 {
        pacmanTimer := 0.0;
        ghostTimer := 0.0;
      }
    }

    /**
     * The one assignment of setFirstPersonProjection: in the first-person
     * view, while Pac-Man stands still, the camera angle returns to 0, so
     * the next arrow key turns relative to straight ahead.
     */
    method FaceForward()
      requires Valid()
      modifies this`projectionAngle
      ensures Valid()
      ensures projection == 0 && man.xMov == 0 && man.yMov == 0 ==> projectionAngle == 0
      ensures !(projection == 0 && man.xMov == 0 && man.yMov == 0) ==> projectionAngle == old(projectionAngle)
    {
      if projection == 0 && man.xMov == 0 && man.yMov == 0 {
        projectionAngle := 0;
      }
    }

    /** The ghosts' half of UpdateFrame: add inc to their accumulator; past DistPaths, restart it and updateGhosts. */
    method GhostTick(inc: real)
      requires Valid()
      modifies this`ghostTimer, ghosts, rng
      ensures Valid()
      ensures ghostTimer == Accumulate(old(ghostTimer), inc)
      ensures old(ghostTimer) + inc > DistPaths as real ==>
                ghosts[..] == GhostsAfter(graph.table, old(ghosts[..]), rng.stream, old(rng.drawn), 4).0 &&
                rng.drawn == GhostsAfter(graph.table, old(ghosts[..]), rng.stream, old(rng.drawn), 4).1
      ensures old(ghostTimer) + inc <= DistPaths as real ==> ghosts[..] == old(ghosts[..]) && rng.drawn == old(rng.drawn)
    {
      ghostTimer := ghostTimer + inc;
      if ghostTimer > DistPaths as real {
        ghostTimer := 0.0;
        UpdateGhosts();
      }
    }

    /** Pac-Man's half of UpdateFrame: add inc to his accumulator; past DistPaths, restart it and refreshPacman. */
    method PacmanTick(inc: real)
      requires Valid()
      modifies this`pacmanTimer
      modifies this`man, this`pacmanNewX, this`pacmanNewY, this`ghostRate, this`score
      modifies this`gameStart, this`projection, this`gameWin, graph`numDots, graph`table, graph.nodes
      ensures Valid()
      ensures pacmanTimer == Accumulate(old(pacmanTimer), inc)
      ensures old(pacmanTimer) + inc > DistPaths as real ==>
                man == PacmanAfter(old(graph.table), old(man), old(pacmanNewX), old(pacmanNewY)) &&
                pacmanNewX == 0 && pacmanNewY == 0 &&
                ghostRate == RateAfter(old(graph.table), Adopted(Advanced(old(graph.table), old(man)), old(pacmanNewX), old(pacmanNewY)), old(ghostRate)) &&
                graph.table == old(graph.table)[man.cur := Eaten(old(graph.table)[man.cur])] &&
                score == old(score) + Points(old(graph.table)[man.cur])
      ensures old(pacmanTimer) + inc > DistPaths as real ==>
                var lostBefore := AnyCollision(old(graph.table), old(man), ghosts[..]);
                var lostAfter := AnyCollision(graph.table, man, ghosts[..]);
                var won := graph.numDots < 1;
                (if lostAfter then gameWin == -1
                 else if won then gameWin == 1
                 else if lostBefore then gameWin == -1
                 else gameWin == old(gameWin)) &&
                (lostBefore || won || lostAfter ==> gameStart == 0 && projection == 1) &&
                (!(lostBefore || won || lostAfter) ==> gameStart == old(gameStart) && projection == old(projection))
      ensures old(pacmanTimer) + inc <= DistPaths as real ==>
                man == old(man) && graph.table == old(graph.table) && score == old(score) &&
                graph.numDots == old(graph.numDots) && gameWin == old(gameWin) && gameStart == old(gameStart) &&
                projection == old(projection) && ghostRate == old(ghostRate) &&
                pacmanNewX == old(pacmanNewX) && pacmanNewY == old(pacmanNewY)
    {
      pacmanTimer := pacmanTimer + inc;
      if pacmanTimer > DistPaths as real {
        pacmanTimer := 0.0;
        RefreshPacman();
      }
    }
  }
}
