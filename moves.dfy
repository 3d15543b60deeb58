/**
 * Headings of Pac-Man and the ghosts. A heading is the pair (xMov, yMov)
 * of the source: +x follows the right link, -x the left link, +y the up
 * link and -y the down link. The arrow keys turn Pac-Man relative to the
 * camera angle, which the source keeps in degrees.
 */
module Moves {
  import opened Wrappers
  import opened Maze

  /** The link a heading follows, checked in the order of updateGhosts: xMov first, then yMov. */
  function HeadingDir(xMov: int, yMov: int): (d: Option<Dir>)
  {
    if xMov > 0 then Some(Right)
    else if xMov < 0 then Some(Left)
    else if yMov > 0 then Some(Up)
    else if yMov < 0 then Some(Down)
    else None
  }

  /** The unit heading that follows link d. */
  function Heading(d: Dir): (int, int)
  {
    match d
    case Left => (-1, 0)
    case Right => (1, 0)
    case Up => (0, 1)
    case Down => (0, -1)
  }

  /**
   * Pac-Man's tests run right, left, down, up instead of right, left, up,
   * down; both orders pick the same link, and a heading picks none exactly
   * when it is (0, 0).
   */
  lemma HeadingOrder(xMov: int, yMov: int)
    ensures HeadingDir(xMov, yMov).None? <==> xMov == 0 && yMov == 0
    ensures HeadingDir(xMov, yMov) ==
              if xMov > 0 then Some(Right)
              else if xMov < 0 then Some(Left)
              else if yMov < 0 then Some(Down)
              else if yMov > 0 then Some(Up)
              else None
  {
  }

  /** A unit heading follows its own link, and one heading per link. */
  lemma HeadingRoundTrip(d: Dir, e: Dir)
    ensures HeadingDir(Heading(d).0, Heading(d).1) == Some(d)
    ensures Heading(d) == Heading(e) ==> d == e
  {
  }

  /**
   * randomize's new heading from the coordinate differences to the picked
   * node: the first of +x, -x, +z, -z that the difference shows.
   */
  function Toward(xdiff: int, zdiff: int): (int, int)
  {
    if xdiff > 0 then (1, 0)
    else if xdiff < 0 then (-1, 0)
    else if zdiff > 0 then (0, 1)
    else if zdiff < 0 then (0, -1)
    else (0, 0)
  }

  /**
   * For a node one step away in direction d, with both nodes at their laid
   * out coordinates, randomize heads exactly along d.
   */
  lemma TowardStep(q: Pos, d: Dir)
    ensures var m := Step(q, d);
            Toward(NodeCoord(m.0) - NodeCoord(q.0), NodeCoord(m.1) - NodeCoord(q.1)) == Heading(d)
  {
  }

  /** C's `%`, which truncates toward zero: the remainder takes the sign of a. */
  function CRem(a: int, b: int): (r: int)
    requires b > 0
  {
    if a >= 0 then a % b else -((-a) % b)
  }

  /**
   * The C remainder by 360, the only modulus the game uses, lies strictly
   * between -360 and 360, has the sign of a, and agrees with the Euclidean
   * remainder modulo 360.
   */
  lemma CRemRange(a: int)
    ensures -360 < CRem(a, 360) < 360
    ensures a >= 0 ==> CRem(a, 360) >= 0
    ensures a <= 0 ==> CRem(a, 360) <= 0
    ensures CRem(a, 360) % 360 == a % 360
  {
    if a < 0 {
      var r := (-a) % 360;
      var k := (-a) / 360;
      assert -a == k * 360 + r;
      assert a == -r + (-k) * 360;
    }
  }

  /** The arrow keys of GameSpecialKeyAction; any other special key leaves the angle as it is. */
  datatype Key = KeyUp | KeyDown | KeyRight | KeyLeft | OtherKey

  /** The camera angle after a special key, in degrees, with C's `%`. */
  function TurnAngle(angle: int, key: Key): int
  {
    match key
    case KeyUp => CRem(angle, 360)
    case KeyDown => CRem(angle + 180, 360)
    case KeyRight => CRem(angle - 90, 360)
    case KeyLeft => CRem(angle + 90, 360)
    case OtherKey => angle
  }

  /** The camera angle the game can reach: a multiple of 90 degrees strictly inside (-360, 360). */
  predicate RightAngle(angle: int)
  {
    -360 < angle < 360 && angle % 90 == 0
  }

  /**
   * (sin, cos) of a right angle, truncated to int as the assignment to
   * pacmanNewX and pacmanNewY truncates: the double results for 90 and 270
   * degrees are exact, and those for 180 and 360 lie within 1e-15 of zero.
   */
  function AngleHeading(angle: int): (int, int)
  {
    var a := angle % 360;
    if a == 0 then (0, 1)
    else if a == 90 then (1, 0)
    else if a == 180 then (0, -1)
    else if a == 270 then (-1, 0)
    else (0, 0)
  }

  /** The heading an arrow key turns h into: up keeps it, down reverses it, left and right turn it a quarter. */
  function Rotate(h: (int, int), key: Key): (int, int)
  {
    match key
    case KeyUp => h
    case KeyDown => (-h.0, -h.1)
    case KeyRight => (-h.1, h.0)
    case KeyLeft => (h.1, -h.0)
    case OtherKey => h
  }

  /** The seven right angles. */
  lemma RightAngles(angle: int)
    requires RightAngle(angle)
    ensures angle in [-270, -180, -90, 0, 90, 180, 270]
  {
    var k := angle / 90;
    assert angle == 90 * k;
    assert -4 < k < 4;
  }

  /**
   * Turning keeps the angle a right angle, the new pending input is a unit
   * heading, and it is the old one turned as the key says.
   */
  lemma TurnHeading(angle: int, key: Key)
    requires RightAngle(angle)
    ensures RightAngle(TurnAngle(angle, key))
    ensures AngleHeading(TurnAngle(angle, key)) == Rotate(AngleHeading(angle), key)
    ensures AngleHeading(TurnAngle(angle, key)) in [Heading(Up), Heading(Right), Heading(Down), Heading(Left)]
  {
    RightAngles(angle);
    if angle == -270 {
    } else if angle == -180 {
    } else if angle == -90 {
    } else if angle == 0 {
    } else if angle == 90 {
    } else if angle == 180 {
    } else {
    }
  }
}
