/** The swipe decision: how the horizontal offset at release is classified
    against the threshold, and where a decided swipe sends the card. */
module Swipe {

  /** A screen width: the viewport is never empty. */
  type Width = w: real | w > 0.0 witness 1.0

  /** A 2-D offset of the active card from its rest position. */
  datatype Point = Point(x: real, y: real)

  const Origin := Point(0.0, 0.0)

  /** Duration, in milliseconds, of the forced exit transition. */
  const SwipeOutDuration: nat := 250

  datatype Direction = Left | Right

  /** What a release decides: a swipe in one direction, or a snap back to rest. */
  datatype Outcome = Swipe(dir: Direction) | SnapBack

  /** A quarter of the screen width. */
  function Threshold(width: Width): (t: real)
    ensures 0.0 < t < width
    ensures 4.0 * t == width
  {
    0.25 * width
  }

  /** Decision taken on pan release from the final drag (dx, dy). */
  function Classify(width: Width, dx: real, dy: real): (r: Outcome)
    ensures r == Swipe(Right) <==> 4.0 * dx > width
    ensures r == Swipe(Left) <==> 4.0 * dx < -(width as real)
    ensures r == SnapBack <==> -(width as real) <= 4.0 * dx <= width
  {
    if dx > Threshold(width) then Swipe(Right)
    else if dx < -Threshold(width) then Swipe(Left)
    else SnapBack
  }

  /** The vertical drag never takes part in the decision. */
  lemma ClassifyIgnoresDy(width: Width, dx: real, dy1: real, dy2: real)
    ensures Classify(width, dx, dy1) == Classify(width, dx, dy2)
  {
  }

  /** Mirroring the drag mirrors the decision. */
  lemma ClassifyMirror(width: Width, dx: real, dy: real)
    ensures Classify(width, -dx, dy) == Mirror(Classify(width, dx, dy))
  {
  }

  function Opposite(d: Direction): (e: Direction)
    ensures e != d
  {
    match d
    case Left => Right
    case Right => Left
  }

  function Mirror(o: Outcome): (m: Outcome)
    ensures m.SnapBack? <==> o.SnapBack?
    ensures m.Swipe? ==> m.dir == Opposite(o.dir)
  {
    match o
    case Swipe(d) => Swipe(Opposite(d))
    case SnapBack => SnapBack
  }

  /** The point a forced exit in direction `dir` animates the card to. */
  function ExitTarget(width: Width, dir: Direction): (p: Point)
    ensures p.y == 0.0
    ensures dir == Right ==> p.x == width
    ensures dir == Left ==> p.x == -(width as real)
  {
    Point(if dir == Right then width else -(width as real), 0.0)
  }

  /** A released card that swipes leaves the screen on the side it was
      dragged to, a full screen width away from rest. */
  lemma ExitFollowsDrag(width: Width, dx: real, dy: real)
    requires Classify(width, dx, dy).Swipe?
    ensures var p := ExitTarget(width, Classify(width, dx, dy).dir);
            p.y == 0.0 && (p.x > 0.0 <==> dx > 0.0) && (p.x < 0.0 <==> dx < 0.0)
            && (p.x == width || p.x == -(width as real))
  {
  }
}
