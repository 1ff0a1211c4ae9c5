/**
 * Integer grid vectors and the four cardinal directions shared by the player and the ghosts.
 * Both ports (the browser one and the console one) use the same helpers; where they differ
 * (how a direction is scaled by the level multiplier) the difference lives in module Rules.
 */
module Vectors {

  datatype Vec = Vec(x: int, y: int)

  function Add(a: Vec, b: Vec): Vec {
    Vec(a.x + b.x, a.y + b.y)
  }

  function Sub(a: Vec, b: Vec): Vec {
    Vec(a.x - b.x, a.y - b.y)
  }

  /** Scaling by a whole number; exact in both ports. */
  function Scale(a: Vec, k: int): Vec {
    Vec(a.x * k, a.y * k)
  }

  /** Scaling by the rational num/den followed by Math.floor on each component. */
  function ScaleFloor(a: Vec, num: int, den: int): (r: Vec)
    requires den > 0
    ensures r.x * den <= a.x * num < r.x * den + den
    ensures r.y * den <= a.y * num < r.y * den + den
  {
    Vec((a.x * num) / den, (a.y * num) / den)
  }

  /** Squared Euclidean distance. */
  function Dist2(a: Vec, b: Vec): (r: int)
    ensures r >= 0
    ensures r == 0 <==> a == b
  {
    var dx := a.x - b.x;
    var dy := a.y - b.y;
    SquareZero(dx);
    SquareZero(dy);
    dx * dx + dy * dy
  }

  lemma SquareZero(d: int)
    ensures d * d >= 0
    ensures d * d == 0 <==> d == 0
  {
    if d != 0 {
      if d > 0 {
        assert d * d >= d;
      } else {
        assert d * d == (-d) * (-d);
        assert (-d) * (-d) >= -d;
      }
    }
  }

  /** reverseDir: multiplication by -1. */
  function Reverse(d: Vec): Vec {
    Scale(d, -1)
  }

  /**
   * The one-step wrap-around "clamp": a coordinate below the minimum becomes the maximum and
   * one above the maximum becomes the minimum, which is how an entity leaving one edge of the
   * field reappears at the opposite edge.
   */
  function Clamp(a: Vec, minX: int, maxX: int, minY: int, maxY: int): (r: Vec)
    ensures minX <= maxX ==> minX <= r.x <= maxX
    ensures minY <= maxY ==> minY <= r.y <= maxY
    ensures minX <= a.x <= maxX ==> r.x == a.x
    ensures minY <= a.y <= maxY ==> r.y == a.y
    ensures a.x < minX ==> r.x == maxX
    ensures a.x > maxX && minX <= maxX ==> r.x == minX
    ensures a.y < minY ==> r.y == maxY
    ensures a.y > maxY && minY <= maxY ==> r.y == minY
  {
    Vec(if a.x < minX then maxX else if a.x > maxX then minX else a.x,
        if a.y < minY then maxY else if a.y > maxY then minY else a.y)
  }

  lemma ReverseInvolutive(d: Vec)
    ensures Reverse(Reverse(d)) == d
  {
  }

  /** Stepping along a direction and then along its reverse returns to the start. */
  lemma StepBack(p: Vec, d: Vec)
    ensures Add(Add(p, d), Reverse(d)) == p
  {
  }

  lemma AddSubInverse(a: Vec, b: Vec)
    ensures Add(Sub(a, b), b) == a
    ensures Sub(Add(a, b), b) == a
  {
  }

  /** The five directions; the source lists them as Up, Down, Left, Right, None. */
  datatype Dir = Up | Down | Left | Right | Still

  function DirVec(d: Dir): (v: Vec)
    ensures d == Still <==> v == Vec(0, 0)
    ensures d != Still ==> Dist2(v, Vec(0, 0)) == 1
  {
    match d
    case Up => Vec(0, -1)
    case Down => Vec(0, 1)
    case Left => Vec(-1, 0)
    case Right => Vec(1, 0)
    case Still => Vec(0, 0)
  }

  /** Distinct directions have distinct vectors. */
  lemma DirVecInjective(a: Dir, b: Dir)
    ensures DirVec(a) == DirVec(b) <==> a == b
  {
  }

  /** The order in which the ghosts probe the directions (None is skipped). */
  const ProbeOrder: seq<Dir> := [Up, Down, Left, Right]

  /** Reversing a cardinal direction yields the opposite cardinal direction. */
  lemma ReverseDirVec(d: Dir)
    ensures Reverse(DirVec(d)) == DirVec(match d
                                         case Up => Down
                                         case Down => Up
                                         case Left => Right
                                         case Right => Left
                                         case Still => Still)
  {
  }
}
