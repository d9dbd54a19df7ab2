/**
 * Integer plane geometry as the retriever uses it: `java.awt.Rectangle`,
 * `Math.max` / `Math.min` and Java's truncating integer division.
 * Coordinates are unbounded integers; 32-bit wrap-around is not modelled.
 */
module Geometry {

  /** A `java.awt.Rectangle`: top-left corner plus (possibly negative) extents. */
  datatype Rect = Rect(x: int, y: int, width: int, height: int)
  {
    /** Abscissa of the right side, `x + width`. */
    function Right(): int { x + width }

    /** Ordinate of the bottom side, `y + height`. */
    function Bottom(): int { y + height }
  }

  /** `Math.max` on ints. */
  function Max(a: int, b: int): (m: int)
    ensures m >= a && m >= b
    ensures m == a || m == b
  {
    if a >= b then a else b
  }

  /** `Math.min` on ints. */
  function Min(a: int, b: int): (m: int)
    ensures m <= a && m <= b
    ensures m == a || m == b
  {
    if a <= b then a else b
  }

  /**
   * Java's `n / 2`, which truncates toward zero (Dafny's `/` is Euclidean,
   * so the two differ on odd negative numbers).
   */
  function JavaHalf(n: int): (h: int)
    ensures 0 <= n ==> 0 <= n - 2 * h <= 1
    ensures n < 0 ==> -1 <= n - 2 * h <= 0
  {
    if n >= 0 then n / 2 else -((-n) / 2)
  }

  /**
   * `Rectangle.grow(h, v)`: each horizontal side moves outward by `h` and
   * each vertical side by `v` (inward when negative). The clamping Java
   * applies on 32-bit overflow is not modelled.
   */
  function Grow(r: Rect, h: int, v: int): (g: Rect)
    ensures g.x == r.x - h && g.Right() == r.Right() + h
    ensures g.y == r.y - v && g.Bottom() == r.Bottom() + v
  {
    Rect(r.x - h, r.y - v, r.width + 2 * h, r.height + 2 * v)
  }
}
