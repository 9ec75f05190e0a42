/** Axis-aligned integer rectangles, the positions of every sprite in the game. */
module Geometry {

  /** A screen rectangle: top-left corner (x, y), width w and height h; y grows downwards. */
  datatype Rect = Rect(x: int, y: int, w: int, h: int) {

    function Bottom(): int { y + h }

    function Right(): int { x + w }

    /** The x coordinate of the midpoint of the bottom edge (integer halving of the width). */
    function CenterX(): int { x + w / 2 }

    /** Both sides strictly positive: the rectangle of a loaded, non-empty image. */
    predicate NonEmpty() { w > 0 && h > 0 }

    /** The same rectangle moved vertically so that its bottom edge lies at `b`. */
    function WithBottom(b: int): (r: Rect)
      ensures r.Bottom() == b && r.x == x && r.w == w && r.h == h
    {
      this.(y := b - h)
    }
  }

  /** The rectangle of size w x h whose bottom-edge midpoint is (cx, bottom). */
  function AtMidbottom(cx: int, bottom: int, w: int, h: int): (r: Rect)
    requires w >= 0 && h >= 0
    ensures r.w == w && r.h == h
    ensures r.CenterX() == cx && r.Bottom() == bottom
    ensures r.x <= cx <= r.Right()
  {
    Rect(cx - w / 2, bottom - h, w, h)
  }

  /** Strict overlap of two rectangles: they share interior points, touching edges do not count. */
  predicate Overlaps(a: Rect, b: Rect) {
    a.x < b.Right() && b.x < a.Right() && a.y < b.Bottom() && b.y < a.Bottom()
  }
}
