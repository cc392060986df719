/** The axis-aligned rectangle of the graphics library (`x`, `y` are the
    top-left corner, `w`, `h` the size) and the `RectExt::inflate` extension. */
module Geometry {
  import opened Basics

  datatype Rect = Rect(x: real, y: real, w: real, h: real)
  {
    function Center(): Vec2
    {
      Vec2(x + w / 2.0, y + h / 2.0)
    }

    function Right(): real { x + w }

    function Bottom(): real { y + h }
  }

  /** `outer` reaches at least as far as `inner` in every direction. */
  predicate Encloses(outer: Rect, inner: Rect)
  {
    && outer.x <= inner.x
    && inner.Right() <= outer.Right()
    && outer.y <= inner.y
    && inner.Bottom() <= outer.Bottom()
  }

  /** `RectExt::inflate`: grow by `amount` on every side. */
  function Inflate(r: Rect, amount: real): (q: Rect)
    ensures q.Center() == r.Center()
    ensures q.w - r.w == q.h - r.h == 2.0 * amount
    ensures r.x - q.x == r.y - q.y == amount
    ensures amount >= 0.0 ==> Encloses(q, r)
  {
    Rect(r.x - amount, r.y - amount, r.w + amount * 2.0, r.h + amount * 2.0)
  }

  /** Inflating twice is inflating once by the sum. */
  lemma InflateCompose(r: Rect, a: real, b: real)
    ensures Inflate(Inflate(r, a), b) == Inflate(r, a + b)
  {
  }

  /** Inflating by zero changes nothing. */
  lemma InflateZero(r: Rect)
    ensures Inflate(r, 0.0) == r
  {
  }
}
