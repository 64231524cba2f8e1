/** Rectangles, the expanded viewport and the intersection test (blazy.js
    `elementInView`, `saveViewportOffset`). Coordinates are whole pixels. */
module Geometry {

  /** A bounding box as `getBoundingClientRect` reports it, or the viewport. */
  datatype Rect = Rect(top: int, left: int, bottom: int, right: int)

  /** The host's window readings used by `saveViewportOffset`; 0 stands for
      an absent or zero `innerHeight`/`innerWidth`, which JavaScript's `||`
      treats alike. */
  datatype Dimensions = Dimensions(innerHeight: int, innerWidth: int, clientHeight: int, clientWidth: int)

  /** `inner || client`: the window's inner size unless it is falsy. */
  function Extent(inner: int, client: int): int {
    if inner != 0 then inner else client
  }

  /** The viewport grown by `offset` on every side: top and left as set once
      by the constructor, bottom and right as every `saveViewportOffset` sets them. */
  function Expanded(offset: int, dims: Dimensions): Rect {
    Rect(0 - offset, 0 - offset,
         Extent(dims.innerHeight, dims.clientHeight) + offset,
         Extent(dims.innerWidth, dims.clientWidth) + offset)
  }

  /** `elementInView`: the box reaches the viewport on all four sides, with
      touching edges counting as overlap. */
  predicate InView(r: Rect, vp: Rect) {
    r.right >= vp.left && r.bottom >= vp.top && r.left <= vp.right && r.top <= vp.bottom
  }

  /** A box whose edges are in order. */
  predicate WellFormed(r: Rect) {
    r.top <= r.bottom && r.left <= r.right
  }

  /** The point `(x, y)` lies in the closed rectangle `r`. */
  predicate Covers(r: Rect, x: int, y: int) {
    r.left <= x <= r.right && r.top <= y <= r.bottom
  }

  /** Against the expanded viewport, the test reads as four bounds on the box
      in terms of the offset and the window size. */
  lemma InViewOfExpanded(r: Rect, offset: int, dims: Dimensions)
    ensures InView(r, Expanded(offset, dims)) <==>
              r.right >= -offset && r.bottom >= -offset &&
              r.left <= Extent(dims.innerWidth, dims.clientWidth) + offset &&
              r.top <= Extent(dims.innerHeight, dims.clientHeight) + offset
  {
  }

  /** For well-formed rectangles the test is exactly "the two closed
      rectangles share a point", so it is symmetric in box and viewport. */
  lemma InViewIffSharedPoint(r: Rect, vp: Rect)
    requires WellFormed(r) && WellFormed(vp)
    ensures InView(r, vp) <==> exists x, y :: Covers(r, x, y) && Covers(vp, x, y)
  {
    if InView(r, vp) {
      var x := if r.left < vp.left then vp.left else r.left;
      var y := if r.top < vp.top then vp.top else r.top;
      assert Covers(r, x, y) && Covers(vp, x, y);
    }
  }
}
