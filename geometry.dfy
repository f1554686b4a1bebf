/**
 * The two rectangles of the crop: the content box in raster coordinates
 * (origin top-left, rows growing downward) and the page rectangle in page
 * space (origin bottom-left, y growing upward), and the translation between
 * them.
 */
module Geometry {

  function Max(a: int, b: int): int { if a >= b then a else b }
  function Min(a: int, b: int): int { if a <= b then a else b }

  /** The cursors `top`, `left`, `bottom`, `right` of `autoCropByContent`: inclusive row and column indices. */
  datatype Box = Box(top: int, left: int, bottom: int, right: int)

  /** An `NSRect` whose coordinates are whole page units. */
  datatype Rect = Rect(x: int, y: int, width: int, height: int)

  /** The box is ordered and lies inside a raster of `width` columns and `height` rows. */
  predicate InBounds(box: Box, width: int, height: int)
  {
    && 0 <= box.top <= box.bottom < height
    && 0 <= box.left <= box.right < width
  }

  /** `outer` covers every row and column of `inner`. */
  predicate Encloses(outer: Box, inner: Box)
  {
    outer.top <= inner.top && outer.left <= inner.left &&
    inner.bottom <= outer.bottom && inner.right <= outer.right
  }

  /**
   * The page rectangle `autoCropByContent` hands to `setBounds`: the left edge is
   * column `left`, the right edge column `right`, and the vertical extent is the
   * rows `top` to `bottom` flipped into page space, anchored at `bottom`.
   */
  function ToPageRect(box: Box, height: int): (r: Rect)
    ensures r.x == box.left && r.x + r.width == box.right
    ensures r.y == height - box.bottom && r.y + r.height == height - box.top
    ensures forall width :: InBounds(box, width, height) ==>
      0 <= r.x && r.x + r.width < width && 1 <= r.y && r.y + r.height <= height &&
      r.width >= 0 && r.height >= 0
  {
    Rect(box.left, height - box.bottom, box.right - box.left, box.bottom - box.top)
  }

  /**
   * Raster pixel (x, y) occupies the unit square [x, x+1] x [height-1-y, height-y]
   * of page space; this says that square lies inside `r`.
   */
  predicate CellInside(r: Rect, x: int, y: int, height: int)
  {
    r.x <= x && x + 1 <= r.x + r.width &&
    r.y <= height - 1 - y && height - y <= r.y + r.height
  }

  /**
   * The rectangle `autoCropByContent` computes keeps exactly the pixels in rows `top` to
   * `bottom - 1` and columns `left` to `right - 1`: the last row and the last
   * column of the content box fall outside it.
   */
  lemma ToPageRectKeeps(box: Box, height: int, x: int, y: int)
    ensures CellInside(ToPageRect(box, height), x, y, height) <==>
      box.left <= x < box.right && box.top <= y < box.bottom
  {
  }

  /** The box's bottom-right pixel is never inside the rectangle `autoCropByContent` computes. */
  lemma ToPageRectDropsCorner(box: Box, height: int)
    ensures !CellInside(ToPageRect(box, height), box.right, box.bottom, height)
  {
  }

  /**
   * The translation that covers every pixel of the box: one unit wider and
   * taller than `ToPageRect`'s, and anchored one unit lower.
   */
  function ToPageRectCovering(box: Box, height: int): (r: Rect)
    ensures forall width :: InBounds(box, width, height) ==>
      0 <= r.x && r.x + r.width <= width && 0 <= r.y && r.y + r.height <= height &&
      r.width >= 1 && r.height >= 1
  {
    Rect(box.left, height - 1 - box.bottom, box.right - box.left + 1, box.bottom - box.top + 1)
  }

  /** The covering rectangle holds a pixel exactly when the box does. */
  lemma ToPageRectCoveringKeeps(box: Box, height: int, x: int, y: int)
    ensures CellInside(ToPageRectCovering(box, height), x, y, height) <==>
      box.left <= x <= box.right && box.top <= y <= box.bottom
  {
  }

  /** A content box at rows 2..97 and columns 3..193 of a 100-row raster. */
  lemma ToPageRectExample()
    ensures ToPageRect(Box(2, 3, 97, 193), 100) == Rect(3, 3, 190, 95)
  {
  }
}
