/**
 * Margin padding: the detected box is pushed outward by the configured
 * margins, side by side, and clamped to the raster.
 */
module Margins {
  import opened Wrappers
  import opened Geometry

  /** `CropMargins`: extra padding per side, in pixels. */
  datatype CropMargins = CropMargins(top: int, left: int, bottom: int, right: int)
  {
    /** The sides in the order the command line lists them: top, left, bottom, right. */
    function Side(i: int): int
      requires 0 <= i < 4
    {
      if i == 0 then top else if i == 1 then left else if i == 2 then bottom else right
    }
  }

  /** `CropMargins.zero`. */
  const Zero := CropMargins(0, 0, 0, 0)

  /** A low side (top or left) after padding by `m`: moved toward 0 by `m` if `m` is positive, never below 0. */
  function PadLow(v: int, m: int): int
  {
    if m > 0 then Max(0, v - m) else v
  }

  /** A high side (bottom or right) after padding by `m`: moved away from 0 if `m` is positive, never past `limit - 1`. */
  function PadHigh(v: int, m: int, limit: int): int
  {
    if m > 0 then Min(limit - 1, v + m) else v
  }

  /**
   * The padded box. It encloses the detected box, stays inside the raster, and
   * a side whose margin is not positive keeps its detected value.
   */
  function PadBox(box: Box, margins: CropMargins, width: int, height: int): (r: Box)
    ensures InBounds(box, width, height) ==> InBounds(r, width, height) && Encloses(r, box)
    ensures margins.top <= 0 ==> r.top == box.top
    ensures margins.left <= 0 ==> r.left == box.left
    ensures margins.bottom <= 0 ==> r.bottom == box.bottom
    ensures margins.right <= 0 ==> r.right == box.right
  {
    Box(PadLow(box.top, margins.top), PadLow(box.left, margins.left),
        PadHigh(box.bottom, margins.bottom, height), PadHigh(box.right, margins.right, width))
  }

  /**
   * PDFCropper-CLI/main.swift:124-135: each side is reassigned only when its margin is positive,
   * with the bound tests the source writes.
   */
  method ApplyMargins(box: Box, margins: CropMargins, width: int, height: int) returns (padded: Box)
    ensures padded == PadBox(box, margins, width, height)
  {
    var top, left, bottom, right := box.top, box.left, box.bottom, box.right;
    if margins.top > 0 {
      top := if top - margins.top >= 0 then top - margins.top else 0;
    }
    if margins.left > 0 {
      left := if left - margins.left >= 0 then left - margins.left else 0;
    }
    if margins.bottom > 0 {
      bottom := if bottom + margins.bottom >= height then height - 1 else bottom + margins.bottom;
    }
    if margins.right > 0 {
      right := if right + margins.right >= width then width - 1 else right + margins.right;
    }
    padded := Box(top, left, bottom, right);
  }

  /**
   * Padding is the detected box grown by the positive margins and then cut
   * back to the raster: an independent description of `PadBox`.
   */
  lemma PadBoxIsClippedGrowth(box: Box, margins: CropMargins, width: int, height: int)
    requires InBounds(box, width, height)
    ensures PadBox(box, margins, width, height) ==
      Clip(Grow(box, Positive(margins)), width, height)
  {
  }

  function Positive(m: CropMargins): CropMargins
  {
    CropMargins(Max(0, m.top), Max(0, m.left), Max(0, m.bottom), Max(0, m.right))
  }

  function Grow(box: Box, m: CropMargins): Box
  {
    Box(box.top - m.top, box.left - m.left, box.bottom + m.bottom, box.right + m.right)
  }

  function Clip(box: Box, width: int, height: int): Box
  {
    Box(Max(0, box.top), Max(0, box.left), Min(height - 1, box.bottom), Min(width - 1, box.right))
  }

  /** Larger margins never give a smaller padded box. */
  lemma PadBoxMonotone(box: Box, small: CropMargins, large: CropMargins, width: int, height: int)
    requires InBounds(box, width, height)
    requires small.top <= large.top && small.left <= large.left
    requires small.bottom <= large.bottom && small.right <= large.right
    ensures Encloses(PadBox(box, large, width, height), PadBox(box, small, width, height))
  {
  }

  /** Zero margins leave the detected box as it is. */
  lemma PadBoxZero(box: Box, width: int, height: int)
    ensures PadBox(box, Zero, width, height) == box
  {
  }

  // Swift's `Int` is 64 bits wide and traps on overflow.

  const IntMax := 0x7FFF_FFFF_FFFF_FFFF
  const IntMin := -0x8000_0000_0000_0000

  predicate IsInt(v: int) { IntMin <= v <= IntMax }

  /** Swift `a + b` on `Int`: `None` is the overflow trap. */
  function Add(a: int, b: int): Option<int>
  {
    if IsInt(a + b) then Some(a + b) else None
  }

  /** Swift `a - b` on `Int`: `None` is the overflow trap. */
  function Sub(a: int, b: int): Option<int>
  {
    if IsInt(a - b) then Some(a - b) else None
  }

  /**
   * The bottom-side clamp (and the right-side clamp, which has the same shape)
   * in 64-bit arithmetic: `bottom + margins.bottom` is computed before it is
   * compared with the limit. `None` is the overflow trap; otherwise the result
   * is the clamped side.
   */
  function PadHighAsWritten(v: int, m: int, limit: int): (r: Option<int>)
    ensures IsInt(limit - 1) ==> (r.None? <==> m > 0 && !IsInt(v + m))
    ensures r.Some? ==> r.value == PadHigh(v, m, limit)
  {
    if m > 0 then
      match Add(v, m)
      case None => None
      case Some(sum) => if sum >= limit then Sub(limit, 1) else Some(sum)
    else Some(v)
  }

  /** A margin of `Int.max` traps whenever the detected side is below row (or right of column) 0. */
  lemma PadHighAsWrittenTraps(v: int, limit: int)
    requires 1 <= v
    ensures PadHighAsWritten(v, IntMax, limit) == None
  {
  }

  /**
   * The same side compared against the room left (`m >= limit - v`), which
   * cannot overflow: for every 64-bit margin and in-range side it never traps
   * and gives the clamped value.
   */
  function PadHighChecked(v: int, m: int, limit: int): (r: Option<int>)
    ensures IsInt(m) && 0 <= v < limit <= IntMax ==> r == Some(PadHigh(v, m, limit))
  {
    if m > 0 then
      match Sub(limit, v)
      case None => None
      case Some(room) => if m >= room then Sub(limit, 1) else Add(v, m)
    else Some(v)
  }
}
