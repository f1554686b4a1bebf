/**
 * Content detection: the four scans of `autoCropByContent` that move the
 * cursors inward from the raster's edges past blank rows and columns.
 */
module Detector {
  import opened Geometry
  import opened Raster

  /**
   * What the four scans compute. The box is ordered and in range; everything
   * outside it is white; when the bitmap has ink each cursor stands on a line
   * that holds some, and when it has none every cursor is parked on the last
   * row or column, because the bottom and right scans are guarded by the
   * already advanced top and left cursors.
   */
  ghost predicate IsContentBox(bmp: Bitmap, box: Box)
    requires bmp.Valid()
  {
    && InBounds(box, bmp.width, bmp.height)
    && (forall r :: 0 <= r < box.top ==> RowWhite(bmp, r))
    && (forall r :: box.bottom < r < bmp.height ==> RowWhite(bmp, r))
    && (forall c :: 0 <= c < box.left ==> ColumnWhite(bmp, c))
    && (forall c :: box.right < c < bmp.width ==> ColumnWhite(bmp, c))
    && (HasInk(bmp) ==>
          && !RowWhite(bmp, box.top) && !RowWhite(bmp, box.bottom)
          && !ColumnWhite(bmp, box.left) && !ColumnWhite(bmp, box.right))
    && (!HasInk(bmp) ==> box == Box(bmp.height - 1, bmp.width - 1, bmp.height - 1, bmp.width - 1))
  }

  /** The bitmap is at least one pixel in each direction, as the cursors' start values assume. */
  ghost predicate Scannable(bmp: Bitmap)
  {
    bmp.Valid() && 1 <= bmp.width && 1 <= bmp.height
  }

  /** PDFCropper-CLI/main.swift:87-122: the top, bottom, left and right scans, in that order. */
  method DetectContent(bmp: Bitmap) returns (box: Box)
    requires Scannable(bmp)
    ensures IsContentBox(bmp, box)
  {
    var top, left := 0, 0;
    var bottom, right := bmp.height - 1, bmp.width - 1;

    while top < bottom
      invariant 0 <= top <= bottom == bmp.height - 1
      invariant forall r :: 0 <= r < top ==> RowWhite(bmp, r)
    {
      var blank := CheckRow(bmp, top);
      if blank {
        top := top + 1;
      } else {
        break;
      }
    }
    TopScanStops(bmp, top);

    while top < bottom
      invariant top <= bottom <= bmp.height - 1
      invariant top == bmp.height - 1 ==> bottom == top
      invariant forall r :: bottom < r < bmp.height ==> RowWhite(bmp, r)
    {
      var blank := CheckRow(bmp, bottom);
      if blank {
        bottom := bottom - 1;
      } else {
        break;
      }
    }

    while left < right
      invariant 0 <= left <= right == bmp.width - 1
      invariant forall c :: 0 <= c < left ==> ColumnWhite(bmp, c)
    {
      var blank := CheckColumn(bmp, left);
      if blank {
        left := left + 1;
      } else {
        break;
      }
    }
    LeftScanStops(bmp, left);

    while left < right
      invariant left <= right <= bmp.width - 1
      invariant left == bmp.width - 1 ==> right == left
      invariant forall c :: right < c < bmp.width ==> ColumnWhite(bmp, c)
    {
      var blank := CheckColumn(bmp, right);
      if blank {
        right := right - 1;
      } else {
        break;
      }
    }

    box := Box(top, left, bottom, right);
  }

  /**
   * When the top scan ran into the last row, that row holds the ink if there
   * is any, since every row above it is white.
   */
  lemma TopScanStops(bmp: Bitmap, top: int)
    requires Scannable(bmp) && 0 <= top < bmp.height
    requires forall r :: 0 <= r < top ==> RowWhite(bmp, r)
    requires top == bmp.height - 1 || !RowWhite(bmp, top)
    ensures HasInk(bmp) ==> !RowWhite(bmp, top)
    ensures !HasInk(bmp) ==> top == bmp.height - 1
  {
    InkInSomeRow(bmp);
  }

  /** The column counterpart of `TopScanStops`. */
  lemma LeftScanStops(bmp: Bitmap, left: int)
    requires Scannable(bmp) && 0 <= left < bmp.width
    requires forall c :: 0 <= c < left ==> ColumnWhite(bmp, c)
    requires left == bmp.width - 1 || !ColumnWhite(bmp, left)
    ensures HasInk(bmp) ==> !ColumnWhite(bmp, left)
    ensures !HasInk(bmp) ==> left == bmp.width - 1
  {
    InkInSomeColumn(bmp);
  }

  /** The description determines the box: the scans have exactly one possible outcome. */
  lemma ContentBoxUnique(bmp: Bitmap, a: Box, b: Box)
    requires bmp.Valid() && IsContentBox(bmp, a) && IsContentBox(bmp, b)
    ensures a == b
  {
  }

  /** Every non-white pixel lies inside the detected box. */
  lemma InkInsideBox(bmp: Bitmap, box: Box, x: int, y: int)
    requires bmp.Valid() && IsContentBox(bmp, box)
    requires 0 <= x < bmp.width && 0 <= y < bmp.height && !bmp.white[y][x]
    ensures box.top <= y <= box.bottom && box.left <= x <= box.right
  {
    assert !RowWhite(bmp, y) && !ColumnWhite(bmp, x);
  }

  /** Pixel (x, y) is the only non-white pixel of the bitmap. */
  ghost predicate OnlyInkAt(bmp: Bitmap, x: int, y: int)
    requires bmp.Valid()
  {
    && 0 <= x < bmp.width && 0 <= y < bmp.height && !bmp.white[y][x]
    && forall j, i :: 0 <= j < bmp.height && 0 <= i < bmp.width && (j != y || i != x) ==> bmp.white[j][i]
  }

  /** A single non-white pixel at (x, y) collapses all four cursors onto it. */
  lemma SinglePixelBox(bmp: Bitmap, box: Box, x: int, y: int)
    requires bmp.Valid() && IsContentBox(bmp, box) && OnlyInkAt(bmp, x, y)
    ensures box == Box(y, x, y, x)
  {
  }

  /** An all-white bitmap of the given size. */
  function Blank(width: nat, height: nat): (bmp: Bitmap)
    ensures bmp.Valid() && !HasInk(bmp)
  {
    Bitmap(width, height, seq(height, _ => seq(width, _ => true)))
  }

  /** An all-white bitmap leaves every cursor on the last row or column, not at the centre. */
  lemma BlankBox(width: nat, height: nat, box: Box)
    requires 1 <= width && 1 <= height && IsContentBox(Blank(width, height), box)
    ensures box.top == box.bottom == height - 1 && box.left == box.right == width - 1
  {
  }

  /** A 100 x 100 white bitmap with a black block over rows 20-79 and columns 10-89. */
  function BlockPage(): (bmp: Bitmap)
    ensures bmp.Valid()
  {
    Bitmap(100, 100, seq(100, y => seq(100, x => !(20 <= y <= 79 && 10 <= x <= 89))))
  }

  /** The block's edges are found exactly. */
  lemma BlockPageBox(box: Box)
    requires IsContentBox(BlockPage(), box)
    ensures box == Box(20, 10, 79, 89)
  {
    var bmp := BlockPage();
    assert !bmp.white[20][10];
    assert HasInk(bmp);
    assert !RowWhite(bmp, 20) by { assert !bmp.white[20][10]; }
    assert !RowWhite(bmp, 79) by { assert !bmp.white[79][10]; }
    assert !ColumnWhite(bmp, 10) by { assert !bmp.white[20][10]; }
    assert !ColumnWhite(bmp, 89) by { assert !bmp.white[20][89]; }
  }
}
