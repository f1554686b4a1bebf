/**
 * The bitmap rendered from a page, reduced to one "is white" flag per pixel,
 * and the row and column tests `checkRow` and `checkColumn`.
 */
module Raster {

  /**
   * `white[y][x]` says whether `colorAt(x:y:)` equals opaque calibrated white;
   * row 0 is the top row. `width` and `height` are the bitmap's size.
   */
  datatype Bitmap = Bitmap(width: int, height: int, white: seq<seq<bool>>)
  {
    ghost predicate Valid()
    {
      0 <= width && 0 <= height && |white| == height &&
      forall y :: 0 <= y < height ==> |white[y]| == width
    }
  }

  /** Every pixel of row `row` is white. */
  ghost predicate RowWhite(bmp: Bitmap, row: int)
    requires bmp.Valid() && 0 <= row < bmp.height
  {
    forall x :: 0 <= x < bmp.width ==> bmp.white[row][x]
  }

  /** Every pixel of column `column` is white. */
  ghost predicate ColumnWhite(bmp: Bitmap, column: int)
    requires bmp.Valid() && 0 <= column < bmp.width
  {
    forall y :: 0 <= y < bmp.height ==> bmp.white[y][column]
  }

  /** Some pixel of the bitmap is not white. */
  ghost predicate HasInk(bmp: Bitmap)
    requires bmp.Valid()
  {
    exists x, y :: 0 <= x < bmp.width && 0 <= y < bmp.height && !bmp.white[y][x]
  }

  /** `checkRow(at:)`: walks the row left to right and stops at the first non-white pixel. */
  method CheckRow(bmp: Bitmap, row: int) returns (allWhite: bool)
    requires bmp.Valid() && 0 <= row < bmp.height
    ensures allWhite <==> RowWhite(bmp, row)
  {
    for i := 0 to bmp.width
      invariant forall x :: 0 <= x < i ==> bmp.white[row][x]
    {
      if !bmp.white[row][i] {
        return false;
      }
    }
    return true;
  }

  /** `checkColumn(at:)`: walks the column top to bottom and stops at the first non-white pixel. */
  method CheckColumn(bmp: Bitmap, column: int) returns (allWhite: bool)
    requires bmp.Valid() && 0 <= column < bmp.width
    ensures allWhite <==> ColumnWhite(bmp, column)
  {
    for i := 0 to bmp.height
      invariant forall y :: 0 <= y < i ==> bmp.white[y][column]
    {
      if !bmp.white[i][column] {
        return false;
      }
    }
    return true;
  }

  /** A bitmap has ink exactly when one of its rows is not all white. */
  lemma InkInSomeRow(bmp: Bitmap)
    requires bmp.Valid()
    ensures HasInk(bmp) <==> exists r :: 0 <= r < bmp.height && !RowWhite(bmp, r)
  {
    if HasInk(bmp) {
      var x, y :| 0 <= x < bmp.width && 0 <= y < bmp.height && !bmp.white[y][x];
      assert !RowWhite(bmp, y);
    }
  }

  /** A bitmap has ink exactly when one of its columns is not all white. */
  lemma InkInSomeColumn(bmp: Bitmap)
    requires bmp.Valid()
    ensures HasInk(bmp) <==> exists c :: 0 <= c < bmp.width && !ColumnWhite(bmp, c)
  {
    if HasInk(bmp) {
      var x, y :| 0 <= x < bmp.width && 0 <= y < bmp.height && !bmp.white[y][x];
      assert !ColumnWhite(bmp, x);
    }
  }
}
