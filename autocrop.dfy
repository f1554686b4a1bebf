/**
 * `PDFPage.autoCropByContent(with:)`: detect the content box of the rendered
 * page, pad it by the margins and translate it into the page rectangle that
 * becomes the page's new media box.
 */
module AutoCrop {
  import opened Wrappers
  import opened Geometry
  import opened Raster
  import opened Detector
  import opened Margins

  /** The bitmap is the page rendered at one pixel per page unit, at least one pixel each way. */
  ghost predicate RendersPage(bmp: Bitmap, width: int, height: int)
  {
    Scannable(bmp) && bmp.width == width && bmp.height == height
  }

  /** The rectangle lies inside a `width` x `height` page and has no negative extent. */
  predicate InsidePage(r: Rect, width: int, height: int)
  {
    0 <= r.x && r.x + r.width < width && 1 <= r.y && r.y + r.height <= height &&
    0 <= r.width && 0 <= r.height
  }

  /**
   * PDFCropper-CLI/main.swift:81-139. `bitmap` is `None` when the thumbnail could
   * not be turned into a bitmap (the guard at PDFCropper-CLI/main.swift:83); the page is then left alone. Otherwise the result
   * is the rectangle passed to `setBounds`.
   */
  method AutoCropByContent(width: int, height: int, bitmap: Option<Bitmap>, margins: CropMargins)
    returns (bounds: Option<Rect>)
    requires bitmap.Some? ==> RendersPage(bitmap.value, width, height)
    ensures bitmap.None? <==> bounds.None?
    ensures bitmap.Some? ==>
      exists box :: IsContentBox(bitmap.value, box) &&
        bounds.value == ToPageRect(PadBox(box, margins, width, height), height)
    ensures bitmap.Some? ==> InsidePage(bounds.value, width, height)
  {
    if bitmap.None? {
      return None;
    }
    var bmp := bitmap.value;
    var box := DetectContent(bmp);
    var padded := ApplyMargins(box, margins, width, height);
    bounds := Some(ToPageRect(padded, height));
  }

  /**
   * With one non-white pixel and no margins rectangle `autoCropByContent` computes has no
   * area at all, while the covering translation keeps exactly that pixel.
   */
  lemma SinglePixelCrop(bmp: Bitmap, box: Box, x: int, y: int)
    requires bmp.Valid() && IsContentBox(bmp, box) && OnlyInkAt(bmp, x, y)
    ensures ToPageRect(PadBox(box, Zero, bmp.width, bmp.height), bmp.height) ==
      Rect(x, bmp.height - y, 0, 0)
    ensures ToPageRectCovering(PadBox(box, Zero, bmp.width, bmp.height), bmp.height) ==
      Rect(x, bmp.height - 1 - y, 1, 1)
  {
  }

  /**
   * An all-white 100 x 100 page with 5-pixel margins is cropped to the
   * 5 x 5 square in its bottom-right corner.
   */
  lemma BlankPageCrop(box: Box)
    requires IsContentBox(Blank(100, 100), box)
    ensures ToPageRect(PadBox(box, CropMargins(5, 5, 5, 5), 100, 100), 100) == Rect(94, 1, 5, 5)
  {
  }

  /** The 100 x 100 page with a black block over rows 20-79 and columns 10-89, no margins. */
  lemma BlockPageCrop(box: Box)
    requires IsContentBox(BlockPage(), box)
    ensures ToPageRect(PadBox(box, Zero, 100, 100), 100) == Rect(10, 21, 79, 59)
  {
    BlockPageBox(box);
  }
}
