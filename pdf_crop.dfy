/**
 * The margins handling of the `pdf-crop` command: one option per side, each
 * defaulting to zero.
 */
module PdfCrop {
  import opened Margins
  import PdfCropperCli

  /** The per-side options `--top-margin`, `--left-margin`, `--bottom-margin`, `--right-margin`. */
  datatype Options = Options(topMargin: int, leftMargin: int, bottomMargin: int, rightMargin: int)

  /** The options' declared defaults. */
  const Defaults := Options(0, 0, 0, 0)

  /**
   * Line 42: the margins every page is cropped with. They are what the
   * `pdf-cropper` command builds from the same four numbers given as its
   * margins list, and the defaults give `CropMargins.zero`.
   */
  function MarginsOf(o: Options): (m: CropMargins)
    ensures m == PdfCropperCli.MarginsFromList([o.topMargin, o.leftMargin, o.bottomMargin, o.rightMargin])
    ensures o == Defaults ==> m == Zero
  {
    CropMargins(o.topMargin, o.leftMargin, o.bottomMargin, o.rightMargin)
  }
}
