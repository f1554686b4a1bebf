/**
 * The margins handling of the `pdf-cropper` command: the `--margins` option
 * is a list of up to four numbers (top, left, bottom, right).
 */
module PdfCropperCli {
  import opened Geometry
  import opened Margins

  /** The list right-padded with zeros to four entries; a longer list is kept as it is. */
  function PadWithZeros(list: seq<int>): (r: seq<int>)
    ensures |r| == Max(4, |list|)
    ensures r[..|list|] == list
    ensures forall i :: |list| <= i < |r| ==> r[i] == 0
  {
    if |list| >= 4 then list else list + seq(4 - |list|, _ => 0)
  }

  /**
   * The margins a page is cropped with: side i is entry i of the list, or zero
   * when the list is shorter; entries past the fourth are ignored.
   */
  function MarginsFromList(list: seq<int>): (m: CropMargins)
    ensures forall i :: 0 <= i < 4 ==> m.Side(i) == (if i < |list| then list[i] else 0)
  {
    if list == [] then Zero
    else
      var padded := PadWithZeros(list);
      CropMargins(padded[0], padded[1], padded[2], padded[3])
  }

  /** Padding the list, as the first page does, does not change what later pages get. */
  lemma PaddedListSameMargins(list: seq<int>)
    ensures MarginsFromList(PadWithZeros(list)) == MarginsFromList(list)
  {
  }

  /** The `pdf-cropper` command; only its `margins` option is modelled. */
  class PdfCropper {
    var margins: seq<int>

    constructor (margins: seq<int>)
      ensures this.margins == margins
    {
      this.margins := margins;
    }

    /**
     * PDFCropper-CLI/main.swift:30-36, run once per page: an empty list means `CropMargins.zero`;
     * otherwise the stored list is padded with zeros in place and its first
     * four entries become the margins.
     */
    method PageMargins() returns (m: CropMargins)
      modifies this
      ensures m == MarginsFromList(old(margins))
      ensures margins == if old(margins) == [] then [] else PadWithZeros(old(margins))
    {
      if |margins| == 0 {
        m := Zero;
      } else {
        while |margins| < 4
          invariant |old(margins)| <= |margins| <= Max(4, |old(margins)|)
          invariant margins == old(margins) + seq(|margins| - |old(margins)|, _ => 0)
          decreases 4 - |margins|
        {
          margins := margins + [0];
        }
        m := CropMargins(margins[0], margins[1], margins[2], margins[3]);
      }
    }
  }
}
