# pdf-crop: content-box cropping, modelled in Dafny

The two commands of pdf-crop (`pdf-cropper`, which takes a list of margins, and
`pdf-crop`, which takes one option per side) crop every page of a PDF to its
ink. `PDFPage.autoCropByContent(with:)` renders the page at one pixel per page
unit and scans the bitmap. Four cursors start at the raster's edges and move
inward past all-white rows and columns. The cursors are then pushed back
outward by the margins, clamped to the raster. Finally the raster box (origin
top-left) is turned into a page rectangle (origin bottom-left) and set as the
page's media box.

Both commands carry the same copy of `autoCropByContent`, `checkRow` and
`checkColumn` (PDFCropper-CLI/main.swift:81-173 and PDFCrop/main.swift:88-180,
seven lines apart). The model holds that code once, and the rows below cite the
`PDFCropper-CLI` copy unless a property belongs to `pdf-crop` alone.

Modules:

- `Raster`: the bitmap as one "is white" flag per pixel. Also `CheckRow` and `CheckColumn`, which are early-exit loops.
- `Detector`: the four scan loops (`DetectContent`) and `IsContentBox`, a closed description of what they compute.
- `Margins`: `CropMargins`, the conditional padding (`ApplyMargins`) and its specification `PadBox`. It also holds Swift's 64-bit `Int` arithmetic for the overflow finding.
- `Geometry`: the content box, the page rectangle and the translation of line 137.
- `AutoCrop`: `autoCropByContent` as the composition of the stages above.
- `PdfCropperCli` and `PdfCrop`: how each command builds its `CropMargins`.

The scans are not independent: the bottom scan is guarded by the already
advanced `top` cursor, and the right scan by the already advanced `left`
cursor. On an all-white page every cursor therefore ends on the last row or
column. With 5-pixel margins on a 100 x 100 blank page the crop is the 5 x 5
square in the bottom-right corner (`AutoCrop.BlankPageCrop`).

A padded box can never be inverted. The detected box is always ordered and
padding only widens it (`Margins.PadBox`).

## Model

| member | source | states |
|---|---|---|
| `Raster.CheckRow` | PDFCropper-CLI/main.swift:151-161 | returns true exactly when every pixel of the row is white |
| `Raster.CheckColumn` | PDFCropper-CLI/main.swift:163-173 | returns true exactly when every pixel of the column is white |
| `Detector.DetectContent` | PDFCropper-CLI/main.swift:87-122 | the four scans never index outside the raster and end with `0 <= top <= bottom < H` and `0 <= left <= right < W`. All rows above `top` and below `bottom` are white, and so are all columns left of `left` and right of `right`. On a page with ink each cursor stands on a line that holds ink. On a blank page all four end on row `H-1` / column `W-1` |
| `Detector.ContentBoxUnique` | PDFCropper-CLI/main.swift:87-122 | the description of the scans' outcome admits only one box |
| `Detector.InkInsideBox` | PDFCropper-CLI/main.swift:87-122 | every non-white pixel lies inside the detected box |
| `Detector.SinglePixelBox` | PDFCropper-CLI/main.swift:92-122 | a lone non-white pixel at (x, y) gives `top = bottom = y` and `left = right = x` |
| `Detector.BlankBox` | PDFCropper-CLI/main.swift:92-122 | an all-white raster gives `top = bottom = H-1` and `left = right = W-1`, because the bottom and right scans never move |
| `Detector.BlockPageBox` | PDFCrop/main.swift:99-129 | a 100 x 100 page with a black block over rows 20-79 and columns 10-89 gives exactly top 20, bottom 79, left 10, right 89 |
| `Margins.PadBox` | PDFCropper-CLI/main.swift:124-135 | the padded box stays inside the raster and encloses the detected box. A side whose margin is not positive keeps its detected value |
| `Margins.ApplyMargins` | PDFCropper-CLI/main.swift:124-135 | the four conditional reassignments produce `PadBox` of the detected box: `max(0, top - m.top)` and `min(H-1, bottom + m.bottom)` for positive margins, and likewise for left and right |
| `Margins.PadBoxIsClippedGrowth` | PDFCropper-CLI/main.swift:124-135 | padding equals growing the box by the positive parts of the margins and then clipping it to the raster |
| `Margins.PadBoxMonotone` | PDFCropper-CLI/main.swift:124-135 | larger margins never give a smaller padded box |
| `Margins.PadBoxZero` | PDFCrop/main.swift:131-141 | zero margins leave the detected box unchanged |
| `Margins.PadHighAsWritten` | PDFCropper-CLI/main.swift:130-135 | the bottom and right clamps in Swift's 64-bit `Int`: `None` (the overflow trap) exactly when the margin is positive and `v + m` leaves the 64-bit range; otherwise `Some(min(limit-1, v+m))` for a positive margin and the side unchanged for a non-positive one |
| `Margins.PadHighAsWrittenTraps` | PDFCropper-CLI/main.swift:130-135 | with 64-bit `Int`, a margin of `Int.max` traps for every detected bottom (or right) side of 1 or more |
| `Margins.PadHighChecked` | PDFCropper-CLI/main.swift:130-135 | comparing the margin against `limit - v` never traps for a 64-bit margin and gives `min(limit-1, v+m)` |
| `Geometry.ToPageRect` | PDFCropper-CLI/main.swift:137 | the rectangle's left and right edges are columns `left` and `right`. Its bottom and top edges are rows `bottom` and `top` flipped into page space. For an in-range box it lies inside the page and has no negative extent |
| `Geometry.ToPageRectKeeps` | PDFCropper-CLI/main.swift:137 | the rectangle covers a raster pixel exactly when the pixel is in rows `top..bottom-1` and columns `left..right-1` |
| `Geometry.ToPageRectDropsCorner` | PDFCropper-CLI/main.swift:137 | the box's bottom-right pixel is never covered |
| `Geometry.ToPageRectCovering` | PDFCropper-CLI/main.swift:137 | the corrected translation lies inside the page and is at least one unit wide and tall |
| `Geometry.ToPageRectCoveringKeeps` | PDFCropper-CLI/main.swift:137 | the corrected translation covers a pixel exactly when the box contains it |
| `Geometry.ToPageRectExample` | PDFCropper-CLI/main.swift:137 | box {top 2, left 3, bottom 97, right 193} on a 100-row page gives (3, 3, 190, 95) |
| `AutoCrop.AutoCropByContent` | PDFCropper-CLI/main.swift:81-139 | when no bitmap can be made the page is left alone. Otherwise the new bounds are the translated, padded content box of the bitmap, and they lie inside the page |
| `AutoCrop.SinglePixelCrop` | PDFCropper-CLI/main.swift:87-137 | a lone ink pixel with zero margins gives a zero-area rectangle, while the corrected translation gives the 1 x 1 square of that pixel |
| `AutoCrop.BlankPageCrop` | PDFCropper-CLI/main.swift:87-137 | an all-white 100 x 100 page with margins of 5 gives the rectangle (94, 1, 5, 5) |
| `AutoCrop.BlockPageCrop` | PDFCrop/main.swift:94-144 | the block page with zero margins gives the rectangle (10, 21, 79, 59) |
| `PdfCropperCli.PadWithZeros` | PDFCropper-CLI/main.swift:33-35 | the list grows to four entries by appending zeros, and its existing entries are unchanged |
| `PdfCropperCli.MarginsFromList` | PDFCropper-CLI/main.swift:30-36 | side i of the margins is entry i of the list, or zero if the list is shorter. An empty list gives `CropMargins.zero` |
| `PdfCropperCli.PaddedListSameMargins` | PDFCropper-CLI/main.swift:27-37 | once the first page has padded the stored list, later pages get the same margins |
| `PdfCropperCli.PdfCropper.PageMargins` | PDFCropper-CLI/main.swift:30-36 | returns `MarginsFromList` of the stored list. The list is padded in place unless it is empty |
| `PdfCrop.MarginsOf` | PDFCrop/main.swift:19-42 | the four per-side options become the margins unchanged, the same margins `pdf-cropper` builds from those four numbers. The zero defaults give `CropMargins.zero` |

## Left out

- Loading the document, `page(at:)`, `setBounds` and writing the file are left out. They are PDFKit I/O. `AutoCropByContent` returns the rectangle that would be passed to `setBounds`.
- Rendering is left out: `thumbnail(of:for:)`, `tiffRepresentation` and `NSBitmapImageRep(data:)`. The bitmap is an input, and `None` stands for a failed decode.
- `colorAt` and the `NSColor` comparison are left out. Each pixel is one boolean that says whether it equals opaque white.
- The page's width and height come from `CGFloat` values converted to `Int`. The model takes them as integers, and the bitmap has the same size as the page. Pages with zero width or height are excluded by precondition, because the cursors' starting values assume at least one row and one column.
- The media box origin is not modelled, because the code ignores it.
- Argument parsing, the per-page loop of `run()`, the timestamped output name and the in-place flag are left out. They are command-line glue.
- `ApplyMargins` computes in unbounded integers, so it does not trap where Swift's `bottom + margins.bottom` or `right + margins.right` would overflow. That trap is modelled separately under Findings. The `top - margins.top` and `left - margins.left` subtractions cannot overflow, because the side is at least 0 and the margin is positive.
- A second crop of an already cropped page is not modelled. Its result depends on a fresh rendering.

## Findings

| source | as written | input that shows it | evidently intended | confidence | as-written member | corrected member |
|---|---|---|---|---|---|---|
| PDFCropper-CLI/main.swift:137 (PDFCrop/main.swift:144) | `NSRect(x: left, y: height - bottom, width: right - left, height: bottom - top)` treats the inclusive cursors as edges. This drops the last ink row and the last ink column | a page whose only ink is one pixel at (x, y), with zero margins: the rectangle is (x, H - y, 0, 0) and has no area | `y: height - 1 - bottom`, `width: right - left + 1`, `height: bottom - top + 1`, which covers exactly the pixels of the box | medium; not executed | `Geometry.ToPageRectKeeps`, `Geometry.ToPageRectDropsCorner`, `AutoCrop.SinglePixelCrop` | `Geometry.ToPageRectCovering`, `Geometry.ToPageRectCoveringKeeps` |
| PDFCropper-CLI/main.swift:130-135 (PDFCrop/main.swift:137-142) | `bottom + margins.bottom >= height` (and `right + margins.right >= width`) adds before it compares. In Swift's 64-bit `Int` this traps when the margin is near `Int.max` | `pdf-cropper -m 0 0 9223372036854775807` on any page whose detected bottom row is below row 0 | compare `margins.bottom >= height - bottom`, which cannot overflow | medium; not executed | `Margins.PadHighAsWritten`, `Margins.PadHighAsWrittenTraps` | `Margins.PadHighChecked` |

`AutoCrop.AutoCropByContent` returns the rectangle that line 137 computes, so
that it stays faithful to the commands' output. The padding specification
`Margins.PadBox` is the overflow-free clamp, and `Margins.PadHighChecked` proves
that this clamp is reachable in 64-bit arithmetic.
