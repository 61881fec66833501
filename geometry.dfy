/** The size and place of an embedded screenshot (server.js:118-135): the image
    is as wide as the screenshot column, its height follows a fixed 4:3 ratio
    converted to row-height units and clamped, and the image is then as tall as the
    clamped row. Exact `real` arithmetic stands for the source's floating point. */
module Geometry {
  import opened Options

  const FallbackColumnWidth: real := 40.0
  /** Pixels per unit of column width. */
  const PixelsPerWidthUnit: real := 7.5
  /** The assumed width-to-height ratio of every screenshot. */
  const AspectRatio: real := 4.0 / 3.0
  /** Pixels per unit of row height. */
  const PixelsPerHeightUnit: real := 0.75
  const MinRowHeight: real := 45.0
  const MaxRowHeight: real := 120.0

  /** The 0-based column the image is anchored to: column I. */
  const ImageColumn := 8

  /** `column.width || 40`: an unset or zero width falls back to 40. */
  function EffectiveWidth(width: Option<real>): (w: real)
    ensures w != 0.0
    ensures width.Some? && width.value != 0.0 ==> w == width.value
    ensures width.None? || width.value == 0.0 ==> w == FallbackColumnWidth
  {
    match width
    case None => FallbackColumnWidth
    case Some(x) => if x == 0.0 then FallbackColumnWidth else x
  }

  /** The width of the ninth column (`getColumn(9)`), which holds the screenshots. */
  function ImageColumnWidth(widths: seq<Option<real>>): (w: real)
    ensures |widths| >= 9 && widths[8].Some? && widths[8].value != 0.0 ==> w == widths[8].value
    ensures |widths| < 9 || widths[8].None? || widths[8].value == 0.0 ==> w == FallbackColumnWidth
  {
    if |widths| >= 9 then EffectiveWidth(widths[8]) else FallbackColumnWidth
  }

  function Min(a: real, b: real): real {
    if a <= b then a else b
  }

  function Max(a: real, b: real): real {
    if a >= b then a else b
  }

  /** The clamped height of the target row, and the extent of the image. */
  datatype Box = Box(rowHeight: real, width: real, height: real)

  function ImageBox(colWidth: real): (b: Box)
    ensures MinRowHeight <= b.rowHeight <= MaxRowHeight
    ensures 33.75 <= b.height <= 90.0
    ensures b.width == colWidth * PixelsPerWidthUnit
  {
    var baseImageWidth := colWidth * PixelsPerWidthUnit;
    var dynamicHeightPx := baseImageWidth / AspectRatio;
    var excelRowHeight := dynamicHeightPx / PixelsPerHeightUnit;
    var rowHeight := Max(MinRowHeight, Min(excelRowHeight, MaxRowHeight));
    Box(rowHeight, baseImageWidth, rowHeight * PixelsPerHeightUnit)
  }

  /** The row height in its three regimes: at the floor up to width 6, at the
      ceiling from width 16, and 7.5 units per width unit in between. */
  lemma RowHeightRegimes(colWidth: real)
    ensures colWidth <= 6.0 ==> ImageBox(colWidth).rowHeight == MinRowHeight
    ensures 6.0 <= colWidth <= 16.0 ==> ImageBox(colWidth).rowHeight == colWidth * 7.5
    ensures 16.0 <= colWidth ==> ImageBox(colWidth).rowHeight == MaxRowHeight
    ensures ImageBox(colWidth).height == ImageBox(colWidth).rowHeight * PixelsPerHeightUnit
  {
    assert colWidth * PixelsPerWidthUnit / AspectRatio / PixelsPerHeightUnit == colWidth * 7.5;
  }

  /** The image keeps the 4:3 ratio exactly when the row height was not clamped;
      clamping changes the height but never the width. */
  lemma AspectKeptIffUnclamped(colWidth: real)
    ensures ImageBox(colWidth).width == ImageBox(colWidth).height * AspectRatio <==> 6.0 <= colWidth <= 16.0
  {
    RowHeightRegimes(colWidth);
  }

  /** With the configured screenshot column width of 40, every placed row is 120
      units high and every image is 300 by 90 pixels. */
  lemma ConfiguredBox()
    ensures ImageBox(40.0) == Box(120.0, 300.0, 90.0)
  {
    RowHeightRegimes(40.0);
  }
}
