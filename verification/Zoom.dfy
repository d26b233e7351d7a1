/**
 Zoom: a normalized region becomes a pixel rectangle, the rectangle is cropped row by row, and a
 click inside the crop is carried back to a normalized point of the full image.
 */
module Zoom {
  import opened Common
  import opened Geometry

  const NORMALIZED_MAX: nat := 1000
  const USIZE_MAX: nat := 0xffff_ffff_ffff_ffff
  const MAX_DECODED_BYTES: nat := 128 * 1024 * 1024

  datatype Rect = Rect(x: nat, y: nat, width: nat, height: nat)

  datatype ImageError = DecodedImageTooLarge | UnexpectedFormat

  function TryU32(n: nat): Option<nat> {
    if n <= U32_MAX then Some(n) else None
  }

  function StartEdge(value: nat, length: nat): Option<nat> {
    TryU32(value * length / 1000)
  }

  function EndEdge(value: nat, length: nat): Option<nat> {
    match TryU32((value * length + 999) / 1000)
    case None => None
    case Some(edge) => Some(if edge < length then edge else length)
  }

  function NormalizedRegion(left: nat, top: nat, right: nat, bottom: nat, size: PixelSize): Option<Rect> {
    if right > NORMALIZED_MAX || bottom > NORMALIZED_MAX || left >= right || top >= bottom
       || size.width == 0 || size.height == 0 then None
    else match (StartEdge(left, size.width), StartEdge(top, size.height),
                EndEdge(right, size.width), EndEdge(bottom, size.height))
      case (Some(x), Some(y), Some(x2), Some(y2)) =>
        if x2 <= x || y2 <= y then None else Some(Rect(x, y, x2 - x, y2 - y))
      case _ => None
  }

  predicate Inside(rect: Rect, size: PixelSize) {
    && 0 < rect.width && 0 < rect.height
    && rect.x + rect.width <= size.width && rect.y + rect.height <= size.height
  }

  /** `[start, start + extent)` is the tightest run of pixels covering `[lo, hi)` thousandths of `length`. */
  predicate Covers(start: nat, extent: nat, lo: nat, hi: nat, length: nat) {
    && 1000 * start <= lo * length < 1000 * (start + 1)
    && 1000 * (start + extent - 1) < hi * length <= 1000 * (start + extent)
  }

  lemma EdgesCover(lo: nat, hi: nat, length: nat)
    requires lo < hi <= 1000 && 0 < length <= U32_MAX
    ensures StartEdge(lo, length).Some? && EndEdge(hi, length).Some?
    ensures var (a, b) := (StartEdge(lo, length).value, EndEdge(hi, length).value);
      a < b <= length && Covers(a, b - a, lo, hi, length)
  {
    EdgesOrdered(lo, hi, length);
    EdgesOf(lo, hi, length, lo * length, hi * length);
  }

  lemma EdgesOrdered(lo: nat, hi: nat, length: nat)
    requires lo < hi <= 1000 && 0 < length
    ensures lo * length < hi * length <= 1000 * length
  {
    ProductsOrdered(lo + 1, length, hi, length);
    ProductsOrdered(hi, length, 1000, length);
    assert (lo + 1) * length == lo * length + length;
  }

  lemma EdgesOf(lo: nat, hi: nat, length: nat, s: nat, e: nat)
    requires s == lo * length && e == hi * length && s < e <= 1000 * length && length <= U32_MAX
    ensures StartEdge(lo, length) == Some(s / 1000) && EndEdge(hi, length) == Some((e + 999) / 1000)
    ensures s / 1000 < (e + 999) / 1000 <= length
    ensures Covers(s / 1000, (e + 999) / 1000 - s / 1000, lo, hi, length)
  {
    QuotientsCover(s, e, length);
  }

  lemma QuotientsCover(s: nat, e: nat, length: nat)
    requires s < e <= 1000 * length
    ensures s / 1000 < (e + 999) / 1000 <= length
    ensures 1000 * (s / 1000) <= s < 1000 * (s / 1000 + 1)
    ensures 1000 * ((e + 999) / 1000 - 1) < e <= 1000 * ((e + 999) / 1000)
  {
  }

  /** A region is refused exactly when it is malformed; otherwise its crop is tight and inside the image. */
  lemma RegionAccepted(left: nat, top: nat, right: nat, bottom: nat, size: PixelSize)
    requires Sized(size)
    ensures NormalizedRegion(left, top, right, bottom, size).Some? <==>
      left < right <= 1000 && top < bottom <= 1000 && size.width > 0 && size.height > 0
    ensures NormalizedRegion(left, top, right, bottom, size).Some? ==>
      var rect := NormalizedRegion(left, top, right, bottom, size).value;
      && 0 < rect.width && rect.x + rect.width <= size.width && 0 < rect.height && rect.y + rect.height <= size.height
      && 1000 * rect.x <= left * size.width < 1000 * (rect.x + 1)
      && 1000 * (rect.x + rect.width - 1) < right * size.width <= 1000 * (rect.x + rect.width)
      && 1000 * rect.y <= top * size.height < 1000 * (rect.y + 1)
      && 1000 * (rect.y + rect.height - 1) < bottom * size.height <= 1000 * (rect.y + rect.height)
  {
    if left < right <= 1000 && top < bottom <= 1000 && size.width > 0 && size.height > 0 {
      hide StartEdge, EndEdge;
      EdgesCover(left, right, size.width);
      EdgesCover(top, bottom, size.height);
    }
  }

  function SaturatingAddU32(a: nat, b: nat): nat {
    if a + b > U32_MAX then U32_MAX else a + b
  }

  function ViewPoint(x: nat, y: nat, rect: Rect): Point {
    Point(SaturatingAddU32(rect.x, NormalizedAxis(x, rect.width)),
          SaturatingAddU32(rect.y, NormalizedAxis(y, rect.height)))
  }

  lemma NormalizedAxisInRange(value: nat, length: nat)
    requires value <= 1000 && 0 < length
    ensures NormalizedAxis(value, length) < length
  {
    ProductsOrdered(value, length - 1, 1000, length - 1);
  }

  /** Byte layout of a crop: rows of `stride` bytes, of which `span` bytes from `offset` are kept. */
  datatype Layout = Layout(stride: nat, offset: nat, span: nat)

  function LayoutOf(size: PixelSize, rect: Rect): Layout {
    Layout(size.width * 4, rect.x * 4, rect.width * 4)
  }

  function RowStart(lay: Layout, row: nat): nat {
    row * lay.stride + lay.offset
  }

  ghost predicate Fits(lay: Layout, rows: nat, bytes: nat) {
    lay.offset + lay.span <= lay.stride && rows * lay.stride <= bytes
  }

  lemma PrefixFits(lay: Layout, row: nat, rows: nat, bytes: nat)
    requires Fits(lay, rows, bytes) && row <= rows
    ensures Fits(lay, row, bytes)
  {
    assert row * lay.stride <= rows * lay.stride;
  }

  lemma RowFits(lay: Layout, row: nat, rows: nat, bytes: nat)
    requires Fits(lay, rows, bytes) && row < rows
    ensures RowStart(lay, row) + lay.span <= bytes
  {
    PrefixFits(lay, row + 1, rows, bytes);
    assert (row + 1) * lay.stride == row * lay.stride + lay.stride;
  }

  /** Rows `first` to `first + rows` of the source, cut to the kept span and joined. */
  ghost function Crop(pixels: seq<Byte>, lay: Layout, first: nat, rows: nat): seq<Byte>
    requires Fits(lay, first + rows, |pixels|)
  {
    if rows == 0 then []
    else
      var at := RowStart(lay, first + rows - 1);
      RowFits(lay, first + rows - 1, first + rows, |pixels|);
      PrefixFits(lay, first + rows - 1, first + rows, |pixels|);
      Crop(pixels, lay, first, rows - 1) + pixels[at..at + lay.span]
  }

  lemma {:induction false} CropLength(pixels: seq<Byte>, lay: Layout, first: nat, rows: nat)
    requires Fits(lay, first + rows, |pixels|)
    ensures |Crop(pixels, lay, first, rows)| == rows * lay.span
  {
    if rows > 0 {
      PrefixFits(lay, first + rows - 1, first + rows, |pixels|);
      CropLength(pixels, lay, first, rows - 1);
      RowFits(lay, first + rows - 1, first + rows, |pixels|);
      assert rows * lay.span == (rows - 1) * lay.span + lay.span;
    }
  }

  /** Byte `b` of crop row `j` is byte `b` of the kept span of source row `first + j`. */
  lemma {:induction false} CropByte(pixels: seq<Byte>, lay: Layout, first: nat, rows: nat, j: nat, b: nat)
    requires Fits(lay, first + rows, |pixels|) && j < rows && b < lay.span
    ensures j * lay.span + b < |Crop(pixels, lay, first, rows)|
    ensures RowStart(lay, first + j) + b < |pixels|
    ensures Crop(pixels, lay, first, rows)[j * lay.span + b] == pixels[RowStart(lay, first + j) + b]
  {
    RowFits(lay, first + j, first + rows, |pixels|);
    PrefixFits(lay, first + rows - 1, first + rows, |pixels|);
    CropLength(pixels, lay, first, rows);
    CropLength(pixels, lay, first, rows - 1);
    if j < rows - 1 {
      CropByte(pixels, lay, first, rows - 1, j, b);
    }
  }

  lemma InsideFits(rect: Rect, size: PixelSize, bytes: nat)
    requires Inside(rect, size) && Sized(size) && bytes == size.width * size.height * 4
    ensures Fits(LayoutOf(size, rect), rect.y + rect.height, bytes)
    ensures SaturatingAddU32(rect.y, rect.height) == rect.y + rect.height
  {
    var stride := size.width * 4;
    assert (rect.y + rect.height) * stride <= size.height * stride;
    assert size.height * stride == size.width * size.height * 4;
  }

  lemma ProductsOrdered(a: nat, b: nat, c: nat, d: nat)
    requires a <= c && b <= d
    ensures a * b <= c * d
  {
    assert a * b <= c * b;
    assert c * b <= c * d;
  }

  lemma CropSize(pixels: seq<Byte>, lay: Layout, first: nat, rows: nat)
    requires Fits(lay, first + rows, |pixels|)
    ensures |Crop(pixels, lay, first, rows)| == rows * lay.span <= |pixels|
  {
    hide Crop;
    CropLength(pixels, lay, first, rows);
    ProductsOrdered(rows, lay.span, first + rows, lay.stride);
  }

  /** The row loop over the decoded buffer. For a rectangle inside the image no error branch is taken. */
  method CropRows(pixels: seq<Byte>, size: PixelSize, rect: Rect) returns (r: Result<seq<Byte>, ImageError>)
    requires |pixels| == size.width * size.height * 4 && |pixels| <= MAX_DECODED_BYTES && Sized(size)
    ensures Inside(rect, size) ==>
      && Fits(LayoutOf(size, rect), rect.y + rect.height, |pixels|)
      && r == Ok(Crop(pixels, LayoutOf(size, rect), rect.y, rect.height))
    ensures r.Ok? ==> |r.value| == rect.height * (rect.width * 4)
    ensures r.Ok? ==> forall row :: rect.y <= row < rect.y + rect.height && row < U32_MAX ==>
      row * (size.width * 4) + rect.x * 4 + rect.width * 4 <= |pixels|
  {
    LayoutParts(size, rect);
    hide Inside, Crop, LayoutOf, Fits, SaturatingAddU32;
    var lay := LayoutOf(size, rect);
    if Inside(rect, size) {
      InsideFits(rect, size, |pixels|);
      CropSize(pixels, lay, rect.y, rect.height);
    }
    r := CropChecked(pixels, lay, rect.y, SaturatingAddU32(rect.y, rect.height), rect.height * lay.span);
  }

  lemma LayoutParts(size: PixelSize, rect: Rect)
    ensures LayoutOf(size, rect) == Layout(size.width * 4, rect.x * 4, rect.width * 4)
    ensures SaturatingAddU32(rect.y, rect.height) ==
      if rect.y + rect.height <= U32_MAX then rect.y + rect.height else U32_MAX
  {
  }

  method CropChecked(pixels: seq<Byte>, lay: Layout, first: nat, endRow: nat, cropBytes: nat)
    returns (r: Result<seq<Byte>, ImageError>)
    requires |pixels| <= MAX_DECODED_BYTES
    ensures
      (first <= endRow && Fits(lay, endRow, |pixels|) &&
       |Crop(pixels, lay, first, endRow - first)| == cropBytes <= |pixels|)
      ==> r == Ok(Crop(pixels, lay, first, endRow - first))
    ensures r.Ok? ==> |r.value| == cropBytes
    ensures r.Ok? ==> forall row :: first <= row < endRow ==> row * lay.stride + lay.offset + lay.span <= |pixels|
    ensures cropBytes > USIZE_MAX ==> r == Err(DecodedImageTooLarge)
    ensures cropBytes <= USIZE_MAX && r.Err? ==> r.error == UnexpectedFormat
  {
    if cropBytes > USIZE_MAX { return Err(DecodedImageTooLarge); }
    r := CropLoop(pixels, lay, first, endRow);
    if r.Ok? && |r.value| != cropBytes { return Err(UnexpectedFormat); }
  }

  method CropLoop(pixels: seq<Byte>, lay: Layout, first: nat, endRow: nat) returns (r: Result<seq<Byte>, ImageError>)
    requires |pixels| <= MAX_DECODED_BYTES
    ensures first <= endRow && Fits(lay, endRow, |pixels|) ==> r == Ok(Crop(pixels, lay, first, endRow - first))
    ensures r.Ok? <==> forall row :: first <= row < endRow ==> row * lay.stride + lay.offset + lay.span <= |pixels|
    ensures r.Err? ==> r.error == UnexpectedFormat
  {
    hide Fits;
    ghost var fits := first <= endRow && Fits(lay, endRow, |pixels|);
    if fits { PrefixFits(lay, first, endRow, |pixels|); }
    var cropped: seq<Byte> := [];
    var row := first;
    while row < endRow
      invariant first <= row && (fits ==> row <= endRow)
      invariant fits ==> Fits(lay, row, |pixels|) && cropped == Crop(pixels, lay, first, row - first)
      invariant forall k :: first <= k < row ==> k * lay.stride + lay.offset + lay.span <= |pixels|
    {
      if fits {
        RowFits(lay, row, endRow, |pixels|);
        PrefixFits(lay, row + 1, endRow, |pixels|);
      }
      var start := RowStart(lay, row);
      var end := start + lay.span;
      if end > USIZE_MAX || end > |pixels| { return Err(UnexpectedFormat); }
      cropped := cropped + pixels[start..end];
      row := row + 1;
    }
    r := Ok(cropped);
  }

  /** Offset of the first of the four bytes of a pixel. */
  function PixelOffset(width: nat, at: Point): nat {
    at.y * (width * 4) + at.x * 4
  }

  /** Channel `k` of crop pixel `at` is channel `k` of pixel `source` of the full image. */
  ghost predicate Shows(pixels: seq<Byte>, size: PixelSize, rect: Rect, at: Point, source: Point, k: nat) {
    && Fits(LayoutOf(size, rect), rect.y + rect.height, |pixels|)
    && var cropped := Crop(pixels, LayoutOf(size, rect), rect.y, rect.height);
       && PixelOffset(rect.width, at) + k < |cropped| && PixelOffset(size.width, source) + k < |pixels|
       && cropped[PixelOffset(rect.width, at) + k] == pixels[PixelOffset(size.width, source) + k]
  }

  /** Crop pixel (i, j) is source pixel (x + i, y + j). */
  lemma CropShowsSource(pixels: seq<Byte>, size: PixelSize, rect: Rect, at: Point, k: nat)
    requires Inside(rect, size) && Sized(size) && |pixels| == size.width * size.height * 4
    requires at.x < rect.width && at.y < rect.height && k < 4
    ensures Shows(pixels, size, rect, at, Point(rect.x + at.x, rect.y + at.y), k)
  {
    InsideFits(rect, size, |pixels|);
    CropByte(pixels, LayoutOf(size, rect), rect.y, rect.height, at.y, at.x * 4 + k);
  }

  /**
   Zoom shows what it clicks. For every image, every accepted region and every view coordinate, the
   point dispatched for the click resolves to the source pixel displayed at the clicked crop
   position, which lies inside the cropped rectangle.
   */
  lemma ZoomShowsWhatItClicks(
    rnd: real -> real, pixels: seq<Byte>, size: PixelSize,
    left: nat, top: nat, right: nat, bottom: nat, vx: nat, vy: nat, k: nat)
    requires Rounding(rnd) && Sized(size) && |pixels| == size.width * size.height * 4
    requires NormalizedRegion(left, top, right, bottom, size).Some? && vx <= 1000 && vy <= 1000 && k < 4
    ensures var rect := NormalizedRegion(left, top, right, bottom, size).value;
      var shown := Point(NormalizedAxis(vx, rect.width), NormalizedAxis(vy, rect.height));
      var clicked := ViewPoint(vx, vy, rect);
      && rect.x <= clicked.x < rect.x + rect.width && rect.y <= clicked.y < rect.y + rect.height
      && FromPixel(rnd, clicked, size).Some?
      && ToPixel(rnd, FromPixel(rnd, clicked, size).value, size) == Some(clicked)
      && Shows(pixels, size, rect, shown, clicked, k)
  {
    hide NormalizedRegion, Shows, Covers, Rounding, FromPixel, ToPixel, NormalizedAxis;
    RegionAccepted(left, top, right, bottom, size);
    var rect := NormalizedRegion(left, top, right, bottom, size).value;
    NormalizedAxisInRange(vx, rect.width);
    NormalizedAxisInRange(vy, rect.height);
    var shown := Point(NormalizedAxis(vx, rect.width), NormalizedAxis(vy, rect.height));
    PointRoundTrip(rnd, ViewPoint(vx, vy, rect), size);
    CropShowsSource(pixels, size, rect, shown, k);
  }

  /** Zooming into the whole image and clicking there is the same as clicking the image directly. */
  lemma WholeImageZoomIsDirectClick(rnd: real -> real, size: PixelSize, vx: nat, vy: nat)
    requires Rounding(rnd) && Sized(size) && 0 < size.width && 0 < size.height && vx <= 1000 && vy <= 1000
    ensures NormalizedRegion(0, 0, 1000, 1000, size) == Some(Rect(0, 0, size.width, size.height))
    ensures ToPixel(rnd, NormalizedPoint(vx as real, vy as real), size) ==
            Some(ViewPoint(vx, vy, Rect(0, 0, size.width, size.height)))
  {
    EdgesCover(0, 1000, size.width);
    EdgesCover(0, 1000, size.height);
    hide Rounding, NormalizedAxis, ToPixelAxis;
    NormalizedAxisInRange(vx, size.width);
    NormalizedAxisInRange(vy, size.height);
    ToPixelAgreesWithIntegerPath(rnd, vx, size.width);
    ToPixelAgreesWithIntegerPath(rnd, vy, size.height);
  }
}
