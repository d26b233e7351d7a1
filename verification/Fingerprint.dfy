/**
 Visual fingerprints: a capture is reduced to 32 by 32 luma samples, printed with a digest of the
 window geometry, and later compared with tolerances.
 */
module Fingerprint {
  import opened Common

  const GRID: nat := 32
  const MAX_AVERAGE_DIFFERENCE: nat := 8
  const MATERIAL_DIFFERENCE: nat := 24
  const MATERIAL_DENOMINATOR: nat := 5
  const MAX_PIXELS: nat := 16_777_216

  datatype Image = Image(width: nat, height: nat, pixels: seq<Byte>)

  function Min(a: int, b: int): int {
    if a < b then a else b
  }

  function SampleCoordinate(index: nat, dimension: nat): nat {
    Min((index * dimension + GRID / 2) / GRID, SaturatingSub(dimension, 1))
  }

  /** Samples are inside the image, and sampling a grid-sized image takes every pixel as it is. */
  lemma SampleInside(index: nat, dimension: nat)
    requires dimension > 0
    ensures SampleCoordinate(index, dimension) < dimension
    ensures dimension == GRID && index < GRID ==> SampleCoordinate(index, dimension) == index
  {
    assert index * GRID == GRID * index;
  }

  /** The sample is the pixel nearest to its share of the axis, or the last one. */
  lemma SampleNearest(index: nat, dimension: nat)
    requires dimension > 0
    ensures var at := 32 * SampleCoordinate(index, dimension);
      || at - 16 <= index * dimension < at + 16
      || (SampleCoordinate(index, dimension) == dimension - 1 && at + 16 <= index * dimension)
  {
  }

  function Luma(r: Byte, g: Byte, b: Byte): Byte {
    (r as int * 54 + g as int * 183 + b as int * 19) / 256
  }

  /** A weighted mean rounded down, so a grey pixel has its own value; green counts most and blue least. */
  lemma LumaIsMean(r: Byte, g: Byte, b: Byte)
    ensures var luma := Luma(r, g, b) as int;
      256 * luma <= 54 * r as int + 183 * g as int + 19 * b as int < 256 * luma + 256
    ensures r == g == b ==> Luma(r, g, b) == r
  {
  }

  /** Row-by-row position of a pixel. */
  function Position(width: nat, x: nat, y: nat): nat {
    y * width + x
  }

  /** The luma of the pixel at (x, y), or of black where the buffer does not reach. */
  function LumaAt(image: Image, x: nat, y: nat): Byte {
    var index := Position(image.width, x, y) * 4;
    if index + 3 <= |image.pixels|
    then Luma(image.pixels[index], image.pixels[index + 1], image.pixels[index + 2])
    else Luma(0, 0, 0)
  }

  function Sample(image: Image, gridX: nat, gridY: nat): Byte {
    LumaAt(image, SampleCoordinate(gridX, image.width), SampleCoordinate(gridY, image.height))
  }

  function Signature(image: Image): (signature: seq<Byte>)
    ensures |signature| == if image.width == 0 || image.height == 0 then 0 else GRID * GRID
  {
    if image.width == 0 || image.height == 0 then []
    else seq(GRID * GRID, i requires 0 <= i < GRID * GRID => Sample(image, i % GRID, i / GRID))
  }

  method VisualSignature(image: Image) returns (signature: seq<Byte>)
    ensures signature == Signature(image)
  {
    if image.width == 0 || image.height == 0 { return []; }
    signature := [];
    for gridY := 0 to GRID
      invariant |signature| == gridY * GRID && signature == Signature(image)[..gridY * GRID]
    {
      var y := SampleCoordinate(gridY, image.height);
      for gridX := 0 to GRID
        invariant |signature| == gridY * GRID + gridX && signature == Signature(image)[..gridY * GRID + gridX]
      {
        var x := SampleCoordinate(gridX, image.width);
        var i := gridY * GRID + gridX;
        assert i % GRID == gridX && i / GRID == gridY;
        assert Signature(image)[..i + 1] == Signature(image)[..i] + [Signature(image)[i]];
        signature := signature + [LumaAt(image, x, y)];
      }
    }
    assert Signature(image)[..GRID * GRID] == Signature(image);
  }

  /** Each byte of a signature is the mean of the pixel sampled for it, read row by row. */
  lemma SignatureExactly(image: Image, gridX: nat, gridY: nat, x: nat, y: nat, o: nat)
    requires Complete(image) && gridX < 32 && gridY < 32
    requires x == SampleCoordinate(gridX, image.width) && y == SampleCoordinate(gridY, image.height)
    requires o == (y * image.width + x) * 4
    ensures |Signature(image)| == 1024 && o + 4 <= |image.pixels|
    ensures var luma := Signature(image)[gridY * 32 + gridX] as int;
      256 * luma <= 54 * image.pixels[o] as int + 183 * image.pixels[o + 1] as int + 19 * image.pixels[o + 2] as int
                 < 256 * luma + 256
  {
    hide *;
    SignatureAt(image, gridX, gridY);
    SampledPixelInside(image, gridX, gridY, x, y, o);
    SampleIs(image, gridX, gridY, x, y, o);
    LumaIsMean(image.pixels[o], image.pixels[o + 1], image.pixels[o + 2]);
  }

  lemma SampleIs(image: Image, gridX: nat, gridY: nat, x: nat, y: nat, o: nat)
    requires x == SampleCoordinate(gridX, image.width) && y == SampleCoordinate(gridY, image.height)
    requires o == (y * image.width + x) * 4 && o + 4 <= |image.pixels|
    ensures Sample(image, gridX, gridY) == Luma(image.pixels[o], image.pixels[o + 1], image.pixels[o + 2])
  {
    hide Luma, SampleCoordinate;
  }

  lemma SampledPixelInside(image: Image, gridX: nat, gridY: nat, x: nat, y: nat, o: nat)
    requires Complete(image)
    requires x == SampleCoordinate(gridX, image.width) && y == SampleCoordinate(gridY, image.height)
    requires o == (y * image.width + x) * 4
    ensures o + 4 <= |image.pixels|
  {
    SampleInside(gridX, image.width);
    SampleInside(gridY, image.height);
    hide SampleCoordinate;
    Row(image.width, x, y, image.height);
    PixelsBefore(y * image.width + x, image.width, image.height, image.height * image.width);
  }

  lemma PixelsBefore(p: nat, width: nat, height: nat, n: nat)
    requires n == height * width && p < n
    ensures p * 4 + 4 <= width * height * 4
  {
    assert width * height == n;
  }

  lemma SignatureAt(image: Image, gridX: nat, gridY: nat)
    requires Complete(image) && gridX < 32 && gridY < 32
    ensures |Signature(image)| == 1024 && gridY * 32 + gridX < 1024
    ensures Signature(image)[gridY * 32 + gridX] == Sample(image, gridX, gridY)
  {
    hide Sample;
    var i := gridY * 32 + gridX;
    assert i % GRID == gridX && i / GRID == gridY;
  }

  /** Where the buffer does not reach, the signature is black. */
  lemma MissingIsBlack(image: Image, x: nat, y: nat)
    requires (y * image.width + x) * 4 + 3 > |image.pixels|
    ensures LumaAt(image, x, y) == 0
  {
  }

  /** A locked capture buffer: rows of `pitch` bytes, four bytes a pixel in the order blue, green, red, alpha. */
  datatype Buffer = Buffer(width: nat, height: nat, pitch: nat, data: seq<Byte>)

  ghost predicate Locked(buffer: Buffer) {
    && buffer.width > 0 && buffer.height > 0 && buffer.pitch >= buffer.width * 4
    && |buffer.data| >= buffer.height * buffer.pitch
  }

  function Unmultiplied(channel: Byte, alpha: Byte): Byte
    requires alpha != 0
  {
    Min(channel as int * 255 / alpha as int, 255)
  }

  /** Undoes premultiplied alpha. */
  function Straight(channel: Byte, alpha: Byte): Byte {
    if alpha == 0 || alpha == 255 then channel else Unmultiplied(channel, alpha)
  }

  /** Opaque and fully transparent pixels stay; else the channel over alpha, in 255ths, rounded down and clipped. */
  lemma StraightExactly(channel: Byte, alpha: Byte)
    ensures alpha == 0 || alpha == 255 ==> Straight(channel, alpha) == channel
    ensures 0 < alpha < 255 && channel <= alpha ==>
      Straight(channel, alpha) as int * alpha as int <= channel as int * 255 <
        (Straight(channel, alpha) as int + 1) * alpha as int
    ensures 0 < alpha < 255 && channel > alpha ==> Straight(channel, alpha) == 255
  {
    if 0 < alpha < 255 {
      var c, a := channel as int * 255, alpha as int;
      assert c / a * a <= c < c / a * a + a;
      if channel <= alpha {
        assert c <= 255 * a;
        Quotient(c, a, 255);
      } else {
        assert c >= 255 * a;
        Quotient(c, a, 255);
      }
    }
  }

  lemma Quotient(c: nat, a: nat, n: nat)
    requires a > 0
    ensures c <= n * a ==> c / a <= n
    ensures c >= n * a ==> c / a >= n
  {
    var q := c / a;
    assert q * a <= c < q * a + a;
    if q > n { Times(n + 1, q, a); }
    if q < n { Times(q + 1, n, a); }
  }

  lemma Times(m: nat, n: nat, a: nat)
    requires m <= n
    ensures m * a <= n * a
  {
  }

  function Offset(buffer: Buffer, x: nat, y: nat): nat {
    y * buffer.pitch + x * 4
  }

  lemma PixelInside(buffer: Buffer, x: nat, y: nat)
    requires Locked(buffer) && x < buffer.width && y < buffer.height
    ensures Offset(buffer, x, y) + 4 <= |buffer.data|
  {
    assert (y + 1) * buffer.pitch <= buffer.height * buffer.pitch;
    assert (y + 1) * buffer.pitch == y * buffer.pitch + buffer.pitch;
  }

  /** The straight RGBA pixel at (x, y). */
  ghost function Captured(buffer: Buffer, x: nat, y: nat): (rgba: seq<Byte>)
    requires Locked(buffer) && x < buffer.width && y < buffer.height
    ensures |rgba| == 4
  {
    PixelInside(buffer, x, y);
    var o := Offset(buffer, x, y);
    var alpha := buffer.data[o + 3];
    [Straight(buffer.data[o + 2], alpha), Straight(buffer.data[o + 1], alpha), Straight(buffer.data[o], alpha), alpha]
  }

  /** `image` is the capture: every pixel of it, or the grid of samples when only the signature is wanted. */
  ghost predicate Captures(buffer: Buffer, sampled: bool, image: Image)
    requires Locked(buffer)
  {
    && image.width == (if sampled then GRID else buffer.width)
    && image.height == (if sampled then GRID else buffer.height)
    && |image.pixels| == image.width * image.height * 4
    && forall x, y | 0 <= x < image.width && 0 <= y < image.height :: Shows(buffer, sampled, image, x, y)
  }

  /** A whole capture has every pixel of the buffer in its place, with red and blue exchanged. */
  lemma CaptureExactly(buffer: Buffer, image: Image, x: nat, y: nat, o: nat, i: nat)
    requires Locked(buffer) && Captures(buffer, false, image) && x < buffer.width && y < buffer.height
    requires o == (y * buffer.width + x) * 4 && i == y * buffer.pitch + x * 4
    ensures image.width == buffer.width && image.height == buffer.height
    ensures o + 4 <= |image.pixels| && i + 4 <= |buffer.data|
    ensures var alpha := buffer.data[i + 3];
      && image.pixels[o + 3] == alpha && image.pixels[o] == Straight(buffer.data[i + 2], alpha)
      && image.pixels[o + 1] == Straight(buffer.data[i + 1], alpha)
      && image.pixels[o + 2] == Straight(buffer.data[i], alpha)
  {
    hide Straight;
    assert Shows(buffer, false, image, x, y);
    PixelInside(buffer, x, y);
    FourBytes(image.pixels, o, Captured(buffer, x, y));
  }

  lemma FourBytes(pixels: seq<Byte>, o: nat, rgba: seq<Byte>)
    requires o + 4 <= |pixels| && |rgba| == 4 && pixels[o..o + 4] == rgba
    ensures pixels[o] == rgba[0] && pixels[o + 1] == rgba[1] && pixels[o + 2] == rgba[2] && pixels[o + 3] == rgba[3]
  {
  }

  function Source(sampled: bool, index: nat, dimension: nat): nat {
    if sampled then SampleCoordinate(index, dimension) else index
  }

  ghost predicate Shows(buffer: Buffer, sampled: bool, image: Image, x: nat, y: nat)
    requires Locked(buffer)
  {
    var o := Position(image.width, x, y) * 4;
    var sx, sy := Source(sampled, x, buffer.width), Source(sampled, y, buffer.height);
    && o + 4 <= |image.pixels| && sx < buffer.width && sy < buffer.height
    && image.pixels[o..o + 4] == Captured(buffer, sx, sy)
  }

  ghost predicate Complete(image: Image) {
    image.width > 0 && image.height > 0 && |image.pixels| == image.width * image.height * 4
  }

  /** The four bytes of one pixel. */
  ghost function Pixel(image: Image, x: nat, y: nat): Option<seq<Byte>> {
    var o := Position(image.width, x, y) * 4;
    if o + 4 <= |image.pixels| then Some(image.pixels[o..o + 4]) else None
  }

  lemma PixelLuma(image: Image, x: nat, y: nat)
    ensures Pixel(image, x, y).Some? ==>
      var p := Pixel(image, x, y).value; |p| == 4 && LumaAt(image, x, y) == Luma(p[0], p[1], p[2])
  {
    hide Position, Luma;
  }

  lemma PixelOfComplete(image: Image, x: nat, y: nat)
    requires Complete(image) && x < image.width && y < image.height
    ensures Pixel(image, x, y).Some?
  {
    Row(image.width, x, y, image.height);
  }

  /** `small` is the 32 by 32 sampling of `full`. */
  ghost predicate Samples(full: Image, small: Image) {
    && small.width == GRID && small.height == GRID && Complete(small)
    && forall x, y | 0 <= x < GRID && 0 <= y < GRID ::
         Pixel(small, x, y) == Pixel(full, SampleCoordinate(x, full.width), SampleCoordinate(y, full.height))
  }

  ghost function SampledByte(full: Image, x: nat, y: nat, c: nat): Byte {
    var p := Pixel(full, SampleCoordinate(x, full.width), SampleCoordinate(y, full.height));
    if p.Some? && c < |p.value| then p.value[c] else 0
  }

  ghost function Sampling(full: Image): Image {
    Image(GRID, GRID, seq(GRID * GRID * 4, i requires 0 <= i < GRID * GRID * 4 =>
      SampledByte(full, i / 4 % GRID, i / 4 / GRID, i % 4)))
  }

  lemma SamplingByte(full: Image, x: nat, y: nat, c: nat)
    requires x < GRID && y < GRID && c < 4
    ensures Sampling(full).width == GRID && |Sampling(full).pixels| == GRID * GRID * 4
    ensures Position(GRID, x, y) * 4 + 4 <= GRID * GRID * 4
    ensures var i := Position(GRID, x, y) * 4 + c;
      i < GRID * GRID * 4 && Sampling(full).pixels[i] == SampledByte(full, x, y, c)
  {
    hide SampledByte;
    var i := Position(GRID, x, y) * 4 + c;
    assert i / 4 % GRID == x && i / 4 / GRID == y && i % 4 == c;
  }

  lemma SamplingPixel(full: Image, x: nat, y: nat)
    requires Complete(full) && x < GRID && y < GRID
    ensures Pixel(Sampling(full), x, y) ==
      Pixel(full, SampleCoordinate(x, full.width), SampleCoordinate(y, full.height))
  {
    hide Position, SampleCoordinate, Pixel, Sampling;
    var sx, sy := SampleCoordinate(x, full.width), SampleCoordinate(y, full.height);
    SampleInside(x, full.width);
    SampleInside(y, full.height);
    PixelOfComplete(full, sx, sy);
    SamplingByte(full, x, y, 3);
    PixelBytes(Sampling(full), x, y);
    PixelBytes(full, sx, sy);
    var p, q := Pixel(Sampling(full), x, y).value, Pixel(full, sx, sy).value;
    forall c | 0 <= c < 4 ensures p[c] == q[c] { SamplingByte(full, x, y, c); }
    assert p == q;
  }

  lemma PixelBytes(image: Image, x: nat, y: nat)
    ensures var o := Position(image.width, x, y) * 4;
      && (Pixel(image, x, y).Some? <==> o + 4 <= |image.pixels|)
      && (Pixel(image, x, y).Some? ==>
            && |Pixel(image, x, y).value| == 4
            && forall c :: 0 <= c < 4 ==> Pixel(image, x, y).value[c] == image.pixels[o + c])
  {
    hide Position;
  }

  /** Every complete image has one. */
  lemma SamplingExists(full: Image)
    requires Complete(full)
    ensures Samples(full, Sampling(full))
  {
    hide Pixel, SampleCoordinate, SampledByte;
    forall x, y | 0 <= x < GRID && 0 <= y < GRID
      ensures Pixel(Sampling(full), x, y) ==
        Pixel(full, SampleCoordinate(x, full.width), SampleCoordinate(y, full.height))
    {
      SamplingPixel(full, x, y);
    }
  }

  /** The signature of any complete frame is the signature of its 32 by 32 sampling. */
  lemma SampledSameSignature(full: Image, small: Image)
    requires Complete(full) && Samples(full, small)
    ensures Signature(small) == Signature(full) && |Signature(full)| == GRID * GRID
  {
    hide Pixel, Luma, LumaAt;
    forall gridX, gridY | 0 <= gridX < GRID && 0 <= gridY < GRID
      ensures Sample(small, gridX, gridY) == Sample(full, gridX, gridY)
    {
      SampleInside(gridX, GRID);
      SampleInside(gridY, GRID);
      var x, y := SampleCoordinate(gridX, full.width), SampleCoordinate(gridY, full.height);
      PixelLuma(small, gridX, gridY);
      PixelLuma(full, x, y);
      PixelOfComplete(small, gridX, gridY);
    }
    forall i | 0 <= i < GRID * GRID ensures Signature(small)[i] == Signature(full)[i] {
      assert Sample(small, i % GRID, i / GRID) == Sample(full, i % GRID, i / GRID);
    }
  }

  /** Copying only the samples out of the capture queue loses nothing the signature looks at. */
  lemma SampledCaptureSameSignature(buffer: Buffer, full: Image, small: Image)
    requires Locked(buffer) && Captures(buffer, false, full) && Captures(buffer, true, small)
    ensures Samples(full, small) && Signature(small) == Signature(full)
  {
    forall x, y | 0 <= x < GRID && 0 <= y < GRID
      ensures Pixel(small, x, y) == Pixel(full, SampleCoordinate(x, full.width), SampleCoordinate(y, full.height))
    {
      SampleInside(x, buffer.width);
      SampleInside(y, buffer.height);
      hide SampleCoordinate, Position, Captured;
      assert Shows(buffer, true, small, x, y);
      assert Shows(buffer, false, full, SampleCoordinate(x, buffer.width), SampleCoordinate(y, buffer.height));
    }
    SampledSameSignature(full, small);
  }

  /** One pixel of the copy: reordered to RGBA, then unmultiplied channel by channel. */
  method WritePixel(a: array<Byte>, o: nat, b: Byte, g: Byte, r: Byte, alpha: Byte)
    requires o + 4 <= a.Length
    modifies a
    ensures a[o..o + 4] == [Straight(r, alpha), Straight(g, alpha), Straight(b, alpha), alpha]
    ensures a[..o] == old(a[..o]) && a[o + 4..] == old(a[o + 4..])
  {
    hide Unmultiplied;
    a[o], a[o + 1], a[o + 2], a[o + 3] := r, g, b, alpha;
    if alpha != 0 && alpha != 255 {
      for c := 0 to 3
        invariant a[o + 3] == alpha
        invariant a[o] == (if 0 < c then Straight(r, alpha) else r)
        invariant a[o + 1] == (if 1 < c then Straight(g, alpha) else g)
        invariant a[o + 2] == (if 2 < c then Straight(b, alpha) else b)
        invariant forall i :: 0 <= i < a.Length && !(o <= i < o + 4) ==> a[i] == old(a[i])
      {
        a[o + c] := Unmultiplied(a[o + c], alpha);
      }
    }
  }

  lemma Row(width: nat, x: nat, y: nat, y': nat)
    requires x < width && y < y'
    ensures y * width + x < y' * width
  {
    assert (y + 1) * width <= y' * width;
    assert (y + 1) * width == y * width + width;
  }

  /** Every pixel before position `n` of the row-by-row order is shown. */
  ghost predicate ShownBefore(buffer: Buffer, sampled: bool, image: Image, n: nat)
    requires Locked(buffer)
  {
    forall x, y | 0 <= x < image.width && 0 <= y < image.height && Position(image.width, x, y) < n ::
      Shows(buffer, sampled, image, x, y)
  }

  lemma StaysShown(buffer: Buffer, sampled: bool, image: Image, pixels: seq<Byte>, x: nat, y: nat, o: nat)
    requires Locked(buffer) && Shows(buffer, sampled, image, x, y)
    requires Position(image.width, x, y) * 4 + 4 <= o <= |image.pixels|
    requires |pixels| == |image.pixels| && pixels[..o] == image.pixels[..o]
    ensures Shows(buffer, sampled, image.(pixels := pixels), x, y)
  {
    hide Position, Captured, SampleCoordinate, Locked;
    var p := Position(image.width, x, y) * 4;
    assert pixels[p..p + 4] == pixels[..o][p..p + 4] == image.pixels[..o][p..p + 4] == image.pixels[p..p + 4];
  }

  lemma SamePosition(width: nat, x: nat, y: nat, x': nat, y': nat)
    requires x < width && x' < width && Position(width, x, y) == Position(width, x', y')
    ensures x == x' && y == y'
  {
    if y < y' { Row(width, x, y, y'); } else if y' < y { Row(width, x', y', y); }
  }

  lemma OneMoreShown(buffer: Buffer, sampled: bool, image: Image, x: nat, y: nat, n: nat, pixels: seq<Byte>)
    requires Locked(buffer) && x < image.width && n == Position(image.width, x, y) && n * 4 + 4 <= |image.pixels|
    requires ShownBefore(buffer, sampled, image, n)
    requires |pixels| == |image.pixels| && pixels[..n * 4] == image.pixels[..n * 4]
    requires Shows(buffer, sampled, image.(pixels := pixels), x, y)
    ensures ShownBefore(buffer, sampled, image.(pixels := pixels), n + 1)
  {
    var image' := image.(pixels := pixels);
    forall x', y' | 0 <= x' < image.width && 0 <= y' < image.height && Position(image.width, x', y') < n + 1
      ensures Shows(buffer, sampled, image', x', y')
    {
      hide Shows, Position;
      var n' := Position(image.width, x', y');
      if n' < n {
        assert Shows(buffer, sampled, image, x', y');
        StaysShown(buffer, sampled, image, pixels, x', y', n * 4);
      } else {
        SamePosition(image.width, x, y, x', y');
      }
    }
  }

  lemma ShownNone(buffer: Buffer, sampled: bool, image: Image)
    requires Locked(buffer)
    ensures ShownBefore(buffer, sampled, image, 0)
  {
    hide Position, Shows;
  }

  lemma ShownAll(buffer: Buffer, sampled: bool, image: Image)
    requires Locked(buffer) && ShownBefore(buffer, sampled, image, image.height * image.width)
    ensures forall x, y | 0 <= x < image.width && 0 <= y < image.height :: Shows(buffer, sampled, image, x, y)
  {
    forall x, y | 0 <= x < image.width && 0 <= y < image.height ensures Shows(buffer, sampled, image, x, y) {
      Row(image.width, x, y, image.height);
    }
  }

  /** Where the pixel for one grid position lies, and that it is inside the buffer. */
  method Locate(buffer: Buffer, sampled: bool, column: nat, row: nat) returns (x: nat, y: nat, from: nat)
    requires Locked(buffer) && (!sampled ==> column < buffer.width && row < buffer.height)
    ensures x == Source(sampled, column, buffer.width) < buffer.width
    ensures y == Source(sampled, row, buffer.height) < buffer.height
    ensures from == Offset(buffer, x, y) && from + 4 <= |buffer.data|
    ensures var alpha := buffer.data[from + 3];
      Captured(buffer, x, y) ==
      [Straight(buffer.data[from + 2], alpha), Straight(buffer.data[from + 1], alpha),
       Straight(buffer.data[from], alpha), alpha]
  {
    hide SampleCoordinate, Straight, Offset;
    assert buffer.width > 0 && buffer.height > 0;
    SampleInside(row, buffer.height);
    SampleInside(column, buffer.width);
    y := if sampled then SampleCoordinate(row, buffer.height) else row;
    x := if sampled then SampleCoordinate(column, buffer.width) else column;
    PixelInside(buffer, x, y);
    from := Offset(buffer, x, y);
  }

  method CopyPixel(
    a: array<Byte>, buffer: Buffer, sampled: bool, width: nat, height: nat, column: nat, row: nat, ghost n: nat)
    requires Locked(buffer) && column < width && row < height
    requires n == Position(width, column, row) && n * 4 + 4 <= a.Length
    requires width == (if sampled then GRID else buffer.width) && height == (if sampled then GRID else buffer.height)
    requires ShownBefore(buffer, sampled, Image(width, height, a[..]), n)
    modifies a
    ensures ShownBefore(buffer, sampled, Image(width, height, a[..]), n + 1)
  {
    hide ShownBefore, Source, Locked, Captured, Straight, Offset, Position;
    ghost var before := Image(width, height, a[..]);
    var x, y, from := Locate(buffer, sampled, column, row);
    var offset := Position(width, column, row) * 4;
    WritePixel(a, offset, buffer.data[from], buffer.data[from + 1], buffer.data[from + 2], buffer.data[from + 3]);
    ghost var pixels := a[..];
    assert pixels[offset..offset + 4] == a[offset..offset + 4];
    assert pixels[..offset] == a[..offset] == before.pixels[..offset];
    OneMoreShown(buffer, sampled, before, column, row, n, pixels);
  }

  /**
   Copies a capture out of its buffer, or nothing for a buffer that is empty, too large or too narrow.
   `readable` is false for a foreign format or a failed lock.
   */
  method CopyBuffer(buffer: Buffer, readable: bool, sampled: bool) returns (r: Option<Image>)
    requires |buffer.data| >= buffer.height * buffer.pitch
    ensures r.Some? <==>
      && readable && buffer.width > 0 && buffer.height > 0 && buffer.width * buffer.height <= 16_777_216
      && buffer.pitch >= buffer.width * 4
    ensures r.Some? ==> Locked(buffer) && Captures(buffer, sampled, r.value)
  {
    hide Captures;
    if !readable { return None; }
    if buffer.width == 0 || buffer.height == 0 || buffer.width * buffer.height * 4 > MAX_PIXELS * 4 { return None; }
    if buffer.pitch < buffer.width * 4 { return None; }
    var image := CopyCapture(buffer, sampled);
    r := Some(image);
  }

  /** The copying loops. */
  method CopyCapture(buffer: Buffer, sampled: bool) returns (image: Image)
    requires Locked(buffer)
    ensures Captures(buffer, sampled, image)
  {
    hide Shows, ShownBefore, Locked;
    var width := if sampled then GRID else buffer.width;
    var height := if sampled then GRID else buffer.height;
    var a := new Byte[width * height * 4];
    ShownNone(buffer, sampled, Image(width, height, a[..]));
    for row := 0 to height
      invariant ShownBefore(buffer, sampled, Image(width, height, a[..]), row * width)
    {
      ghost var start := row * width;
      for column := 0 to width
        invariant ShownBefore(buffer, sampled, Image(width, height, a[..]), start + column)
      {
        Row(width, column, row, height);
        CopyPixel(a, buffer, sampled, width, height, column, row, start + column);
      }
      assert (row + 1) * width == start + width;
    }
    image := Image(width, height, a[..]);
    ShownAll(buffer, sampled, image);
  }
}
