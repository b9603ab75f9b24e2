/** Strided frames in host memory: validation, luma, and the view through a scope rectangle. */
module Frames {
  import opened Statuses
  import opened Rasters

  const MAXIMUM_WIDTH := 1024
  const MAXIMUM_HEIGHT := 1024

  datatype PixelFormat = R8 | BGRA8 | RGBA8 | BGRX8 | OtherFormat

  function BytesPerPixel(format: PixelFormat): nat {
    match format
    case R8 => 1
    case BGRA8 | RGBA8 | BGRX8 => 4
    case OtherFormat => 0
  }

  /** `data` is the memory from the view's first byte to the end of the host buffer. */
  datatype FrameView = FrameView(
    present: bool, data: seq<Byte>, width: U32, height: U32, rowStride: U32, format: PixelFormat, frameId: U64)
  {
    predicate Addressable() { |data| < U64_LIMIT }

    function PixelOffset(x: nat, y: nat): nat {
      y * rowStride + x * BytesPerPixel(format)
    }

    /** Every pixel lies inside the buffer, whatever the frame's size: what the
        runtime's import check establishes for each frame it hands to a provider. */
    ghost predicate Fits() {
      forall x, y | 0 <= x < width && 0 <= y < height :: PixelOffset(x, y) + BytesPerPixel(format) <= |data|
    }
  }

  /** The checks in the code's order, for a frame said to have `size` bytes. Sizes are 64-bit, so each guard against
      wrap-around stands as written. */
  function ValidateSized(f: FrameView, size: nat): Status {
    var pixelSize := BytesPerPixel(f.format);
    if !f.present || size == 0 || f.width == 0 || f.height == 0 ||
       f.width > MAXIMUM_WIDTH || f.height > MAXIMUM_HEIGHT || pixelSize == 0 || f.frameId == 0 then InvalidArgument
    else if f.width > (U64_LIMIT - 1) / pixelSize then InvalidArgument
    else
      var rowBytes := f.width * pixelSize;
      if f.rowStride < rowBytes then InvalidArgument
      else if f.height - 1 > (U64_LIMIT - 1 - rowBytes) / f.rowStride then InvalidArgument
      else if (f.height - 1) * f.rowStride + rowBytes <= size then Ok else InvalidArgument
  }

  function ValidateFrame(f: FrameView): Status { ValidateSized(f, |f.data|) }

  lemma OffsetMonotone(f: FrameView, x: nat, y: nat, x': nat, y': nat)
    requires x <= x' && y <= y'
    ensures f.PixelOffset(x, y) <= f.PixelOffset(x', y')
  {
    ProductBelow(y, f.rowStride, y', f.rowStride);
    ProductBelow(x, BytesPerPixel(f.format), x', BytesPerPixel(f.format));
  }

  lemma ProductBelow(a: nat, b: nat, m: nat, n: nat)
    requires a <= m && b <= n
    ensures a * b <= m * n
  {
    assert m * n == m * b + m * (n - b);
    assert m * b == a * b + (m - a) * b;
  }

  /** The wrap-around guards never fire. */
  lemma SizesDoNotWrap(f: FrameView)
    requires f.width <= MAXIMUM_WIDTH && 0 < f.height <= MAXIMUM_HEIGHT && f.rowStride > 0
    ensures f.width * BytesPerPixel(f.format) <= 4096
    ensures f.height - 1 <= (U64_LIMIT - 1 - f.width * BytesPerPixel(f.format)) / f.rowStride
    ensures (f.height - 1) * f.rowStride + f.width * BytesPerPixel(f.format) < U64_LIMIT
  {
    var room := U64_LIMIT - 1 - f.width * BytesPerPixel(f.format);
    var product := (f.height - 1) * f.rowStride;
    ProductBelow(f.height - 1, f.rowStride, 1023, U32_LIMIT);
    assert product <= room;
    DivisionAdmits(f.height - 1, f.rowStride, room);
  }

  lemma DivisionAdmits(a: nat, b: nat, room: nat)
    requires b > 0 && a * b <= room
    ensures a <= room / b
  {
    var q := room / b;
    assert room < (q + 1) * b;
    assert (q + 1 - a) * b == (q + 1) * b - a * b;
    if q + 1 - a <= 0 {
      ProductBelow(0, b, a - q - 1, b);
    }
  }

  /** A frame is accepted exactly when it is within the size limits, has a known format and a
      frame id, its rows do not overlap, and every pixel lies inside the buffer. */
  lemma ValidateFrameExact(f: FrameView)
    ensures ValidateFrame(f) == Ok <==>
            && f.present && 0 < f.width <= 1024 && 0 < f.height <= 1024
            && f.format != OtherFormat && f.frameId != 0
            && f.rowStride >= f.width * BytesPerPixel(f.format)
            && f.Fits()
    ensures ValidateFrame(f) in {Ok, InvalidArgument}
  {
    var pixelSize := BytesPerPixel(f.format);
    if 0 < f.width <= MAXIMUM_WIDTH && 0 < f.height <= MAXIMUM_HEIGHT && pixelSize > 0 &&
       f.rowStride >= f.width * pixelSize
    {
      assert f.width * pixelSize == (f.width - 1) * pixelSize + pixelSize;
      SizesDoNotWrap(f);
      var required := (f.height - 1) * f.rowStride + f.width * pixelSize;
      assert required == f.PixelOffset(f.width - 1, f.height - 1) + pixelSize;
      if required <= |f.data| {
        forall x, y | 0 <= x < f.width && 0 <= y < f.height
          ensures f.PixelOffset(x, y) + pixelSize <= |f.data|
        {
          OffsetMonotone(f, x, y, f.width - 1, f.height - 1);
        }
      }
    }
  }

  function Luma(red: Byte, green: Byte, blue: Byte): (luma: Byte) {
    (77 * red + 150 * green + 29 * blue + 128) / 256
  }

  function PixelLuma(f: FrameView, x: nat, y: nat): (luma: Byte)
    requires BytesPerPixel(f.format) > 0
    requires f.PixelOffset(x, y) + BytesPerPixel(f.format) <= |f.data|
  {
    var at := f.PixelOffset(x, y);
    if f.format == R8 then f.data[at]
    else if f.format == RGBA8 then Luma(f.data[at], f.data[at + 1], f.data[at + 2])
    else Luma(f.data[at + 2], f.data[at + 1], f.data[at])
  }

  lemma LumaRounds(red: Byte, green: Byte, blue: Byte)
    ensures -128 <= 77 * red + 150 * green + 29 * blue - 256 * Luma(red, green, blue) < 128
  {
  }

  /** What the luma of a pixel is: the byte itself in R8; in the four-byte formats (77 R + 150 G + 29 B) / 256 rounded
      to the nearest, where the bytes are R, G, B, A in RGBA8 and B, G, R, A or X in the other two. */
  lemma PixelLumaExactly(f: FrameView, x: nat, y: nat)
    requires BytesPerPixel(f.format) > 0
    requires f.PixelOffset(x, y) + BytesPerPixel(f.format) <= |f.data|
    ensures f.format == R8 ==> 0 <= y * f.rowStride + x < |f.data|
                               && PixelLuma(f, x, y) == f.data[y * f.rowStride + x]
    ensures f.format != R8 ==>
              var at := y * f.rowStride + 4 * x;
              && 0 <= at && at + 4 <= |f.data|
              && var first, green, third := f.data[at], f.data[at + 1], f.data[at + 2];
                 var red := if f.format == RGBA8 then first else third;
                 var blue := if f.format == RGBA8 then third else first;
                 -128 <= 77 * red + 150 * green + 29 * blue - 256 * PixelLuma(f, x, y) < 128
  {
    hide Luma;
    var at := f.PixelOffset(x, y);
    if f.format == R8 {
      assert at == y * f.rowStride + x;
    } else {
      assert at == y * f.rowStride + 4 * x;
      LumaRounds(f.data[at], f.data[at + 1], f.data[at + 2]);
      LumaRounds(f.data[at + 2], f.data[at + 1], f.data[at]);
    }
  }

  /** A grey pixel's luma is its grey value. */
  lemma GreyIsLuma(v: Byte)
    ensures Luma(v, v, v) == v
  {
  }

  // ---------------------------------------------------------------- the picture a frame shows

  ghost function RowOf(f: FrameView, y: nat): seq<int>
    requires f.Fits() && BytesPerPixel(f.format) > 0 && y < f.height
  {
    seq(f.width, x requires 0 <= x < f.width => PixelLuma(f, x, y))
  }

  ghost function ImageOf(f: FrameView, threshold: Byte): (r: Image)
    requires f.Fits() && BytesPerPixel(f.format) > 0
    ensures r.width == f.width && r.height == f.height && r.threshold == threshold
    ensures forall x, y | 0 <= x < f.width && 0 <= y < f.height :: r.luma[y][x] == PixelLuma(f, x, y)
  {
    Raster(f.width, f.height, seq(f.height, y requires 0 <= y < f.height => RowOf(f, y)), threshold)
  }

  datatype Rect = Rect(x: I32, y: I32, width: I32, height: I32)

  predicate InsideFrame(scope: Rect, f: FrameView) {
    && 0 <= scope.x && 0 <= scope.y && 0 < scope.width && 0 < scope.height
    && scope.x + scope.width <= f.width && scope.y + scope.height <= f.height
  }

  /** The view handed to the detector: the first byte moves to the scope's origin, the stride stays. */
  function ScopedView(f: FrameView, scope: Rect): FrameView
    requires InsideFrame(scope, f) && f.PixelOffset(scope.x, scope.y) <= |f.data|
  {
    f.(data := f.data[f.PixelOffset(scope.x, scope.y)..], width := scope.width, height := scope.height)
  }

  ghost predicate InsideImage(scope: Rect, r: Image) {
    && 0 <= scope.x && 0 <= scope.y && 0 < scope.width && 0 < scope.height
    && scope.x + scope.width <= r.width && scope.y + scope.height <= r.height
  }

  ghost function CropRow(r: Image, scope: Rect, y: nat): (row: seq<int>)
    requires InsideImage(scope, r) && y < scope.height
    ensures |row| == scope.width
    ensures forall x | 0 <= x < scope.width :: row[x] == r.luma[scope.y + y][scope.x + x] && 0 <= row[x] <= 255
  {
    seq(scope.width, x requires 0 <= x < scope.width => r.luma[scope.y + y][scope.x + x])
  }

  ghost function Crop(r: Image, scope: Rect): (c: Image)
    requires InsideImage(scope, r)
    ensures c.width == scope.width && c.height == scope.height && c.threshold == r.threshold
    ensures forall y | 0 <= y < c.height :: c.luma[y] == CropRow(r, scope, y)
  {
    Raster(scope.width, scope.height,
           seq(scope.height, y requires 0 <= y < scope.height => CropRow(r, scope, y)), r.threshold)
  }

  lemma ScopedOffset(f: FrameView, scope: Rect, x: nat, y: nat)
    requires InsideFrame(scope, f)
    ensures f.PixelOffset(scope.x + x, scope.y + y)
         == f.PixelOffset(scope.x, scope.y) + f.(width := scope.width, height := scope.height).PixelOffset(x, y)
  {
    assert (scope.y + y) * f.rowStride == scope.y * f.rowStride + y * f.rowStride;
    var p := BytesPerPixel(f.format);
    assert (scope.x + x) * p == scope.x * p + x * p;
  }

  lemma OffsetInside(f: FrameView, x: nat, y: nat)
    requires f.Fits() && x < f.width && y < f.height
    ensures f.PixelOffset(x, y) + BytesPerPixel(f.format) <= |f.data|
  {
  }

  lemma ScopedPixel(f: FrameView, scope: Rect, x: nat, y: nat)
    requires f.Fits() && BytesPerPixel(f.format) > 0 && InsideFrame(scope, f)
    requires x < scope.width && y < scope.height
    ensures f.PixelOffset(scope.x, scope.y) <= |f.data|
    ensures var view := ScopedView(f, scope);
            && view.PixelOffset(x, y) + BytesPerPixel(f.format) <= |view.data|
            && PixelLuma(view, x, y) == PixelLuma(f, scope.x + x, scope.y + y)
  {
    OffsetInside(f, scope.x, scope.y);
    OffsetInside(f, scope.x + x, scope.y + y);
    ScopedOffset(f, scope, x, y);
    var base, view := f.PixelOffset(scope.x, scope.y), ScopedView(f, scope);
    assert view.PixelOffset(x, y) == f.(width := scope.width, height := scope.height).PixelOffset(x, y);
    assert f.PixelOffset(scope.x + x, scope.y + y) == base + view.PixelOffset(x, y);
  }

  /** Looking through a scope shows exactly the cropped picture, and reads no byte outside the buffer. */
  lemma ScopeIsCrop(f: FrameView, scope: Rect, threshold: Byte)
    requires f.Fits() && BytesPerPixel(f.format) > 0 && InsideFrame(scope, f)
    ensures f.PixelOffset(scope.x, scope.y) <= |f.data|
    ensures ScopedView(f, scope).Fits()
    ensures ImageOf(ScopedView(f, scope), threshold) == Crop(ImageOf(f, threshold), scope)
  {
    OffsetInside(f, scope.x, scope.y);
    var view := ScopedView(f, scope);
    forall x, y | 0 <= x < scope.width && 0 <= y < scope.height
      ensures view.PixelOffset(x, y) + BytesPerPixel(f.format) <= |view.data|
      ensures PixelLuma(view, x, y) == PixelLuma(f, scope.x + x, scope.y + y)
    {
      ScopedPixel(f, scope, x, y);
    }
    SameRows(ImageOf(view, threshold), ImageOf(f, threshold), scope);
  }

  lemma SameRows(a: Image, r: Image, scope: Rect)
    requires InsideImage(scope, r)
    requires a.width == scope.width && a.height == scope.height && a.threshold == r.threshold
    requires forall x, y | 0 <= x < scope.width && 0 <= y < scope.height ::
               a.luma[y][x] == r.luma[scope.y + y][scope.x + x]
    ensures a == Crop(r, scope)
  {
    forall y | 0 <= y < scope.height ensures a.luma[y] == Crop(r, scope).luma[y] {
      assert a.luma[y] == CropRow(r, scope, y);
    }
  }

  /** Whatever the size of the frame, its view through a scope is accepted exactly when the scope is
      within the size limits: the buffer, stride and wrap-around checks cannot be what fails. */
  lemma ScopedViewAccepted(f: FrameView, scope: Rect)
    requires f.present && f.Fits() && BytesPerPixel(f.format) > 0 && f.frameId != 0 && InsideFrame(scope, f)
    requires f.rowStride >= f.width * BytesPerPixel(f.format)
    ensures f.PixelOffset(scope.x, scope.y) <= |f.data|
    ensures ValidateFrame(ScopedView(f, scope)) == Ok
       <==> scope.width <= MAXIMUM_WIDTH && scope.height <= MAXIMUM_HEIGHT
  {
    ScopeIsCrop(f, scope, 0);
    ValidateFrameExact(ScopedView(f, scope));
    var p := BytesPerPixel(f.format);
    assert f.width * p == scope.width * p + (f.width - scope.width) * p;
  }

  // ---------------------------------------------------------------- where a scope may start

  /** The number of bytes from the scope's first pixel to the end of the buffer, as a 64-bit difference. */
  function ScopedSize(f: FrameView, scope: Rect): U64
    requires InsideFrame(scope, f)
  {
    (|f.data| - f.PixelOffset(scope.x, scope.y)) % U64_LIMIT
  }

  predicate PixelInside(f: FrameView, x: nat, y: nat) {
    f.PixelOffset(x, y) + BytesPerPixel(f.format) <= |f.data|
  }

  ghost predicate ScopeReadsInside(f: FrameView, scope: Rect)
    requires InsideFrame(scope, f)
  {
    forall x, y | scope.x <= x < scope.x + scope.width && scope.y <= y < scope.y + scope.height :: PixelInside(f, x, y)
  }

  lemma OffsetIsSmall(f: FrameView, scope: Rect)
    requires InsideFrame(scope, f)
    ensures f.PixelOffset(scope.x, scope.y) < U64_LIMIT
  {
    ProductBelow(scope.y, f.rowStride, 0x7FFF_FFFF, 0xFFFF_FFFF);
  }

  lemma ScopeStartsInside(f: FrameView, scope: Rect)
    requires InsideFrame(scope, f) && f.PixelOffset(scope.x, scope.y) <= |f.data|
    requires ValidateFrame(ScopedView(f, scope)) == Ok
    ensures ScopeReadsInside(f, scope)
  {
    hide ValidateFrame;
    var view := ScopedView(f, scope);
    ValidateFrameExact(view);
    forall x, y | scope.x <= x < scope.x + scope.width && scope.y <= y < scope.y + scope.height
      ensures PixelInside(f, x, y)
    {
      ScopedOffset(f, scope, x - scope.x, y - scope.y);
      OffsetInside(view, x - scope.x, y - scope.y);
    }
  }

  /** When the scoped view is accepted, every pixel looked at through the scope is inside the buffer if and only if
      the scope's first pixel starts inside it: otherwise the size has wrapped around. Frames whose pixels all lie in
      their buffer always pass. */
  lemma ScopeReadsInsideExactly(f: FrameView, scope: Rect)
    requires f.Addressable() && InsideFrame(scope, f)
    requires ValidateSized(f.(width := scope.width, height := scope.height), ScopedSize(f, scope)) == Ok
    ensures ScopeReadsInside(f, scope) <==> f.PixelOffset(scope.x, scope.y) <= |f.data|
    ensures f.PixelOffset(scope.x, scope.y) <= |f.data| ==> ValidateFrame(ScopedView(f, scope)) == Ok
  {
    OffsetIsSmall(f, scope);
    if f.PixelOffset(scope.x, scope.y) <= |f.data| {
      SameSize(f, scope);
      ScopeStartsInside(f, scope);
    } else {
      assert !PixelInside(f, scope.x, scope.y);
    }
  }

  lemma SameSize(f: FrameView, scope: Rect)
    requires f.Addressable() && InsideFrame(scope, f) && f.PixelOffset(scope.x, scope.y) <= |f.data|
    ensures ValidateSized(f.(width := scope.width, height := scope.height), ScopedSize(f, scope))
         == ValidateFrame(ScopedView(f, scope))
  {
    assert ScopedSize(f, scope) == |ScopedView(f, scope).data|;
  }

  /** A frame that claims more rows than its buffer holds can pass with a scope that starts beyond the buffer. */
  lemma ScopeCanStartOutside() returns (f: FrameView, scope: Rect)
    ensures f.Addressable() && InsideFrame(scope, f)
    ensures ValidateSized(f.(width := scope.width, height := scope.height), ScopedSize(f, scope)) == Ok
    ensures !ScopeReadsInside(f, scope)
  {
    f, scope := FrameView(true, [0], 2, 2, 2, R8, 1), Rect(1, 1, 1, 1);
    assert f.PixelOffset(1, 1) == 3 && !PixelInside(f, 1, 1);
  }
}
