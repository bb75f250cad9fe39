/** Strided buffer-texture layouts: four separately written size formulas and the bytes they stand for. */
module CopyLayout {
  import opened Arithmetic
  import opened Common
  import opened TextureFormat
  import opened Access

  datatype RawExtent = RawExtent(width: u32, height: u32, depthOrLayers: u32)

  /** Copy extents and texture extents are nonzero in every dimension. */
  type Extent = e: RawExtent | e.width > 0 && e.height > 0 && e.depthOrLayers > 0 witness RawExtent(1, 1, 1)

  /** The checked layout constructor refuses a zero row stride. */
  datatype RawLayout = RawLayout(buffer: GpuBuffer, byteOffset: u64, bytesPerRow: u32, rowsPerImage: u32)

  type GpuBufferTextureLayout = l: RawLayout | l.bytesPerRow > 0
    witness RawLayout(GpuBuffer(0, 1, {}), 0, 1, 0)

  datatype LayoutCause =
    | InvalidCopyLayout
    | InvalidRowLayout
    | LayoutOverflow
    | InsufficientTextureData
    | LayoutAccess(cause: GpuAccessCause)

  // ---------------------------------------------------------------------------------------------
  // The formulas as written
  // ---------------------------------------------------------------------------------------------

  /** Bytes a buffer-texture copy spans. */
  function CopyLayoutSize(
      layout: GpuBufferTextureLayout, format: GpuTextureFormat, aspect: GpuTextureAspect, extent: Extent):
      Result<u64, LayoutCause>
  {
    var footprint :- LogicalCopyFootprint(format, aspect, extent.width, extent.height).OkOr(InvalidCopyLayout);
    var (logicalRow, logicalRows) := footprint;
    if || layout.bytesPerRow < logicalRow
       || (extent.depthOrLayers > 1 && layout.rowsPerImage < logicalRows)
       || (extent.depthOrLayers == 1 && layout.rowsPerImage != 0 && layout.rowsPerImage < logicalRows)
    then Err(InvalidCopyLayout)
    else
      var imageRows := if extent.depthOrLayers > 1 then layout.rowsPerImage else 0;
      var imageStride :- CheckedMul64(layout.bytesPerRow, imageRows).OkOr(InvalidCopyLayout);
      var precedingImages :- CheckedMul64(extent.depthOrLayers - 1, imageStride).OkOr(InvalidCopyLayout);
      var precedingRows :- CheckedMul64(logicalRows - 1, layout.bytesPerRow).OkOr(InvalidCopyLayout);
      var beforeLastRow :- CheckedAdd64(precedingImages, precedingRows).OkOr(InvalidCopyLayout);
      CheckedAdd64(beforeLastRow, logicalRow).OkOr(InvalidCopyLayout)
  }

  /** Derived access of a buffer-texture copy. */
  function CopyBufferLayoutAccess(
      layout: GpuBufferTextureLayout, format: GpuTextureFormat, aspect: GpuTextureAspect, extent: Extent,
      kind: GpuBufferAccessKind): Result<GpuBufferAccess, LayoutCause>
  {
    var size :- CopyLayoutSize(layout, format, aspect, extent);
    match NewBufferRange(layout.buffer, layout.byteOffset, size)
    case Err(cause) => Err(LayoutAccess(cause))
    case Ok(range) =>
      match NewBufferAccess(layout.buffer, range, kind)
      case Err(cause) => Err(LayoutAccess(cause))
      case Ok(access) => Ok(access)
  }

  /** The coverage the copy constructor computes for itself. */
  function ConstructedLayoutSize(
      layout: GpuBufferTextureLayout, format: GpuTextureFormat, aspect: GpuTextureAspect, extent: Extent):
      Result<u64, LayoutCause>
  {
    var (logicalRow, logicalRows) :-
      LogicalCopyFootprint(format, aspect, extent.width, extent.height).OkOr(InvalidCopyLayout);
    if || layout.bytesPerRow < logicalRow
       || (extent.depthOrLayers > 1 && layout.rowsPerImage < logicalRows)
       || (extent.depthOrLayers == 1 && layout.rowsPerImage != 0 && layout.rowsPerImage < logicalRows)
    then Err(InvalidCopyLayout)
    else
      var imageRows := if extent.depthOrLayers > 1 then layout.rowsPerImage else 0;
      var imageStride :- CheckedMul64(layout.bytesPerRow, imageRows).OkOr(InvalidCopyLayout);
      var precedingImages :- CheckedMul64(extent.depthOrLayers - 1, imageStride).OkOr(InvalidCopyLayout);
      var precedingRows :- CheckedMul64(logicalRows - 1, layout.bytesPerRow).OkOr(InvalidCopyLayout);
      var beforeLastRow :- CheckedAdd64(precedingImages, precedingRows).OkOr(InvalidCopyLayout);
      CheckedAdd64(beforeLastRow, logicalRow).OkOr(InvalidCopyLayout)
  }

  /** The access the copy constructor checks, behind its own alignment rule. */
  function ConstructedLayoutAccess(
      layout: GpuBufferTextureLayout, format: GpuTextureFormat, aspect: GpuTextureAspect, extent: Extent,
      kind: GpuBufferAccessKind): Result<GpuBufferAccess, LayoutCause>
  {
    var copyBlockSize :- CopyBlockSize(format, aspect).OkOr(InvalidCopyLayout);
    if copyBlockSize == 0 || layout.byteOffset % copyBlockSize != 0 then Err(InvalidCopyLayout)
    else
      var size :- ConstructedLayoutSize(layout, format, aspect, extent);
      match NewBufferRange(layout.buffer, layout.byteOffset, size)
      case Err(cause) => Err(LayoutAccess(cause))
      case Ok(range) =>
        match NewBufferAccess(layout.buffer, range, kind)
        case Err(cause) => Err(LayoutAccess(cause))
        case Ok(access) => Ok(access)
  }

  /** Bytes prepared texture data must provide. */
  function PreparedRequiredBytes(
      format: GpuTextureFormat, extent: Extent, bytesPerRow: u32, rowsPerImage: u32): Result<u64, LayoutCause>
  {
    var footprint :- LogicalCopyFootprint(format, All, extent.width, extent.height).OkOr(LayoutOverflow);
    var (logicalRow, logicalRows) := footprint;
    var multipleImages := extent.depthOrLayers > 1;
    if || bytesPerRow < logicalRow
       || bytesPerRow == 0
       || (multipleImages && rowsPerImage < logicalRows)
       || (!multipleImages && rowsPerImage != 0 && rowsPerImage < logicalRows)
    then Err(InvalidRowLayout)
    else
      var imageStride :- (if multipleImages then CheckedMul64(bytesPerRow, rowsPerImage) else Some(0))
                           .OkOr(LayoutOverflow);
      var precedingImages :- CheckedMul64(extent.depthOrLayers - 1, imageStride).OkOr(LayoutOverflow);
      var precedingRows :- CheckedMul64(logicalRows - 1, bytesPerRow).OkOr(LayoutOverflow);
      var beforeLastRow :- CheckedAdd64(precedingImages, precedingRows).OkOr(LayoutOverflow);
      CheckedAdd64(beforeLastRow, logicalRow).OkOr(LayoutOverflow)
  }

  function NewPreparedTextureData(
      byteLen: u64, format: GpuTextureFormat, extent: Extent, bytesPerRow: u32, rowsPerImage: u32):
      Result<(), LayoutCause>
  {
    var required :- PreparedRequiredBytes(format, extent, bytesPerRow, rowsPerImage);
    if byteLen < required then Err(InsufficientTextureData) else Ok(())
  }

  // ---------------------------------------------------------------------------------------------
  // Reference meaning: which bytes a logical copy addresses
  // ---------------------------------------------------------------------------------------------

  datatype Shape = Shape(row: nat, rows: nat, images: nat, rowStride: nat, imageStride: nat) {

    /** Rows fit their stride, and images, when there are several, fit theirs. */
    predicate Covered() {
      && row > 0 && rows > 0 && images > 0
      && row <= rowStride
      && (images > 1 ==> rows * rowStride <= imageStride)
    }

    predicate InBounds(z: nat, r: nat, b: nat) {
      z < images && r < rows && b < row
    }

    function Address(z: nat, r: nat, b: nat): nat {
      MulMonotone(0, z, imageStride);
      MulMonotone(0, r, rowStride);
      z * imageStride + r * rowStride + b
    }

    function Size(): nat
      requires Covered()
    {
      MulMonotone(0, images - 1, imageStride);
      MulMonotone(0, rows - 1, rowStride);
      (images - 1) * imageStride + (rows - 1) * rowStride + row
    }
  }

  lemma RowOffsetsFit(s: Shape, r: nat, b: nat)
    requires s.Covered() && r < s.rows && b < s.row
    ensures r * s.rowStride + b <= (s.rows - 1) * s.rowStride + (s.row - 1)
    ensures s.images > 1 ==> r * s.rowStride + b < s.imageStride
  {
    MulMonotone(r, s.rows - 1, s.rowStride);
    assert s.rows * s.rowStride == (s.rows - 1) * s.rowStride + s.rowStride;
  }

  /** Every addressed byte lies below the size, and the last one is the byte just before it. */
  lemma AddressesFillSize(s: Shape, z: nat, r: nat, b: nat)
    requires s.Covered() && s.InBounds(z, r, b)
    ensures s.Address(z, r, b) < s.Size()
    ensures s.Address(s.images - 1, s.rows - 1, s.row - 1) == s.Size() - 1
  {
    RowOffsetsFit(s, r, b);
    MulMonotone(z, s.images - 1, s.imageStride);
  }

  /** An address is an image index and an offset inside the image. */
  lemma AddressSplits(s: Shape, z: nat, r: nat, b: nat) returns (offset: nat)
    requires s.Covered() && s.InBounds(z, r, b)
    ensures offset == r * s.rowStride + b
    ensures s.Address(z, r, b) == z * s.imageStride + offset
    ensures s.images > 1 ==> offset < s.imageStride
  {
    RowOffsetsFit(s, r, b);
    offset := r * s.rowStride + b;
  }

  lemma SameImage(images: nat, stride: nat, z1: nat, offset1: nat, z2: nat, offset2: nat)
    requires z1 < images && z2 < images
    requires images > 1 ==> offset1 < stride && offset2 < stride
    requires z1 * stride + offset1 == z2 * stride + offset2
    ensures z1 == z2 && offset1 == offset2
  {
    if images > 1 {
      DigitsUnique(z1, offset1, z2, offset2, stride);
    }
  }

  /** Distinct logical bytes have distinct addresses. */
  lemma AddressesAreInjective(s: Shape, z1: nat, r1: nat, b1: nat, z2: nat, r2: nat, b2: nat)
    requires s.Covered() && s.InBounds(z1, r1, b1) && s.InBounds(z2, r2, b2)
    ensures s.Address(z1, r1, b1) == s.Address(z2, r2, b2) ==> z1 == z2 && r1 == r2 && b1 == b2
  {
    var offset1 := AddressSplits(s, z1, r1, b1);
    var offset2 := AddressSplits(s, z2, r2, b2);
    if s.Address(z1, r1, b1) == s.Address(z2, r2, b2) {
      SameImage(s.images, s.imageStride, z1, offset1, z2, offset2);
      DigitsUnique(r1, b1, r2, b2, s.rowStride);
    }
  }

  /** No layout that covers the same image data is smaller than the packed one. */
  lemma PackedIsSmallest(s: Shape)
    requires s.Covered()
    ensures s.Size() >= s.row * s.rows * s.images
    ensures s.rowStride == s.row && (s.images > 1 ==> s.imageStride == s.row * s.rows)
            ==> s.Size() == s.row * s.rows * s.images
  {
    var image := s.row * s.rows;
    MulMonotone(s.row, s.rowStride, s.rows - 1);
    assert (s.rows - 1) * s.row + s.row == image;
    assert image * s.images == (s.images - 1) * image + image;
    if s.images > 1 {
      MulMonotone(s.row, s.rowStride, s.rows);
      assert s.rows * s.rowStride == s.rowStride * s.rows;
      MulMonotone(image, s.imageStride, s.images - 1);
      assert image * (s.images - 1) == (s.images - 1) * image;
    }
  }

  /** The shape a layout describes; with one image the image stride is never used. */
  function ShapeOf(footprint: (u32, u32), extent: Extent, bytesPerRow: u32, rowsPerImage: u32): Shape {
    Shape(footprint.0, footprint.1, extent.depthOrLayers, bytesPerRow,
          if extent.depthOrLayers > 1 then bytesPerRow * rowsPerImage else 0)
  }

  /** The caller-checkable row rules. */
  predicate RowsFit(footprint: (u32, u32), extent: Extent, bytesPerRow: u32, rowsPerImage: u32) {
    && footprint.0 <= bytesPerRow
    && (if extent.depthOrLayers > 1 then footprint.1 <= rowsPerImage
        else rowsPerImage == 0 || footprint.1 <= rowsPerImage)
  }

  lemma RowsFitCovers(footprint: (u32, u32), extent: Extent, bytesPerRow: u32, rowsPerImage: u32)
    requires footprint.0 > 0 && footprint.1 > 0
    requires RowsFit(footprint, extent, bytesPerRow, rowsPerImage)
    ensures ShapeOf(footprint, extent, bytesPerRow, rowsPerImage).Covered()
  {
    if extent.depthOrLayers > 1 {
      MulMonotone(footprint.1, rowsPerImage, bytesPerRow);
      assert bytesPerRow * rowsPerImage == rowsPerImage * bytesPerRow;
    }
  }

  lemma ProductFits(a: u32, b: u32)
    ensures a * b <= U64_MAX
  {
    MulMonotoneBoth(a, U32_MAX, b, U32_MAX);
  }

  /** The checked sum all strided formulas come down to. */
  function CheckedSize(row: u32, rows: u32, images: u32, bytesPerRow: u32, rowsPerImage: u32): Option<u64>
    requires rows > 0 && images > 0
  {
    var imageStride :- CheckedMul64(bytesPerRow, if images > 1 then rowsPerImage else 0);
    var precedingImages :- CheckedMul64(images - 1, imageStride);
    var precedingRows :- CheckedMul64(rows - 1, bytesPerRow);
    var beforeLastRow :- CheckedAdd64(precedingImages, precedingRows);
    CheckedAdd64(beforeLastRow, row)
  }

  /** It is the reference size, and no intermediate check rejects what the final sum admits. */
  lemma CheckedSizeIsShapeSize(footprint: (u32, u32), extent: Extent, bytesPerRow: u32, rowsPerImage: u32)
    requires footprint.0 > 0 && footprint.1 > 0
    requires RowsFit(footprint, extent, bytesPerRow, rowsPerImage)
    ensures var size := SizeOfLayout(footprint, extent, bytesPerRow, rowsPerImage);
            CheckedSize(footprint.0, footprint.1, extent.depthOrLayers, bytesPerRow, rowsPerImage)
            == if size <= U64_MAX then Some(size) else None
  {
    RowsFitCovers(footprint, extent, bytesPerRow, rowsPerImage);
    var imageRows: u32 := if extent.depthOrLayers > 1 then rowsPerImage else 0;
    ProductFits(bytesPerRow, imageRows);
    ProductFits(footprint.1 - 1, bytesPerRow);
    MulMonotone(0, extent.depthOrLayers - 1, bytesPerRow * imageRows);
    MulMonotone(0, footprint.1 - 1, bytesPerRow);
    assert ShapeOf(footprint, extent, bytesPerRow, rowsPerImage).imageStride == bytesPerRow * imageRows;
  }

  lemma CopyUsesCheckedSize(
      layout: GpuBufferTextureLayout, format: GpuTextureFormat, aspect: GpuTextureAspect, extent: Extent)
    ensures var footprint := LogicalCopyFootprint(format, aspect, extent.width, extent.height);
            var r := CopyLayoutSize(layout, format, aspect, extent);
            if footprint.None? || !RowsFit(footprint.value, extent, layout.bytesPerRow, layout.rowsPerImage)
            then r.Err?
            else
              r == CheckedSize(footprint.value.0, footprint.value.1, extent.depthOrLayers,
                               layout.bytesPerRow, layout.rowsPerImage).OkOr(InvalidCopyLayout)
  {
  }

  lemma ConstructedUsesCheckedSize(
      layout: GpuBufferTextureLayout, format: GpuTextureFormat, aspect: GpuTextureAspect, extent: Extent)
    ensures var footprint := LogicalCopyFootprint(format, aspect, extent.width, extent.height);
            var r := ConstructedLayoutSize(layout, format, aspect, extent);
            if footprint.None? || !RowsFit(footprint.value, extent, layout.bytesPerRow, layout.rowsPerImage)
            then r.Err?
            else
              r == CheckedSize(footprint.value.0, footprint.value.1, extent.depthOrLayers,
                               layout.bytesPerRow, layout.rowsPerImage).OkOr(InvalidCopyLayout)
  {
  }

  lemma PreparedUsesCheckedSize(format: GpuTextureFormat, extent: Extent, bytesPerRow: u32, rowsPerImage: u32)
    ensures var footprint := LogicalCopyFootprint(format, All, extent.width, extent.height);
            var r := PreparedRequiredBytes(format, extent, bytesPerRow, rowsPerImage);
            if footprint.None? || !RowsFit(footprint.value, extent, bytesPerRow, rowsPerImage) then r.Err?
            else
              r == CheckedSize(footprint.value.0, footprint.value.1, extent.depthOrLayers, bytesPerRow, rowsPerImage)
                     .OkOr(LayoutOverflow)
  {
  }

  function SizeOfLayout(footprint: (u32, u32), extent: Extent, bytesPerRow: u32, rowsPerImage: u32): nat
    requires footprint.0 > 0 && footprint.1 > 0
    requires RowsFit(footprint, extent, bytesPerRow, rowsPerImage)
  {
    RowsFitCovers(footprint, extent, bytesPerRow, rowsPerImage);
    ShapeOf(footprint, extent, bytesPerRow, rowsPerImage).Size()
  }

  /**
   * The derived footprint is exact. A copy is accepted iff the rows fit, the bytes of the reference
   * shape end inside the buffer, and the buffer declares the usage; the accepted range starts at
   * the layout's offset and has exactly the reference size.
   */
  lemma CopyFootprintIsExact(
      layout: GpuBufferTextureLayout, format: GpuTextureFormat, aspect: GpuTextureAspect, extent: Extent,
      kind: GpuBufferAccessKind)
    ensures var footprint := LogicalCopyFootprint(format, aspect, extent.width, extent.height);
            var r := CopyBufferLayoutAccess(layout, format, aspect, extent, kind);
            && (r.Ok? <==>
                  && footprint.Some?
                  && RowsFit(footprint.value, extent, layout.bytesPerRow, layout.rowsPerImage)
                  && RequiredBufferUsage(kind) in layout.buffer.usages
                  && layout.byteOffset
                     + SizeOfLayout(footprint.value, extent, layout.bytesPerRow, layout.rowsPerImage)
                     <= layout.buffer.sizeBytes)
            && (r.Ok? ==>
                  && r.value.buffer == layout.buffer && r.value.kind == kind
                  && r.value.range.offset == layout.byteOffset
                  && r.value.range.size
                     == SizeOfLayout(footprint.value, extent, layout.bytesPerRow, layout.rowsPerImage))
  {
    CopyUsesCheckedSize(layout, format, aspect, extent);
    var footprint := LogicalCopyFootprint(format, aspect, extent.width, extent.height);
    if footprint.Some? && RowsFit(footprint.value, extent, layout.bytesPerRow, layout.rowsPerImage) {
      CheckedSizeIsShapeSize(footprint.value, extent, layout.bytesPerRow, layout.rowsPerImage);
    }
  }

  /** Every byte of an accepted copy is inside the derived range, which ends at the last of them. */
  lemma AcceptedCopyBytesStayInRange(
      layout: GpuBufferTextureLayout, format: GpuTextureFormat, aspect: GpuTextureAspect, extent: Extent,
      kind: GpuBufferAccessKind, z: nat, r: nat, b: nat)
    requires CopyBufferLayoutAccess(layout, format, aspect, extent, kind).Ok?
    requires var footprint := LogicalCopyFootprint(format, aspect, extent.width, extent.height).value;
             z < extent.depthOrLayers && r < footprint.1 && b < footprint.0
    ensures var footprint := LogicalCopyFootprint(format, aspect, extent.width, extent.height).value;
            var range := CopyBufferLayoutAccess(layout, format, aspect, extent, kind).value.range;
            var byte := layout.byteOffset + z * (layout.bytesPerRow * layout.rowsPerImage)
                        + r * layout.bytesPerRow + b;
            && range.offset <= byte < range.End() <= layout.buffer.sizeBytes
            && (z == extent.depthOrLayers - 1 && r == footprint.1 - 1 && b == footprint.0 - 1
                ==> byte == range.End() - 1)
  {
    CopyFootprintIsExact(layout, format, aspect, extent, kind);
    var footprint := LogicalCopyFootprint(format, aspect, extent.width, extent.height).value;
    RowsFitCovers(footprint, extent, layout.bytesPerRow, layout.rowsPerImage);
    var shape := ShapeOf(footprint, extent, layout.bytesPerRow, layout.rowsPerImage);
    AddressesFillSize(shape, z, r, b);
    SameAddress(layout, extent, footprint, z, r, b);
  }

  lemma SameAddress(layout: GpuBufferTextureLayout, extent: Extent, footprint: (u32, u32), z: nat, r: nat, b: nat)
    requires z < extent.depthOrLayers
    ensures ShapeOf(footprint, extent, layout.bytesPerRow, layout.rowsPerImage).Address(z, r, b)
            == z * (layout.bytesPerRow * layout.rowsPerImage) + r * layout.bytesPerRow + b
  {
    if extent.depthOrLayers == 1 {
      assert z == 0;
    }
  }

  /** Two different logical bytes of an accepted copy never alias one buffer byte. */
  lemma AcceptedCopyBytesAreDistinct(
      layout: GpuBufferTextureLayout, format: GpuTextureFormat, aspect: GpuTextureAspect, extent: Extent,
      kind: GpuBufferAccessKind, z1: nat, r1: nat, b1: nat, z2: nat, r2: nat, b2: nat)
    requires CopyBufferLayoutAccess(layout, format, aspect, extent, kind).Ok?
    requires var footprint := LogicalCopyFootprint(format, aspect, extent.width, extent.height).value;
             && z1 < extent.depthOrLayers && r1 < footprint.1 && b1 < footprint.0
             && z2 < extent.depthOrLayers && r2 < footprint.1 && b2 < footprint.0
    ensures z1 * (layout.bytesPerRow * layout.rowsPerImage) + r1 * layout.bytesPerRow + b1
            == z2 * (layout.bytesPerRow * layout.rowsPerImage) + r2 * layout.bytesPerRow + b2
            ==> z1 == z2 && r1 == r2 && b1 == b2
  {
    CopyFootprintIsExact(layout, format, aspect, extent, kind);
    var footprint := LogicalCopyFootprint(format, aspect, extent.width, extent.height).value;
    RowsFitCovers(footprint, extent, layout.bytesPerRow, layout.rowsPerImage);
    SameAddress(layout, extent, footprint, z1, r1, b1);
    SameAddress(layout, extent, footprint, z2, r2, b2);
    AddressesAreInjective(
      ShapeOf(footprint, extent, layout.bytesPerRow, layout.rowsPerImage), z1, r1, b1, z2, r2, b2);
  }

  /** Prepared data is accepted iff its bytes reach the end of the reference shape. */
  lemma PreparedDataIsExact(
      byteLen: u64, format: GpuTextureFormat, extent: Extent, bytesPerRow: u32, rowsPerImage: u32)
    ensures var footprint := LogicalCopyFootprint(format, All, extent.width, extent.height);
            NewPreparedTextureData(byteLen, format, extent, bytesPerRow, rowsPerImage).Ok?
            <==> footprint.Some? && RowsFit(footprint.value, extent, bytesPerRow, rowsPerImage)
                 && SizeOfLayout(footprint.value, extent, bytesPerRow, rowsPerImage) <= byteLen
  {
    PreparedUsesCheckedSize(format, extent, bytesPerRow, rowsPerImage);
    var footprint := LogicalCopyFootprint(format, All, extent.width, extent.height);
    if footprint.Some? && RowsFit(footprint.value, extent, bytesPerRow, rowsPerImage) {
      CheckedSizeIsShapeSize(footprint.value, extent, bytesPerRow, rowsPerImage);
    }
  }

  /**
   * The separately written formulas agree. Data prepared for one layout is long enough exactly when
   * a copy of the same texels would be admitted from a buffer holding those bytes at offset zero.
   */
  lemma PreparedAgreesWithCopy(
      byteLen: u64, format: GpuTextureFormat, extent: Extent, bytesPerRow: u32, rowsPerImage: u32, id: nat)
    requires bytesPerRow > 0
    ensures var buffer := GpuBuffer(id, byteLen, {BufferCopySourceUsage});
            var copy := CopyBufferLayoutAccess(
              RawLayout(buffer, 0, bytesPerRow, rowsPerImage), format, All, extent, BufferCopySource);
            && (NewPreparedTextureData(byteLen, format, extent, bytesPerRow, rowsPerImage).Ok? <==> copy.Ok?)
            && (copy.Ok? ==>
                  PreparedRequiredBytes(format, extent, bytesPerRow, rowsPerImage) == Ok(copy.value.range.size))
  {
    var buffer := GpuBuffer(id, byteLen, {BufferCopySourceUsage});
    CopyFootprintIsExact(RawLayout(buffer, 0, bytesPerRow, rowsPerImage), format, All, extent, BufferCopySource);
    PreparedDataIsExact(byteLen, format, extent, bytesPerRow, rowsPerImage);
    PreparedUsesCheckedSize(format, extent, bytesPerRow, rowsPerImage);
    var footprint := LogicalCopyFootprint(format, All, extent.width, extent.height);
    if footprint.Some? && RowsFit(footprint.value, extent, bytesPerRow, rowsPerImage) {
      CheckedSizeIsShapeSize(footprint.value, extent, bytesPerRow, rowsPerImage);
    }
  }

  /**
   * The constructor's check, with its own size formula, is exact; so deriving the access of a
   * constructed copy again always succeeds and gives the access that was checked, and the
   * constructor refuses beyond the derivation only for alignment.
   */
  lemma ConstructedCopyIsRederived(
      layout: GpuBufferTextureLayout, format: GpuTextureFormat, aspect: GpuTextureAspect, extent: Extent,
      kind: GpuBufferAccessKind)
    ensures var constructed := ConstructedLayoutAccess(layout, format, aspect, extent, kind);
            var derived := CopyBufferLayoutAccess(layout, format, aspect, extent, kind);
            && (constructed.Ok? <==>
                  derived.Ok? && layout.byteOffset % CopyBlockSize(format, aspect).value == 0)
            && (constructed.Ok? ==> constructed == derived)
  {
    ConstructedUsesCheckedSize(layout, format, aspect, extent);
    CopyUsesCheckedSize(layout, format, aspect, extent);
  }

  /** A packed layout has the tightly packed size, overflow included. */
  lemma TightLengthIsPackedLayout(format: GpuTextureFormat, aspect: GpuTextureAspect, extent: Extent)
    ensures var footprint := LogicalCopyFootprint(format, aspect, extent.width, extent.height);
            var tight := TightlyPackedCopyByteLen(format, aspect, extent.width, extent.height, extent.depthOrLayers);
            if footprint.None? then tight.None?
            else
              && tight == CheckedSize(footprint.value.0, footprint.value.1, extent.depthOrLayers,
                                      footprint.value.0, footprint.value.1)
              && tight == var size := SizeOfLayout(footprint.value, extent, footprint.value.0, footprint.value.1);
                          if size <= U64_MAX then Some(size) else None
  {
    var footprint := LogicalCopyFootprint(format, aspect, extent.width, extent.height);
    if footprint.Some? {
      var (row, rows) := footprint.value;
      ProductFits(row, rows);
      CheckedSizeIsShapeSize(footprint.value, extent, row, rows);
      RowsFitCovers(footprint.value, extent, row, rows);
      PackedIsSmallest(ShapeOf(footprint.value, extent, row, rows));
    }
  }

  /** Among all layouts whose rows fit, the packed one is the smallest. */
  lemma PackedLayoutIsLeast(footprint: (u32, u32), extent: Extent, bytesPerRow: u32, rowsPerImage: u32)
    requires footprint.0 > 0 && footprint.1 > 0
    requires RowsFit(footprint, extent, bytesPerRow, rowsPerImage)
    ensures SizeOfLayout(footprint, extent, footprint.0, footprint.1)
            <= SizeOfLayout(footprint, extent, bytesPerRow, rowsPerImage)
  {
    RowsFitCovers(footprint, extent, footprint.0, footprint.1);
    RowsFitCovers(footprint, extent, bytesPerRow, rowsPerImage);
    PackedIsSmallest(ShapeOf(footprint, extent, footprint.0, footprint.1));
    PackedIsSmallest(ShapeOf(footprint, extent, bytesPerRow, rowsPerImage));
  }

  /**
   * For every aspect a copy may select, the packed length is what a copy without padding derives,
   * and no accepted copy layout is smaller.
   */
  lemma TightLengthIsLeastLayout(
      format: GpuTextureFormat, aspect: GpuTextureAspect, extent: Extent, layout: GpuBufferTextureLayout,
      kind: GpuBufferAccessKind)
    ensures var footprint := LogicalCopyFootprint(format, aspect, extent.width, extent.height);
            var tight := TightlyPackedCopyByteLen(format, aspect, extent.width, extent.height, extent.depthOrLayers);
            var copy := CopyBufferLayoutAccess(layout, format, aspect, extent, kind);
            copy.Ok? ==>
              && footprint.Some? && tight.Some?
              && tight.value <= copy.value.range.size
              && ((layout.bytesPerRow, layout.rowsPerImage) == footprint.value ==> tight.value == copy.value.range.size)
  {
    var footprint := LogicalCopyFootprint(format, aspect, extent.width, extent.height);
    TightLengthIsPackedLayout(format, aspect, extent);
    CopyFootprintIsExact(layout, format, aspect, extent, kind);
    if footprint.Some? && RowsFit(footprint.value, extent, layout.bytesPerRow, layout.rowsPerImage) {
      PackedLayoutIsLeast(footprint.value, extent, layout.bytesPerRow, layout.rowsPerImage);
    }
  }

  /**
   * Data prepared without padding requires exactly the packed length, overflow included, and no row
   * layout requires less.
   */
  lemma TightLengthIsLeastPreparation(
      format: GpuTextureFormat, extent: Extent, bytesPerRow: u32, rowsPerImage: u32)
    ensures var footprint := LogicalCopyFootprint(format, All, extent.width, extent.height);
            var tight := TightlyPackedCopyByteLen(format, All, extent.width, extent.height, extent.depthOrLayers);
            var required := PreparedRequiredBytes(format, extent, bytesPerRow, rowsPerImage);
            && (footprint.Some? ==>
                  PreparedRequiredBytes(format, extent, footprint.value.0, footprint.value.1)
                  == tight.OkOr(LayoutOverflow))
            && (required.Ok? ==> tight.Some? && tight.value <= required.value)
  {
    var footprint := LogicalCopyFootprint(format, All, extent.width, extent.height);
    TightLengthIsPackedLayout(format, All, extent);
    PreparedUsesCheckedSize(format, extent, bytesPerRow, rowsPerImage);
    if footprint.Some? {
      PreparedUsesCheckedSize(format, extent, footprint.value.0, footprint.value.1);
      if RowsFit(footprint.value, extent, bytesPerRow, rowsPerImage) {
        CheckedSizeIsShapeSize(footprint.value, extent, bytesPerRow, rowsPerImage);
        PackedLayoutIsLeast(footprint.value, extent, bytesPerRow, rowsPerImage);
      }
    }
  }
}
