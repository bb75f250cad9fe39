/** Aspect identity and block geometry of a texture format. */
module TextureFormat {
  import opened Arithmetic
  import opened Common

  datatype GpuTextureAspect = All | Color | DepthOnly | StencilOnly

  datatype AspectClass = ColorClass | DepthClass | StencilClass | DepthStencilClass

  /** The physical planes a format may store; the meaning of an aspect is a set of planes. */
  datatype Plane = ColorPlane | DepthPlane | StencilPlane

  datatype RawSemantics = RawSemantics(
    aspectClass: AspectClass,
    blockWidth: u32,
    blockHeight: u32,
    colorCopyBlockSize: Option<u32>,
    depthCopyBlockSize: Option<u32>,
    stencilCopyBlockSize: Option<u32>)

  predicate PositiveSize(size: Option<u32>) {
    size.Some? ==> size.value > 0
  }

  /** One row of the format table: blocks and copy-block sizes are never zero. */
  type FormatSemantics = s: RawSemantics |
    && s.blockWidth > 0
    && s.blockHeight > 0
    && PositiveSize(s.colorCopyBlockSize)
    && PositiveSize(s.depthCopyBlockSize)
    && PositiveSize(s.stencilCopyBlockSize)
    witness RawSemantics(ColorClass, 1, 1, Some(1), None, None)

  /**
   * The formats named by an admission or portability rule, and every other row of the table
   * carried as data.
   */
  datatype GpuTextureFormat =
    | Depth32FloatStencil8
    | Rg11b10Ufloat
    | R32Float
    | Rg32Float
    | Rgba32Float
    | Bgra8Unorm
    | TableFormat(code: nat, row: FormatSemantics)

  function Semantics(format: GpuTextureFormat): FormatSemantics {
    match format
    case Depth32FloatStencil8 => RawSemantics(DepthStencilClass, 1, 1, None, Some(4), Some(1))
    case Rg11b10Ufloat => RawSemantics(ColorClass, 1, 1, Some(4), None, None)
    case R32Float => RawSemantics(ColorClass, 1, 1, Some(4), None, None)
    case Rg32Float => RawSemantics(ColorClass, 1, 1, Some(8), None, None)
    case Rgba32Float => RawSemantics(ColorClass, 1, 1, Some(16), None, None)
    case Bgra8Unorm => RawSemantics(ColorClass, 1, 1, Some(4), None, None)
    case TableFormat(_, row) => row
  }

  predicate Supports(class_: AspectClass, aspect: GpuTextureAspect) {
    match (class_, aspect)
    case (_, All) => true
    case (ColorClass, Color) => true
    case (DepthClass, DepthOnly) => true
    case (StencilClass, StencilOnly) => true
    case (DepthStencilClass, DepthOnly) => true
    case (DepthStencilClass, StencilOnly) => true
    case _ => false
  }

  function Canonical(class_: AspectClass, aspect: GpuTextureAspect): Option<GpuTextureAspect> {
    if !Supports(class_, aspect) then None
    else
      match (class_, aspect)
      case (ColorClass, All) => Some(Color)
      case (DepthClass, All) => Some(DepthOnly)
      case (StencilClass, All) => Some(StencilOnly)
      case (DepthStencilClass, All) => Some(All)
      case (_, explicit) => Some(explicit)
  }

  function WholeAspect(format: GpuTextureFormat): GpuTextureAspect {
    match Canonical(Semantics(format).aspectClass, All)
    case Some(aspect) => aspect
    case None => All
  }

  predicate SupportsAspect(format: GpuTextureFormat, aspect: GpuTextureAspect) {
    Supports(Semantics(format).aspectClass, aspect)
  }

  predicate HasDepth(format: GpuTextureFormat) {
    Semantics(format).aspectClass in {DepthClass, DepthStencilClass}
  }

  predicate HasStencil(format: GpuTextureFormat) {
    Semantics(format).aspectClass in {StencilClass, DepthStencilClass}
  }

  /** Reference meaning: the planes stored by a class. */
  function Planes(class_: AspectClass): set<Plane> {
    match class_
    case ColorClass => {ColorPlane}
    case DepthClass => {DepthPlane}
    case StencilClass => {StencilPlane}
    case DepthStencilClass => {DepthPlane, StencilPlane}
  }

  /** Reference meaning: the planes an aspect selects out of a class. */
  function SelectedPlanes(class_: AspectClass, aspect: GpuTextureAspect): set<Plane> {
    match aspect
    case All => Planes(class_)
    case Color => Planes(class_) * {ColorPlane}
    case DepthOnly => Planes(class_) * {DepthPlane}
    case StencilOnly => Planes(class_) * {StencilPlane}
  }

  /** An aspect is supported exactly when it selects a plane, and canonicalizing keeps its meaning. */
  lemma CanonicalKeepsPlanes(class_: AspectClass, aspect: GpuTextureAspect)
    ensures Supports(class_, aspect) <==> SelectedPlanes(class_, aspect) != {}
    ensures Canonical(class_, aspect).Some? <==> Supports(class_, aspect)
    ensures Supports(class_, aspect) ==>
              var canonical := Canonical(class_, aspect).value;
              && SelectedPlanes(class_, canonical) == SelectedPlanes(class_, aspect)
              && Canonical(class_, canonical) == Some(canonical)
              && forall other :: Supports(class_, other)
                   && SelectedPlanes(class_, other) == SelectedPlanes(class_, aspect)
                   ==> Canonical(class_, other) == Some(canonical)
  {
    var selected := SelectedPlanes(class_, aspect);
    if Supports(class_, aspect) {
      assert DepthPlane in selected || StencilPlane in selected || ColorPlane in selected;
      assert SelectedPlanes(class_, Canonical(class_, aspect).value) == selected;
      forall other | Supports(class_, other) && SelectedPlanes(class_, other) == selected
        ensures Canonical(class_, other) == Canonical(class_, aspect)
      {
        assert DepthPlane in SelectedPlanes(class_, other) <==> DepthPlane in selected;
        assert StencilPlane in SelectedPlanes(class_, other) <==> StencilPlane in selected;
      }
    } else {
      forall plane
        ensures plane !in selected
      {
      }
      assert selected == {};
    }
  }

  function CopyBlockSize(format: GpuTextureFormat, aspect: GpuTextureAspect): Option<u32> {
    var value := Semantics(format);
    match Canonical(value.aspectClass, aspect)
    case Some(Color) => value.colorCopyBlockSize
    case Some(DepthOnly) => value.depthCopyBlockSize
    case Some(StencilOnly) => value.stencilCopyBlockSize
    case Some(All) => None
    case None => None
  }

  /** Rust's `div_ceil` on nonzero blocks. */
  function BlockCount(extent: u32, block: u32): u32
    requires block > 0
  {
    if extent == 0 then 0
    else
      QuotientReaches(extent - 1, block, (extent - 1) / block);
      MulMonotone(1, block, (extent - 1) / block);
      (extent - 1) / block + 1
  }

  /** The block count is the least number of blocks covering the extent. */
  lemma BlockCountIsLeastCover(extent: u32, block: u32, count: nat)
    requires block > 0
    ensures count >= BlockCount(extent, block) <==> count * block >= extent
  {
    if extent == 0 {
      MulMonotone(0, count, block);
    } else {
      QuotientReaches(extent - 1, block, count);
    }
  }

  function LogicalCopyFootprint(
      format: GpuTextureFormat, aspect: GpuTextureAspect, width: u32, height: u32): (footprint: Option<(u32, u32)>)
    ensures footprint.Some? ==> footprint.value.0 > 0 && footprint.value.1 > 0
  {
    if width == 0 || height == 0 then None
    else
      var row := Semantics(format);
      var bytesPerBlock :- CopyBlockSize(format, aspect);
      var blocksWide := BlockCount(width, row.blockWidth);
      var blockRows := BlockCount(height, row.blockHeight);
      var rowBytes :- CheckedMul32(blocksWide, bytesPerBlock);
      BlockCountIsLeastCover(width, row.blockWidth, 0);
      BlockCountIsLeastCover(height, row.blockHeight, 0);
      MulMonotone(1, blocksWide, bytesPerBlock);
      Some((rowBytes, blockRows))
  }

  /** `count` blocks reach the extent and one block less does not. */
  predicate LeastCover(count: nat, block: u32, extent: u32) {
    count * block >= extent && (count > 0 ==> (count - 1) * block < extent)
  }

  /** The bytes one block of a plane takes in a copy, where the plane can be copied at all. */
  function StoredBlockBytes(row: FormatSemantics, plane: Plane): Option<u32> {
    match plane
    case ColorPlane => row.colorCopyBlockSize
    case DepthPlane => row.depthCopyBlockSize
    case StencilPlane => row.stencilCopyBlockSize
  }

  /** The aspect selects one plane, and that plane can be copied. */
  predicate CopiesPlane(format: GpuTextureFormat, aspect: GpuTextureAspect, plane: Plane) {
    && SelectedPlanes(Semantics(format).aspectClass, aspect) == {plane}
    && StoredBlockBytes(Semantics(format), plane).Some?
  }

  /** The copy-block size is that of the one plane the aspect selects. */
  lemma CopyBlockIsSelectedPlane(format: GpuTextureFormat, aspect: GpuTextureAspect, plane: Plane)
    ensures CopiesPlane(format, aspect, plane) ==>
              CopyBlockSize(format, aspect) == StoredBlockBytes(Semantics(format), plane)
    ensures CopyBlockSize(format, aspect).Some? ==> exists copied :: CopiesPlane(format, aspect, copied)
  {
    var class_ := Semantics(format).aspectClass;
    var selected := SelectedPlanes(class_, aspect);
    if selected == {plane} {
      assert class_ == DepthStencilClass && aspect == All ==> DepthPlane in selected && StencilPlane in selected;
      assert plane in selected;
    }
    match CopyBlockSize(format, aspect) {
      case None =>
      case Some(_) =>
        var copied := match Canonical(class_, aspect).value
          case Color => ColorPlane
          case DepthOnly => DepthPlane
          case _ => StencilPlane;
        assert selected == {copied};
        assert CopiesPlane(format, aspect, copied);
    }
  }

  /**
   * A footprint covers the extent with the fewest blocks of the selected plane. There is none exactly
   * for an empty extent, an aspect that selects no single plane that can be copied, or a row of more
   * bytes than 32 bits count.
   */
  lemma FootprintIsExact(
      format: GpuTextureFormat, aspect: GpuTextureAspect, width: u32, height: u32, wide: nat, rows: nat)
    requires LeastCover(wide, Semantics(format).blockWidth, width)
    requires LeastCover(rows, Semantics(format).blockHeight, height)
    ensures LogicalCopyFootprint(format, aspect, width, height).Some? <==>
              && width > 0
              && height > 0
              && exists plane ::
                   && CopiesPlane(format, aspect, plane)
                   && wide * StoredBlockBytes(Semantics(format), plane).value <= U32_MAX
    ensures forall plane :: CopiesPlane(format, aspect, plane) ==>
              match LogicalCopyFootprint(format, aspect, width, height)
              case Some((rowBytes, blockRows)) =>
                rowBytes == wide * StoredBlockBytes(Semantics(format), plane).value && blockRows == rows
              case None => true
  {
    var row := Semantics(format);
    LeastCoverIsBlockCount(width, row.blockWidth, wide);
    LeastCoverIsBlockCount(height, row.blockHeight, rows);
    forall plane
      ensures CopiesPlane(format, aspect, plane) ==>
                CopyBlockSize(format, aspect) == StoredBlockBytes(row, plane)
      ensures CopyBlockSize(format, aspect).Some? ==> exists copied :: CopiesPlane(format, aspect, copied)
    {
      CopyBlockIsSelectedPlane(format, aspect, plane);
    }
    if CopyBlockSize(format, aspect).Some? {
      CopyBlockIsSelectedPlane(format, aspect, ColorPlane);
    }
  }

  lemma LeastCoverIsBlockCount(extent: u32, block: u32, count: nat)
    requires block > 0 && LeastCover(count, block, extent)
    ensures count == BlockCount(extent, block)
  {
    BlockCountIsLeastCover(extent, block, count);
    if count > 0 {
      BlockCountIsLeastCover(extent, block, count - 1);
    }
  }

  function Sum(bits: seq<nat>): nat {
    if bits == [] then 0 else bits[0] + Sum(bits[1..])
  }

  /** The channel widths, in bits, that the name of a listed format spells out for a plane. */
  function ChannelBits(format: GpuTextureFormat, plane: Plane): seq<nat> {
    match (format, plane)
    case (Depth32FloatStencil8, DepthPlane) => [32]
    case (Depth32FloatStencil8, StencilPlane) => [8]
    case (Rg11b10Ufloat, ColorPlane) => [11, 11, 10]
    case (R32Float, ColorPlane) => [32]
    case (Rg32Float, ColorPlane) => [32, 32]
    case (Rgba32Float, ColorPlane) => [32, 32, 32, 32]
    case (Bgra8Unorm, ColorPlane) => [8, 8, 8, 8]
    case _ => []
  }

  /** A listed format stores single texels, the planes it has channels for, and their bits unpadded. */
  lemma ListedFormatsStoreTheirBits(format: GpuTextureFormat, plane: Plane)
    requires !format.TableFormat?
    ensures Semantics(format).blockWidth == Semantics(format).blockHeight == 1
    ensures plane in Planes(Semantics(format).aspectClass) <==> ChannelBits(format, plane) != []
    ensures StoredBlockBytes(Semantics(format), plane).Some? <==> ChannelBits(format, plane) != []
    ensures StoredBlockBytes(Semantics(format), plane).Some? ==>
              StoredBlockBytes(Semantics(format), plane).value * 8 == Sum(ChannelBits(format, plane))
  {
    assert forall x :: Sum([x]) == x;
    assert forall x, y :: [x, y][1..] == [y] && Sum([x, y]) == x + y;
    assert forall x, y, z :: [x, y, z][1..] == [y, z] && Sum([x, y, z]) == x + y + z;
    assert forall x, y, z, w :: [x, y, z, w][1..] == [y, z, w] && Sum([x, y, z, w]) == x + y + z + w;
  }

  /** A format has depth or stencil exactly when it stores that plane. */
  lemma DepthAndStencilArePlanes(format: GpuTextureFormat)
    ensures HasDepth(format) <==> DepthPlane in Planes(Semantics(format).aspectClass)
    ensures HasStencil(format) <==> StencilPlane in Planes(Semantics(format).aspectClass)
    ensures SelectedPlanes(Semantics(format).aspectClass, WholeAspect(format)) == Planes(Semantics(format).aspectClass)
  {
  }

  function TightlyPackedCopyByteLen(
      format: GpuTextureFormat, aspect: GpuTextureAspect, width: u32, height: u32, depthOrLayers: u32): Option<u64>
  {
    var footprint :- LogicalCopyFootprint(format, aspect, width, height);
    var rows :- CheckedMul64(footprint.0, footprint.1);
    CheckedMul64(rows, depthOrLayers)
  }
}
