/** Texture descriptors, their mip bound, and checked subresource ranges. */
module Resource {
  import opened Arithmetic
  import opened Common
  import opened TextureFormat

  datatype GpuTextureDimension = D1 | D2 | D3

  datatype GpuTextureUsage =
    | Sampled
    | StorageReadUsage
    | StorageWriteUsage
    | ColorAttachmentUsage
    | DepthStencilAttachmentUsage
    | TransientAttachment
    | CopySourceUsage
    | CopyDestinationUsage

  // ---------------------------------------------------------------------------------------------
  // Mip counts
  // ---------------------------------------------------------------------------------------------

  function Pow2(exponent: nat): (power: nat)
    ensures power > 0
  {
    if exponent == 0 then 1 else 2 * Pow2(exponent - 1)
  }

  /** `value >> amount` on an unsigned integer. */
  function ShiftRight(value: nat, amount: nat): nat {
    if amount == 0 then value else ShiftRight(value / 2, amount - 1)
  }

  /** A shifted value reaches `quotient` exactly when the value reaches `quotient * 2^amount`. */
  lemma {:induction false} ShiftReaches(value: nat, amount: nat, quotient: nat)
    ensures ShiftRight(value, amount) >= quotient <==> value >= quotient * Pow2(amount)
  {
    if amount > 0 {
      ShiftReaches(value / 2, amount - 1, quotient);
      var half := quotient * Pow2(amount - 1);
      assert quotient * Pow2(amount) == 2 * half;
    }
  }

  /** Zero bits above the most significant one in a word of `bits` bits. */
  function LeadingZeros(value: nat, bits: nat): (zeros: nat)
    ensures zeros <= bits
  {
    if bits == 0 || value >= Pow2(bits - 1) then 0 else 1 + LeadingZeros(value, bits - 1)
  }

  function MaxDimension(dimension: GpuTextureDimension, width: u32, height: u32, depthOrLayers: u32): u32 {
    Max(Max(width, height), match dimension case D3 => depthOrLayers case D1 => 1 case D2 => 1)
  }

  function MaxMips(maxDimension: u32): nat {
    32 - LeadingZeros(maxDimension, 32)
  }

  predicate MipCountAccepted(count: u32, maxDimension: u32) {
    !(count == 0 || count > MaxMips(maxDimension))
  }

  lemma {:induction false} Pow2Monotone(low: nat, high: nat)
    requires low <= high
    ensures Pow2(low) <= Pow2(high)
  {
    if low < high {
      Pow2Monotone(low, high - 1);
    }
  }

  /** Without its leading zeros a word lies between two adjacent powers of two. */
  lemma {:induction false} LeadingZerosLocatesTopBit(value: nat, bits: nat)
    requires 0 < value < Pow2(bits)
    ensures LeadingZeros(value, bits) < bits
    ensures Pow2(bits - LeadingZeros(value, bits) - 1) <= value < Pow2(bits - LeadingZeros(value, bits))
  {
    if value < Pow2(bits - 1) {
      LeadingZerosLocatesTopBit(value, bits - 1);
    }
  }

  lemma Pow2Of32()
    ensures Pow2(32) == U32_MAX + 1
  {
    assert Pow2(8) == 256;
    assert Pow2(16) == 65536;
    assert Pow2(24) == 16777216;
  }

  lemma MaxMipsLocatesTopBit(maxDimension: u32)
    requires maxDimension > 0
    ensures 1 <= MaxMips(maxDimension) <= 32
    ensures Pow2(MaxMips(maxDimension) - 1) <= maxDimension < Pow2(MaxMips(maxDimension))
  {
    Pow2Of32();
    LeadingZerosLocatesTopBit(maxDimension, 32);
  }

  /** The powers a number between two adjacent ones reaches are those up to the lower. */
  lemma PowersBelow(value: nat, top: nat, exponent: nat)
    requires top > 0 && Pow2(top - 1) <= value < Pow2(top)
    ensures Pow2(exponent) <= value <==> exponent < top
  {
    if exponent < top {
      Pow2Monotone(exponent, top - 1);
    } else {
      Pow2Monotone(top, exponent);
    }
  }

  /**
   * The leading-zero bound is exactly "the last mip still has an extent": a count is accepted iff
   * it is nonzero and shifting the largest dimension by its last level leaves at least one texel.
   */
  lemma MipBoundIsExact(count: u32, maxDimension: u32)
    requires maxDimension > 0
    ensures MipCountAccepted(count, maxDimension)
            <==> count >= 1 && ShiftRight(maxDimension, count - 1) >= 1
    ensures MipCountAccepted(count, maxDimension) ==> count - 1 < 32
    ensures MipCountAccepted(MaxMips(maxDimension), maxDimension)
    ensures ShiftRight(maxDimension, MaxMips(maxDimension) - 1) == 1
  {
    var mips := MaxMips(maxDimension);
    MaxMipsLocatesTopBit(maxDimension);
    if count >= 1 {
      PowersBelow(maxDimension, mips, count - 1);
      ShiftReaches(maxDimension, count - 1, 1);
    }
    ShiftReaches(maxDimension, mips - 1, 1);
    ShiftReaches(maxDimension, mips - 1, 2);
  }

  /**
   * A texture may have as many mip levels as leave some edge a texel; layers never count, and the
   * depth of a volume does.
   */
  lemma MipCountRules(dimension: GpuTextureDimension, width: u32, height: u32, depthOrLayers: u32, count: u32)
    requires width > 0 && height > 0 && depthOrLayers > 0
    ensures MipCountAccepted(count, MaxDimension(dimension, width, height, depthOrLayers)) <==>
              && count > 0
              && (|| Pow2(count - 1) <= width
                  || Pow2(count - 1) <= height
                  || (dimension == D3 && Pow2(count - 1) <= depthOrLayers))
  {
    var largest := MaxDimension(dimension, width, height, depthOrLayers);
    MipBoundIsExact(count, largest);
    if count > 0 {
      ShiftReaches(largest, count - 1, 1);
    }
  }

  function MipExtentOf(extent: u32, level: nat): nat {
    Max(ShiftRight(extent, level), 1)
  }

  /** Deeper mips never grow and never vanish. */
  lemma MipExtentsShrink(extent: u32, upper: nat, lower: nat)
    requires upper <= lower
    ensures 1 <= MipExtentOf(extent, lower) <= MipExtentOf(extent, upper)
  {
    Pow2Monotone(upper, lower);
    var deep := ShiftRight(extent, lower);
    ShiftReaches(extent, lower, deep);
    MulMonotone(Pow2(upper), Pow2(lower), deep);
    assert deep * Pow2(upper) <= deep * Pow2(lower);
    ShiftReaches(extent, upper, deep);
  }

  // ---------------------------------------------------------------------------------------------
  // Subresource ranges
  // ---------------------------------------------------------------------------------------------

  datatype RawRange = RawRange(
    baseMipLevel: u32,
    mipLevelCount: u32,
    baseArrayLayer: u32,
    arrayLayerCount: u32,
    aspect: GpuTextureAspect)
  {
    predicate Checked() {
      && mipLevelCount > 0
      && arrayLayerCount > 0
      && baseMipLevel + mipLevelCount <= U32_MAX
      && baseArrayLayer + arrayLayerCount <= U32_MAX
    }

    function MipEnd(): nat {
      baseMipLevel + mipLevelCount
    }

    function LayerEnd(): nat {
      baseArrayLayer + arrayLayerCount
    }
  }

  /** Only checked ranges are ever constructed. */
  type GpuTextureSubresourceRange = r: RawRange | r.Checked() witness RawRange(0, 1, 0, 1, All)

  function NewSubresourceRange(
      baseMipLevel: u32, mipLevelCount: u32, baseArrayLayer: u32, arrayLayerCount: u32,
      aspect: GpuTextureAspect): Option<GpuTextureSubresourceRange>
  {
    if || mipLevelCount == 0
       || arrayLayerCount == 0
       || CheckedAdd32(baseMipLevel, mipLevelCount).None?
       || CheckedAdd32(baseArrayLayer, arrayLayerCount).None?
    then None
    else Some(RawRange(baseMipLevel, mipLevelCount, baseArrayLayer, arrayLayerCount, aspect))
  }

  // ---------------------------------------------------------------------------------------------
  // Textures and views
  // ---------------------------------------------------------------------------------------------

  datatype RawTexture = RawTexture(
    id: nat,
    dimension: GpuTextureDimension,
    width: u32,
    height: u32,
    depthOrLayers: u32,
    mipLevelCount: u32,
    sampleCount: u32,
    format: GpuTextureFormat,
    usages: set<GpuTextureUsage>)
  {
    function Layers(): u32 {
      match dimension
      case D2 => depthOrLayers
      case D1 => 1
      case D3 => 1
    }

    /** What the descriptor constructor establishes about extent and mips. */
    predicate Checked() {
      && width > 0 && height > 0 && depthOrLayers > 0
      && (dimension == D1 ==> height == 1 && depthOrLayers == 1)
      && MipCountAccepted(mipLevelCount, MaxDimension(dimension, width, height, depthOrLayers))
    }
  }

  /** A texture handle: its identity determines its descriptor. */
  type GpuTexture = t: RawTexture | t.Checked() ghost witness WitnessTexture()

  ghost function WitnessTexture(): (t: RawTexture)
    ensures t.Checked()
    ensures t.mipLevelCount == t.Layers() == 1 && SupportsAspect(t.format, All)
  {
    MipBoundIsExact(1, 1);
    assert Pow2(0) == 1;
    RawTexture(0, D2, 1, 1, 1, 1, 1, R32Float, {})
  }

  /** Every level of a texture keeps a texel along some edge. */
  lemma EveryLevelHasATexel(texture: GpuTexture, level: u32)
    requires level < texture.mipLevelCount
    ensures || Pow2(level) <= texture.width
            || Pow2(level) <= texture.height
            || (texture.dimension == D3 && Pow2(level) <= texture.depthOrLayers)
  {
    MipCountRules(
      texture.dimension, texture.width, texture.height, texture.depthOrLayers, texture.mipLevelCount);
    Pow2Monotone(level, texture.mipLevelCount - 1);
  }

  datatype GpuTextureViewDimension = ViewD1 | ViewD2 | ViewD2Array | ViewCube | ViewCubeArray | ViewD3

  datatype RawView = RawView(
    texture: GpuTexture,
    format: Option<GpuTextureFormat>,
    dimension: GpuTextureViewDimension,
    subresources: GpuTextureSubresourceRange)
  {
    /** What the view constructor establishes about coverage of the parent. */
    predicate Checked() {
      && subresources.MipEnd() <= texture.mipLevelCount
      && subresources.LayerEnd() <= texture.Layers()
      && SupportsAspect(texture.format, subresources.aspect)
    }
  }

  type GpuTextureView = v: RawView | v.Checked() ghost witness WitnessView(WitnessTexture())

  ghost function WitnessView(texture: GpuTexture): (v: RawView)
    requires texture.mipLevelCount == texture.Layers() == 1 && SupportsAspect(texture.format, All)
    ensures v.Checked()
  {
    RawView(texture, None, ViewD2, RawRange(0, 1, 0, 1, All))
  }
}
