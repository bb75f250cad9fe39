/** Buffer, texture and query accesses, and the algebra of subresource ranges. */
module Access {
  import opened Common
  import opened TextureFormat
  import opened Resource

  datatype GpuAccessCause =
    | ZeroRange
    | ArithmeticOverflow
    | OutOfBounds
    | InvalidD3Interpretation
    | InvalidTextureAspect
    | InvalidViewIntersection
    | InvalidDescriptorUsage

  // ---------------------------------------------------------------------------------------------
  // Buffers
  // ---------------------------------------------------------------------------------------------

  datatype GpuBufferUsage =
    | UniformUsage
    | StorageUsage
    | VertexUsage
    | IndexUsage
    | IndirectUsage
    | BufferCopySourceUsage
    | BufferCopyDestinationUsage
    | QueryResolveUsage

  /** A buffer handle: its identity determines its descriptor. */
  datatype GpuBuffer = GpuBuffer(id: nat, sizeBytes: u64, usages: set<GpuBufferUsage>)

  datatype RawBufferRange = RawBufferRange(offset: u64, size: u64) {
    function End(): nat {
      offset + size
    }

    predicate Holds(byte: int) {
      offset <= byte < offset + size
    }
  }

  type GpuBufferRange = r: RawBufferRange | r.size > 0 && r.End() <= U64_MAX witness RawBufferRange(0, 1)

  function NewBufferRange(buffer: GpuBuffer, offset: u64, size: u64): Result<GpuBufferRange, GpuAccessCause> {
    if size == 0 then Err(ZeroRange)
    else
      var end :- CheckedAdd64(offset, size).OkOr(ArithmeticOverflow);
      if end > buffer.sizeBytes then Err(OutOfBounds) else Ok(RawBufferRange(offset, size))
  }

  datatype GpuBufferAccessKind =
    | UniformRead
    | BufferStorageRead
    | BufferStorageWrite
    | BufferStorageReadWrite
    | VertexRead
    | IndexRead
    | IndirectRead
    | BufferCopySource
    | BufferCopyDestination
    | QueryResolveDestination

  function RequiredBufferUsage(kind: GpuBufferAccessKind): GpuBufferUsage {
    match kind
    case UniformRead => UniformUsage
    case BufferStorageRead => StorageUsage
    case BufferStorageWrite => StorageUsage
    case BufferStorageReadWrite => StorageUsage
    case VertexRead => VertexUsage
    case IndexRead => IndexUsage
    case IndirectRead => IndirectUsage
    case BufferCopySource => BufferCopySourceUsage
    case BufferCopyDestination => BufferCopyDestinationUsage
    case QueryResolveDestination => QueryResolveUsage
  }

  datatype GpuBufferAccess = GpuBufferAccess(buffer: GpuBuffer, range: GpuBufferRange, kind: GpuBufferAccessKind)

  function NewBufferAccess(
      buffer: GpuBuffer, range: GpuBufferRange, kind: GpuBufferAccessKind): Result<GpuBufferAccess, GpuAccessCause>
  {
    var _ :- NewBufferRange(buffer, range.offset, range.size);
    if RequiredBufferUsage(kind) !in buffer.usages then Err(InvalidDescriptorUsage)
    else Ok(GpuBufferAccess(buffer, range, kind))
  }

  // ---------------------------------------------------------------------------------------------
  // Texture subresource ranges
  // ---------------------------------------------------------------------------------------------

  function CanonicalAgainst(value: GpuTextureAspect, parent: GpuTextureAspect): GpuTextureAspect {
    if value == All then parent else value
  }

  predicate AspectsOverlap(left: GpuTextureAspect, right: GpuTextureAspect, parent: GpuTextureAspect) {
    var l, r := CanonicalAgainst(left, parent), CanonicalAgainst(right, parent);
    l == r || (parent == All && (l == All || r == All))
  }

  predicate AspectContains(outer: GpuTextureAspect, inner: GpuTextureAspect, parent: GpuTextureAspect) {
    var o, i := CanonicalAgainst(outer, parent), CanonicalAgainst(inner, parent);
    o == i || (parent == All && o == All)
  }

  function IntersectAspects(
      left: GpuTextureAspect, right: GpuTextureAspect, parent: GpuTextureAspect): Option<GpuTextureAspect>
  {
    if !AspectsOverlap(left, right, parent) then None
    else
      var l, r := CanonicalAgainst(left, parent), CanonicalAgainst(right, parent);
      if l == All then Some(r)
      else if r == All || l == r then Some(l)
      else None
  }

  predicate Overlaps(
      left: GpuTextureSubresourceRange, right: GpuTextureSubresourceRange, parentAspect: GpuTextureAspect)
  {
    && left.baseMipLevel < right.MipEnd()
    && right.baseMipLevel < left.MipEnd()
    && left.baseArrayLayer < right.LayerEnd()
    && right.baseArrayLayer < left.LayerEnd()
    && AspectsOverlap(left.aspect, right.aspect, parentAspect)
  }

  predicate Contains(
      outer: GpuTextureSubresourceRange, inner: GpuTextureSubresourceRange, parentAspect: GpuTextureAspect)
  {
    && outer.baseMipLevel <= inner.baseMipLevel
    && outer.MipEnd() >= inner.MipEnd()
    && outer.baseArrayLayer <= inner.baseArrayLayer
    && outer.LayerEnd() >= inner.LayerEnd()
    && AspectContains(outer.aspect, inner.aspect, parentAspect)
  }

  function IntersectTextureRanges(
      left: GpuTextureSubresourceRange, right: GpuTextureSubresourceRange, format: GpuTextureFormat):
      Result<GpuTextureSubresourceRange, GpuAccessCause>
  {
    var mipStart := Max(left.baseMipLevel, right.baseMipLevel);
    var mipEnd := Min(left.MipEnd(), right.MipEnd());
    var layerStart := Max(left.baseArrayLayer, right.baseArrayLayer);
    var layerEnd := Min(left.LayerEnd(), right.LayerEnd());
    var aspect := IntersectAspects(left.aspect, right.aspect, WholeAspect(format));
    if mipStart >= mipEnd || layerStart >= layerEnd || aspect.None? then Err(InvalidViewIntersection)
    else
      NewSubresourceRange(mipStart, mipEnd - mipStart, layerStart, layerEnd - layerStart, aspect.value)
        .OkOr(InvalidViewIntersection)
  }

  /** One addressable subresource of a texture. */
  datatype Point = Point(mip: nat, layer: nat, plane: Plane)

  /** Reference meaning of a range: the points it selects in a texture of the given format. */
  predicate Covers(range: GpuTextureSubresourceRange, format: GpuTextureFormat, point: Point) {
    && range.baseMipLevel <= point.mip < range.MipEnd()
    && range.baseArrayLayer <= point.layer < range.LayerEnd()
    && point.plane in SelectedPlanes(Semantics(format).aspectClass, range.aspect)
  }

  lemma AspectAlgebraIsSetAlgebra(left: GpuTextureAspect, right: GpuTextureAspect, format: GpuTextureFormat)
    requires SupportsAspect(format, left) && SupportsAspect(format, right)
    ensures var class_, parent := Semantics(format).aspectClass, WholeAspect(format);
            var l, r := SelectedPlanes(class_, left), SelectedPlanes(class_, right);
            && l != {} && r != {}
            && (AspectsOverlap(left, right, parent) <==> l * r != {})
            && (AspectContains(left, right, parent) <==> r <= l)
            && (IntersectAspects(left, right, parent).Some? <==> l * r != {})
            && (IntersectAspects(left, right, parent).Some? ==>
                  && SupportsAspect(format, IntersectAspects(left, right, parent).value)
                  && SelectedPlanes(class_, IntersectAspects(left, right, parent).value) == l * r)
  {
    var class_ := Semantics(format).aspectClass;
    var l, r := SelectedPlanes(class_, left), SelectedPlanes(class_, right);
    CanonicalKeepsPlanes(class_, left);
    CanonicalKeepsPlanes(class_, right);
    assert DepthPlane in l * r || StencilPlane in l * r || ColorPlane in l * r || l * r == {};
    assert r <= l <==> (forall p :: p in r ==> p in l);
    assert DepthPlane in r && DepthPlane !in l ==> !(r <= l);
    assert StencilPlane in r && StencilPlane !in l ==> !(r <= l);
  }

  /** The interval and aspect test is exact: ranges overlap iff some point is in both. */
  lemma OverlapsIffPointsMeet(
      left: GpuTextureSubresourceRange, right: GpuTextureSubresourceRange, format: GpuTextureFormat)
    requires SupportsAspect(format, left.aspect) && SupportsAspect(format, right.aspect)
    ensures Overlaps(left, right, WholeAspect(format))
            <==> exists point :: Covers(left, format, point) && Covers(right, format, point)
  {
    AspectAlgebraIsSetAlgebra(left.aspect, right.aspect, format);
    if Overlaps(left, right, WholeAspect(format)) {
      var class_ := Semantics(format).aspectClass;
      var plane :| plane in SelectedPlanes(class_, left.aspect) * SelectedPlanes(class_, right.aspect);
      var point := Point(Max(left.baseMipLevel, right.baseMipLevel),
                         Max(left.baseArrayLayer, right.baseArrayLayer), plane);
      assert Covers(left, format, point) && Covers(right, format, point);
    }
  }

  /** Containment is exact: every point of the inner range belongs to the outer one. */
  lemma ContainsIffPointsIncluded(
      outer: GpuTextureSubresourceRange, inner: GpuTextureSubresourceRange, format: GpuTextureFormat)
    requires SupportsAspect(format, outer.aspect) && SupportsAspect(format, inner.aspect)
    ensures Contains(outer, inner, WholeAspect(format))
            <==> forall point :: Covers(inner, format, point) ==> Covers(outer, format, point)
  {
    AspectAlgebraIsSetAlgebra(outer.aspect, inner.aspect, format);
    var class_ := Semantics(format).aspectClass;
    var inside, outside := SelectedPlanes(class_, inner.aspect), SelectedPlanes(class_, outer.aspect);
    if forall point :: Covers(inner, format, point) ==> Covers(outer, format, point) {
      var plane :| plane in inside;
      var first := Point(inner.baseMipLevel, inner.baseArrayLayer, plane);
      var last := Point(inner.MipEnd() - 1, inner.LayerEnd() - 1, plane);
      assert Covers(inner, format, first) && Covers(inner, format, last);
      forall other | other in inside
        ensures other in outside
      {
        assert Covers(inner, format, first.(plane := other));
      }
    }
  }

  /**
   * Range intersection computes exactly the common points: it fails iff there are none, and its
   * inner checked constructor never fails.
   */
  lemma IntersectionIsExact(
      left: GpuTextureSubresourceRange, right: GpuTextureSubresourceRange, format: GpuTextureFormat)
    requires SupportsAspect(format, left.aspect) && SupportsAspect(format, right.aspect)
    ensures var r := IntersectTextureRanges(left, right, format);
            && (r.Ok? <==> Overlaps(left, right, WholeAspect(format)))
            && (r.Err? <==> forall point :: !(Covers(left, format, point) && Covers(right, format, point)))
            && (r.Ok? ==>
                  && SupportsAspect(format, r.value.aspect)
                  && r.value.MipEnd() <= left.MipEnd() && r.value.LayerEnd() <= left.LayerEnd()
                  && forall point :: Covers(r.value, format, point)
                       <==> Covers(left, format, point) && Covers(right, format, point))
  {
    AspectAlgebraIsSetAlgebra(left.aspect, right.aspect, format);
    OverlapsIffPointsMeet(left, right, format);
  }

  // ---------------------------------------------------------------------------------------------
  // Texture accesses
  // ---------------------------------------------------------------------------------------------

  datatype GpuAttachmentLoadKind = Load | Clear

  datatype GpuAttachmentStore = Store | Discard

  datatype GpuDepthStencilAccess = ReadOnlyAspect | ReadWriteAspect

  datatype GpuTextureAccessKind =
    | SampledRead
    | StorageRead
    | StorageWrite
    | StorageReadWrite
    | CopySource
    | CopyDestination
    | ColorAttachment(colorLoad: GpuAttachmentLoadKind, colorStore: GpuAttachmentStore)
    | MultisampleResolveDestination
    | DepthStencilAttachment(access: GpuDepthStencilAccess, load: GpuAttachmentLoadKind, store: GpuAttachmentStore)
    | Present

  datatype GpuTextureAccessResource = WholeTexture(texture: GpuTexture) | TextureView(view: GpuTextureView) {
    function Parent(): GpuTexture {
      match this
      case WholeTexture(t) => t
      case TextureView(v) => v.texture
    }
  }

  datatype GpuTextureAccess = GpuTextureAccess(
    texture: GpuTexture, subresources: GpuTextureSubresourceRange, kind: GpuTextureAccessKind)
  {
    /** Established by the checked constructor below. */
    predicate Checked() {
      && subresources.MipEnd() <= texture.mipLevelCount
      && subresources.LayerEnd() <= texture.Layers()
      && SupportsAspect(texture.format, subresources.aspect)
    }

    /** The access reaches this point of this texture. */
    predicate Touches(id: nat, point: Point) {
      texture.id == id && Covers(subresources, texture.format, point)
    }
  }

  function ValidateTextureRange(
      texture: GpuTexture, range: GpuTextureSubresourceRange): Option<GpuAccessCause>
  {
    if texture.dimension == D3 && (range.baseArrayLayer != 0 || range.arrayLayerCount != 1)
    then Some(InvalidD3Interpretation)
    else if range.MipEnd() > texture.mipLevelCount || range.LayerEnd() > texture.Layers()
    then Some(OutOfBounds)
    else if !SupportsAspect(texture.format, range.aspect) then Some(InvalidTextureAspect)
    else None
  }

  function RequiredTextureUsage(kind: GpuTextureAccessKind): Option<GpuTextureUsage> {
    match kind
    case SampledRead => Some(Sampled)
    case StorageRead => Some(StorageReadUsage)
    case StorageWrite => Some(StorageWriteUsage)
    case StorageReadWrite => Some(StorageWriteUsage)
    case CopySource => Some(CopySourceUsage)
    case CopyDestination => Some(CopyDestinationUsage)
    case ColorAttachment(_, _) => Some(ColorAttachmentUsage)
    case MultisampleResolveDestination => Some(ColorAttachmentUsage)
    case DepthStencilAttachment(_, _, _) => Some(DepthStencilAttachmentUsage)
    case Present => None
  }

  predicate TransientAccessAllowed(kind: GpuTextureAccessKind) {
    match kind
    case ColorAttachment(load, store) => load == Clear && store == Discard
    case DepthStencilAttachment(access, load, store) =>
      access == ReadWriteAspect && load == Clear && store == Discard
    case _ => false
  }

  function ValidateTextureUsage(texture: GpuTexture, kind: GpuTextureAccessKind): Option<GpuAccessCause> {
    var required := RequiredTextureUsage(kind);
    var attachmentRole :=
      kind.ColorAttachment? || kind.MultisampleResolveDestination? || kind.DepthStencilAttachment?;
    if TransientAttachment in texture.usages && !TransientAccessAllowed(kind) then Some(InvalidDescriptorUsage)
    else if (if kind.StorageReadWrite?
             then !(StorageReadUsage in texture.usages && StorageWriteUsage in texture.usages)
             else required.Some? && required.value !in texture.usages)
    then Some(InvalidDescriptorUsage)
    else if kind.DepthStencilAttachment? != (HasDepth(texture.format) || HasStencil(texture.format)) && attachmentRole
    then Some(InvalidTextureAspect)
    else None
  }

  function NewTextureAccess(
      resource: GpuTextureAccessResource, requested: GpuTextureSubresourceRange, kind: GpuTextureAccessKind):
      Result<GpuTextureAccess, GpuAccessCause>
  {
    var parent := resource.Parent();
    var rangeError := ValidateTextureRange(parent, requested);
    if rangeError.Some? then Err(rangeError.value)
    else
      var normalized :-
        match resource
        case WholeTexture(_) => Ok(requested)
        case TextureView(view) => IntersectTextureRanges(view.subresources, requested, parent.format);
      var usageError := ValidateTextureUsage(parent, kind);
      if usageError.Some? then Err(usageError.value)
      else Ok(GpuTextureAccess(parent, normalized, kind))
  }

  /**
   * A constructed access reaches exactly the requested points visible through its resource, and
   * stays inside the parent descriptor. Asking a view for points it does not show is the only way
   * the normalization step rejects.
   */
  lemma TextureAccessNormalizesToVisiblePoints(
      resource: GpuTextureAccessResource, requested: GpuTextureSubresourceRange, kind: GpuTextureAccessKind)
    ensures var parent := resource.Parent();
            var r := NewTextureAccess(resource, requested, kind);
            var visible := (point: Point) =>
              Covers(requested, parent.format, point)
              && (resource.TextureView? ==> Covers(resource.view.subresources, parent.format, point));
            && (r.Ok? ==>
                  && r.value.Checked() && r.value.texture == parent && r.value.kind == kind
                  && forall point :: Covers(r.value.subresources, parent.format, point) <==> visible(point))
            && (r.Ok? <==>
                  && ValidateTextureRange(parent, requested).None?
                  && ValidateTextureUsage(parent, kind).None?
                  && exists point :: visible(point))
  {
    var parent := resource.Parent();
    if ValidateTextureRange(parent, requested).None? {
      match resource
      case WholeTexture(_) =>
        OverlapsIffPointsMeet(requested, requested, parent.format);
      case TextureView(view) =>
        IntersectionIsExact(view.subresources, requested, parent.format);
    }
  }

  /** A volume has one layer, and its mips are addressed whole. */
  predicate AddressesWholeVolumes(texture: GpuTexture, range: GpuTextureSubresourceRange) {
    texture.dimension == D3 ==> range.baseArrayLayer == 0 && range.LayerEnd() == 1
  }

  predicate StaysInside(texture: GpuTexture, range: GpuTextureSubresourceRange) {
    && range.MipEnd() <= texture.mipLevelCount
    && range.LayerEnd() <= (if texture.dimension == D2 then texture.depthOrLayers else 1)
  }

  /** Some requested point is visible through the resource. */
  ghost predicate SeesSomething(resource: GpuTextureAccessResource, requested: GpuTextureSubresourceRange) {
    exists point ::
      && Covers(requested, resource.Parent().format, point)
      && (resource.TextureView? ==> Covers(resource.view.subresources, resource.Parent().format, point))
  }

  /** The usages each kind of access needs, and what a transient attachment is confined to. */
  predicate PermitsTextureKind(usages: set<GpuTextureUsage>, kind: GpuTextureAccessKind) {
    && (kind == SampledRead ==> Sampled in usages)
    && (kind == StorageRead || kind == StorageReadWrite ==> StorageReadUsage in usages)
    && (kind == StorageWrite || kind == StorageReadWrite ==> StorageWriteUsage in usages)
    && (kind == CopySource ==> CopySourceUsage in usages)
    && (kind == CopyDestination ==> CopyDestinationUsage in usages)
    && (kind.ColorAttachment? || kind == MultisampleResolveDestination ==> ColorAttachmentUsage in usages)
    && (kind.DepthStencilAttachment? ==> DepthStencilAttachmentUsage in usages)
    && (TransientAttachment in usages ==>
          kind in {ColorAttachment(Clear, Discard), DepthStencilAttachment(ReadWriteAspect, Clear, Discard)})
  }

  /** Color is rendered and resolved into color formats, depth and stencil into the others. */
  predicate TargetsItsPlanes(format: GpuTextureFormat, kind: GpuTextureAccessKind) {
    var planes := Planes(Semantics(format).aspectClass);
    && (kind.ColorAttachment? || kind == MultisampleResolveDestination ==> ColorPlane in planes)
    && (kind.DepthStencilAttachment? ==> DepthPlane in planes || StencilPlane in planes)
  }

  /** An access is built iff the request meets six rules, and a refusal gives the first one it breaks. */
  lemma TextureAccessRules(
      resource: GpuTextureAccessResource, requested: GpuTextureSubresourceRange, kind: GpuTextureAccessKind)
    ensures var texture := resource.Parent();
            var r := NewTextureAccess(resource, requested, kind);
            && (r.Ok? <==>
                  && AddressesWholeVolumes(texture, requested)
                  && StaysInside(texture, requested)
                  && SelectedPlanes(Semantics(texture.format).aspectClass, requested.aspect) != {}
                  && SeesSomething(resource, requested)
                  && PermitsTextureKind(texture.usages, kind)
                  && TargetsItsPlanes(texture.format, kind))
            && (r.Err? ==>
                  r.error == if !AddressesWholeVolumes(texture, requested) then InvalidD3Interpretation
                             else if !StaysInside(texture, requested) then OutOfBounds
                             else if SelectedPlanes(Semantics(texture.format).aspectClass, requested.aspect) == {}
                             then InvalidTextureAspect
                             else if !SeesSomething(resource, requested) then InvalidViewIntersection
                             else if !PermitsTextureKind(texture.usages, kind) then InvalidDescriptorUsage
                             else InvalidTextureAspect)
  {
    var texture := resource.Parent();
    CanonicalKeepsPlanes(Semantics(texture.format).aspectClass, requested.aspect);
    TextureAccessNormalizesToVisiblePoints(resource, requested, kind);
    TextureUsageRules(texture, kind);
    if ValidateTextureRange(texture, requested).None? {
      match resource
      case WholeTexture(_) => OverlapsIffPointsMeet(requested, requested, texture.format);
      case TextureView(view) => IntersectionIsExact(view.subresources, requested, texture.format);
    }
  }

  lemma TextureUsageRules(texture: GpuTexture, kind: GpuTextureAccessKind)
    ensures ValidateTextureUsage(texture, kind) ==
            if !PermitsTextureKind(texture.usages, kind) then Some(InvalidDescriptorUsage)
            else if !TargetsItsPlanes(texture.format, kind) then Some(InvalidTextureAspect)
            else None
  {
    DepthAndStencilArePlanes(texture.format);
  }

  /** The usage each kind of buffer access needs. */
  predicate PermitsBufferKind(usages: set<GpuBufferUsage>, kind: GpuBufferAccessKind) {
    && (kind == UniformRead ==> UniformUsage in usages)
    && (kind in {BufferStorageRead, BufferStorageWrite, BufferStorageReadWrite} ==> StorageUsage in usages)
    && (kind == VertexRead ==> VertexUsage in usages)
    && (kind == IndexRead ==> IndexUsage in usages)
    && (kind == IndirectRead ==> IndirectUsage in usages)
    && (kind == BufferCopySource ==> BufferCopySourceUsage in usages)
    && (kind == BufferCopyDestination ==> BufferCopyDestinationUsage in usages)
    && (kind == QueryResolveDestination ==> QueryResolveUsage in usages)
  }

  /** A byte range is built iff it holds bytes and the buffer holds all of them. */
  lemma BufferRangeRules(buffer: GpuBuffer, offset: u64, size: u64)
    ensures var range, r := RawBufferRange(offset, size), NewBufferRange(buffer, offset, size);
            && (r.Ok? <==> range.Holds(offset) && forall byte :: range.Holds(byte) ==> byte < buffer.sizeBytes)
            && (r.Ok? ==> r.value == range)
            && (r.Err? ==>
                  r.error == if !range.Holds(offset) then ZeroRange
                             else if offset + size > U64_MAX then ArithmeticOverflow
                             else OutOfBounds)
  {
    var range := RawBufferRange(offset, size);
    if size > 0 {
      assert range.Holds(range.End() - 1);
    }
  }

  /** An access to a byte range is built iff the range can be, and the buffer has the usage of its kind. */
  lemma BufferAccessRules(buffer: GpuBuffer, range: GpuBufferRange, kind: GpuBufferAccessKind)
    ensures var r := NewBufferAccess(buffer, range, kind);
            && (r.Ok? <==>
                  && (forall byte :: range.Holds(byte) ==> byte < buffer.sizeBytes)
                  && PermitsBufferKind(buffer.usages, kind))
            && (r.Ok? ==> r.value == GpuBufferAccess(buffer, range, kind))
            && (r.Err? ==>
                  r.error == if range.End() > buffer.sizeBytes then OutOfBounds else InvalidDescriptorUsage)
  {
    BufferRangeRules(buffer, range.offset, range.size);
    assert range.Holds(range.offset);
  }

  // ---------------------------------------------------------------------------------------------
  // Any access
  // ---------------------------------------------------------------------------------------------

  datatype GpuQueryAccess = GpuQueryAccess(querySet: nat, first: u32, count: u32, writesTimestamp: bool)

  datatype GpuResourceAccess =
    | Buffer(buffer: GpuBufferAccess)
    | Texture(texture: GpuTextureAccess)
    | Query(query: GpuQueryAccess)
    | Sampler(sampler: nat)
}
