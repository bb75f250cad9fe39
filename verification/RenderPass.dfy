/** Composition of one render pass: its signature, its draws and its complete access list. */
module RenderPass {
  import opened Common
  import opened TextureFormat
  import opened Resource
  import opened Access
  import opened PassUsage

  datatype GpuRenderExtent = GpuRenderExtent(width: nat, height: nat)

  datatype GpuScissorRect = GpuScissorRect(x: u32, y: u32, width: u32, height: u32) {
    function EndX(): nat {
      x + width
    }

    function EndY(): nat {
      y + height
    }
  }

  // ---------------------------------------------------------------------------------------------
  // Attachments
  // ---------------------------------------------------------------------------------------------

  datatype RenderErrorCause =
    | InvalidAttachment
    | ZeroWork
    | InvalidDraw
    | OperationAccessContradiction

  datatype ResolveTarget = ResolveTarget(destination: GpuTextureView, access: GpuTextureAccess)

  datatype ColorTarget = ColorTarget(
    source: GpuTextureView,
    load: GpuAttachmentLoadKind,
    store: GpuAttachmentStore,
    resolveTarget: Option<ResolveTarget>,
    sourceAccess: GpuTextureAccess)

  datatype AspectState = AspectState(
    access: GpuDepthStencilAccess, load: GpuAttachmentLoadKind, store: GpuAttachmentStore)

  datatype DepthStencilTarget = DepthStencilTarget(
    source: GpuTextureView,
    depth: Option<AspectState>,
    stencil: Option<AspectState>,
    depthAccess: Option<GpuTextureAccess>,
    stencilAccess: Option<GpuTextureAccess>)

  /** The access is the one its checked constructor builds for this view and aspect. */
  predicate BuiltFrom(access: GpuTextureAccess, view: GpuTextureView, aspect: GpuTextureAspect,
                      kind: GpuTextureAccessKind)
  {
    NewTextureAccess(TextureView(view), view.subresources.(aspect := aspect), kind) == Ok(access)
  }

  /** What the color-attachment constructor establishes about its accesses. */
  predicate ColorTargetChecked(a: ColorTarget) {
    && BuiltFrom(a.sourceAccess, a.source, a.source.subresources.aspect, ColorAttachment(a.load, a.store))
    && (a.resolveTarget.Some? ==>
          var resolve := a.resolveTarget.value;
          BuiltFrom(resolve.access, resolve.destination, resolve.destination.subresources.aspect,
                    MultisampleResolveDestination))
  }

  /** What the depth/stencil-attachment constructor establishes about its accesses. */
  predicate DepthStencilTargetChecked(a: DepthStencilTarget) {
    && (a.depth.Some? <==> a.depthAccess.Some?)
    && (a.stencil.Some? <==> a.stencilAccess.Some?)
    && (a.depth.Some? ==>
          BuiltFrom(a.depthAccess.value, a.source, DepthOnly,
                    DepthStencilAttachment(a.depth.value.access, a.depth.value.load, a.depth.value.store)))
    && (a.stencil.Some? ==>
          BuiltFrom(a.stencilAccess.value, a.source, StencilOnly,
                    DepthStencilAttachment(a.stencil.value.access, a.stencil.value.load, a.stencil.value.store)))
  }

  // ---------------------------------------------------------------------------------------------
  // Signature
  // ---------------------------------------------------------------------------------------------

  datatype AttachmentFact = AttachmentFact(
    extent: GpuRenderExtent, sampleCount: u32, multiview: Option<u32>, format: GpuTextureFormat)

  datatype GpuRenderPassSignature = GpuRenderPassSignature(
    extent: GpuRenderExtent,
    sampleCount: u32,
    multiview: Option<u32>,
    colorFormats: seq<GpuTextureFormat>,
    depthStencilFormat: Option<GpuTextureFormat>)

  function RenderExtent(texture: GpuTexture, mipLevel: u32): GpuRenderExtent {
    GpuRenderExtent(
      MipExtentOf(texture.width, mipLevel),
      match texture.dimension
      case D1 => 1
      case D2 => MipExtentOf(texture.height, mipLevel)
      case D3 => MipExtentOf(texture.height, mipLevel))
  }

  function FactOf(view: GpuTextureView): AttachmentFact {
    AttachmentFact(
      RenderExtent(view.texture, view.subresources.baseMipLevel),
      view.texture.sampleCount,
      if view.dimension == ViewD2Array then Some(view.subresources.arrayLayerCount) else None,
      if view.format.Some? then view.format.value else view.texture.format)
  }

  predicate AttachmentCompatible(expected: AttachmentFact, actual: AttachmentFact) {
    actual.extent == expected.extent
    && actual.sampleCount == expected.sampleCount
    && actual.multiview == expected.multiview
  }

  function FirstFact(colors: seq<ColorTarget>, depthStencil: Option<DepthStencilTarget>): Option<AttachmentFact> {
    if |colors| > 0 then Some(FactOf(colors[0].source))
    else if depthStencil.Some? then Some(FactOf(depthStencil.value.source))
    else None
  }

  /** Every source view of the pass, colors first. */
  function Sources(colors: seq<ColorTarget>, depthStencil: Option<DepthStencilTarget>): seq<GpuTextureView> {
    seq(|colors|, i requires 0 <= i < |colors| => colors[i].source)
    + if depthStencil.Some? then [depthStencil.value.source] else []
  }

  predicate AttachmentsCompatible(colors: seq<ColorTarget>, depthStencil: Option<DepthStencilTarget>) {
    forall u, v | u in Sources(colors, depthStencil) && v in Sources(colors, depthStencil) ::
      AttachmentCompatible(FactOf(u), FactOf(v))
  }

  /** The signature an accepted pass carries. */
  predicate SignatureOf(
      signature: GpuRenderPassSignature, colors: seq<ColorTarget>, depthStencil: Option<DepthStencilTarget>)
  {
    && signature.colorFormats == seq(|colors|, i requires 0 <= i < |colors| => FactOf(colors[i].source).format)
    && (signature.depthStencilFormat ==
          if depthStencil.Some? then Some(FactOf(depthStencil.value.source).format) else None)
    && forall view | view in Sources(colors, depthStencil) ::
         FactOf(view) == AttachmentFact(signature.extent, signature.sampleCount, signature.multiview,
                                        FactOf(view).format)
  }

  method FromAttachments(colors: seq<ColorTarget>, depthStencil: Option<DepthStencilTarget>)
    returns (r: Result<GpuRenderPassSignature, RenderErrorCause>)
    ensures r.Err? ==> r.error == InvalidAttachment
    ensures r.Ok? <==> Sources(colors, depthStencil) != [] && AttachmentsCompatible(colors, depthStencil)
    ensures r.Ok? ==> SignatureOf(r.value, colors, depthStencil)
  {
    ghost var sources := Sources(colors, depthStencil);
    var found := FirstFact(colors, depthStencil);
    if found.None? {
      return Err(InvalidAttachment);
    }
    var first := found.value;
    assert sources[0] in sources && first == FactOf(sources[0]);

    var colorFormats := [];
    for i := 0 to |colors|
      invariant |colorFormats| == i
      invariant forall k | 0 <= k < i ::
                  colorFormats[k] == FactOf(colors[k].source).format
                  && AttachmentCompatible(first, FactOf(colors[k].source))
    {
      var fact := FactOf(colors[i].source);
      if !AttachmentCompatible(first, fact) {
        assert sources[i] in sources;
        return Err(InvalidAttachment);
      }
      colorFormats := colorFormats + [fact.format];
    }

    var depthStencilFormat := None;
    if depthStencil.Some? {
      var fact := FactOf(depthStencil.value.source);
      if !AttachmentCompatible(first, fact) {
        assert sources[|colors|] in sources;
        return Err(InvalidAttachment);
      }
      depthStencilFormat := Some(fact.format);
    }
    forall view | view in sources
      ensures AttachmentCompatible(first, FactOf(view))
    {
      var i :| 0 <= i < |sources| && sources[i] == view;
    }
    return Ok(GpuRenderPassSignature(
                first.extent, first.sampleCount, first.multiview, colorFormats, depthStencilFormat));
  }

  // ---------------------------------------------------------------------------------------------
  // Draws
  // ---------------------------------------------------------------------------------------------

  datatype PipelineState = PipelineState(
    colorFormats: seq<GpuTextureFormat>,
    depthStencilFormat: Option<GpuTextureFormat>,
    sampleCount: u32,
    multiview: Option<u32>,
    depthWriteEnabled: Option<bool>,
    stencilMayWrite: Option<bool>)

  /** The facts of a checked draw the pass looks at. */
  datatype PassDraw = PassDraw(pipeline: PipelineState, scissor: GpuScissorRect, accesses: seq<GpuResourceAccess>)

  predicate PipelineMatches(signature: GpuRenderPassSignature, pipeline: PipelineState) {
    && pipeline.colorFormats == signature.colorFormats
    && pipeline.depthStencilFormat == signature.depthStencilFormat
    && pipeline.sampleCount == signature.sampleCount
    && pipeline.multiview == signature.multiview
  }

  predicate ScissorFits(extent: GpuRenderExtent, scissor: GpuScissorRect) {
    scissor.EndX() <= extent.width && scissor.EndY() <= extent.height
  }

  function ValidateDraw(signature: GpuRenderPassSignature, draw: PassDraw): Option<RenderErrorCause> {
    if !PipelineMatches(signature, draw.pipeline) then Some(InvalidDraw)
    else if !ScissorFits(signature.extent, draw.scissor) then Some(InvalidDraw)
    else None
  }

  function ValidateDepthStencilAccessForDraw(
      attachment: Option<DepthStencilTarget>, draw: PassDraw): Option<RenderErrorCause>
  {
    if attachment.None? then None
    else
      var target, pipeline := attachment.value, draw.pipeline;
      if pipeline.depthWriteEnabled.Some? && target.depth.None? then Some(InvalidAttachment)
      else if pipeline.stencilMayWrite.Some? && target.stencil.None? then Some(InvalidAttachment)
      else if target.depth.Some? && target.depth.value.access == ReadOnlyAspect
              && pipeline.depthWriteEnabled == Some(true) then Some(InvalidAttachment)
      else if target.stencil.Some? && target.stencil.value.access == ReadOnlyAspect
              && pipeline.stencilMayWrite == Some(true) then Some(InvalidAttachment)
      else None
  }

  predicate DrawAccepted(
      signature: GpuRenderPassSignature, depthStencil: Option<DepthStencilTarget>, draw: PassDraw)
  {
    && ValidateDraw(signature, draw).None?
    && ValidateDepthStencilAccessForDraw(depthStencil, draw).None?
  }

  // ---------------------------------------------------------------------------------------------
  // The operation
  // ---------------------------------------------------------------------------------------------

  datatype GpuRenderOperation = GpuRenderOperation(
    colors: seq<ColorTarget>,
    depthStencil: Option<DepthStencilTarget>,
    draws: seq<PassDraw>,
    timestampWrites: Option<seq<GpuQueryAccess>>,
    signature: GpuRenderPassSignature,
    accesses: seq<GpuResourceAccess>)

  function ColorAccesses(colors: seq<ColorTarget>): seq<GpuResourceAccess> {
    if |colors| == 0 then []
    else
      var last := colors[|colors| - 1];
      ColorAccesses(colors[..|colors| - 1]) + [Texture(last.sourceAccess)]
      + if last.resolveTarget.Some? then [Texture(last.resolveTarget.value.access)] else []
  }

  function DepthStencilAccesses(target: Option<DepthStencilTarget>): seq<GpuResourceAccess> {
    if target.None? then []
    else
      (if target.value.depthAccess.Some? then [Texture(target.value.depthAccess.value)] else [])
      + (if target.value.stencilAccess.Some? then [Texture(target.value.stencilAccess.value)] else [])
  }

  function DrawAccesses(draws: seq<PassDraw>): seq<GpuResourceAccess> {
    if |draws| == 0 then []
    else DrawAccesses(draws[..|draws| - 1]) + draws[|draws| - 1].accesses
  }

  function TimestampAccesses(writes: Option<seq<GpuQueryAccess>>): seq<GpuResourceAccess> {
    if writes.None? then []
    else seq(|writes.value|, i requires 0 <= i < |writes.value| => Query(writes.value[i]))
  }

  /** Attachments, then draws, then timestamp queries. */
  function AccessList(
      colors: seq<ColorTarget>, depthStencil: Option<DepthStencilTarget>, draws: seq<PassDraw>,
      writes: Option<seq<GpuQueryAccess>>): seq<GpuResourceAccess>
  {
    ColorAccesses(colors) + DepthStencilAccesses(depthStencil) + DrawAccesses(draws) + TimestampAccesses(writes)
  }

  predicate HasWork(
      colors: seq<ColorTarget>, depthStencil: Option<DepthStencilTarget>, draws: seq<PassDraw>,
      writes: Option<seq<GpuQueryAccess>>)
  {
    || draws != []
    || (exists i | 0 <= i < |colors| :: colors[i].load == Clear)
    || (depthStencil.Some? && depthStencil.value.depth.Some? && depthStencil.value.depth.value.load == Clear)
    || (depthStencil.Some? && depthStencil.value.stencil.Some? && depthStencil.value.stencil.value.load == Clear)
    || writes.Some?
  }

  method CollectColorAccesses(colors: seq<ColorTarget>) returns (accesses: seq<GpuResourceAccess>)
    ensures accesses == ColorAccesses(colors)
  {
    accesses := [];
    for i := 0 to |colors|
      invariant accesses == ColorAccesses(colors[..i])
    {
      assert colors[..i + 1][..i] == colors[..i];
      accesses := accesses + [Texture(colors[i].sourceAccess)];
      if colors[i].resolveTarget.Some? {
        accesses := accesses + [Texture(colors[i].resolveTarget.value.access)];
      }
    }
    assert colors[..|colors|] == colors;
  }

  method CollectDrawAccesses(draws: seq<PassDraw>) returns (accesses: seq<GpuResourceAccess>)
    ensures accesses == DrawAccesses(draws)
  {
    accesses := [];
    for i := 0 to |draws|
      invariant accesses == DrawAccesses(draws[..i])
    {
      assert draws[..i + 1][..i] == draws[..i];
      accesses := accesses + draws[i].accesses;
    }
    assert draws[..|draws|] == draws;
  }

  /** The first draw the pass refuses. */
  predicate FirstRefused(
      signature: GpuRenderPassSignature, depthStencil: Option<DepthStencilTarget>, draws: seq<PassDraw>, i: nat)
  {
    && i < |draws| && !DrawAccepted(signature, depthStencil, draws[i])
    && forall k | 0 <= k < i :: DrawAccepted(signature, depthStencil, draws[k])
  }

  /** The cause of the first refused draw. */
  ghost predicate DrawsRefused(
      signature: GpuRenderPassSignature, depthStencil: Option<DepthStencilTarget>, draws: seq<PassDraw>,
      cause: RenderErrorCause)
  {
    exists i: nat ::
      && FirstRefused(signature, depthStencil, draws, i)
      && cause == if ValidateDraw(signature, draws[i]).Some? then InvalidDraw else InvalidAttachment
  }

  /** No operation over these attachments, draws and timestamps is acceptable. */
  ghost predicate Unbuildable(
      colors: seq<ColorTarget>, depthStencil: Option<DepthStencilTarget>, draws: seq<PassDraw>,
      writes: Option<seq<GpuQueryAccess>>)
  {
    forall op: GpuRenderOperation | op.colors == colors && op.depthStencil == depthStencil && op.draws == draws
                                    && op.timestampWrites == writes :: !Accepted(op)
  }

  lemma NoAttachmentFails(
      colors: seq<ColorTarget>, depthStencil: Option<DepthStencilTarget>, draws: seq<PassDraw>,
      writes: Option<seq<GpuQueryAccess>>)
    requires colors == [] && depthStencil.None?
    ensures FailsWith(colors, depthStencil, draws, writes, InvalidAttachment)
    ensures Unbuildable(colors, depthStencil, draws, writes)
  {
    assert Sources(colors, depthStencil) == [];
  }

  lemma NoWorkFails(
      colors: seq<ColorTarget>, depthStencil: Option<DepthStencilTarget>, draws: seq<PassDraw>,
      writes: Option<seq<GpuQueryAccess>>)
    requires Sources(colors, depthStencil) != [] && !HasWork(colors, depthStencil, draws, writes)
    ensures FailsWith(colors, depthStencil, draws, writes, ZeroWork)
    ensures Unbuildable(colors, depthStencil, draws, writes)
  {
  }

  lemma NoSignatureFails(
      colors: seq<ColorTarget>, depthStencil: Option<DepthStencilTarget>, draws: seq<PassDraw>,
      writes: Option<seq<GpuQueryAccess>>)
    requires Sources(colors, depthStencil) != [] && HasWork(colors, depthStencil, draws, writes)
    requires !AttachmentsCompatible(colors, depthStencil)
    ensures FailsWith(colors, depthStencil, draws, writes, InvalidAttachment)
    ensures Unbuildable(colors, depthStencil, draws, writes)
  {
    var u, v :| u in Sources(colors, depthStencil) && v in Sources(colors, depthStencil)
                && !AttachmentCompatible(FactOf(u), FactOf(v));
    forall signature
      ensures !SignatureOf(signature, colors, depthStencil)
    {
      if SignatureOf(signature, colors, depthStencil) {
        SignatureMakesCompatible(signature, colors, depthStencil, u, v);
      }
    }
  }

  lemma SignatureMakesCompatible(
      signature: GpuRenderPassSignature, colors: seq<ColorTarget>, depthStencil: Option<DepthStencilTarget>,
      u: GpuTextureView, v: GpuTextureView)
    requires SignatureOf(signature, colors, depthStencil)
    requires u in Sources(colors, depthStencil) && v in Sources(colors, depthStencil)
    ensures AttachmentCompatible(FactOf(u), FactOf(v))
  {
  }

  lemma ScopeFails(
      signature: GpuRenderPassSignature, colors: seq<ColorTarget>, depthStencil: Option<DepthStencilTarget>,
      draws: seq<PassDraw>, writes: Option<seq<GpuQueryAccess>>)
    requires Sources(colors, depthStencil) != [] && HasWork(colors, depthStencil, draws, writes)
    requires SignatureOf(signature, colors, depthStencil)
    requires forall i | 0 <= i < |draws| :: DrawAccepted(signature, depthStencil, draws[i])
    requires !PassAccepts(AccessList(colors, depthStencil, draws, writes))
    ensures FailsWith(colors, depthStencil, draws, writes, OperationAccessContradiction)
    ensures Unbuildable(colors, depthStencil, draws, writes)
  {
  }

  lemma RefusedDrawFails(
      signature: GpuRenderPassSignature, colors: seq<ColorTarget>, depthStencil: Option<DepthStencilTarget>,
      draws: seq<PassDraw>, writes: Option<seq<GpuQueryAccess>>, cause: RenderErrorCause)
    requires Sources(colors, depthStencil) != [] && HasWork(colors, depthStencil, draws, writes)
    requires SignatureOf(signature, colors, depthStencil) && DrawsRefused(signature, depthStencil, draws, cause)
    ensures FailsWith(colors, depthStencil, draws, writes, cause)
    ensures Unbuildable(colors, depthStencil, draws, writes)
  {
    var i: nat :|
      && FirstRefused(signature, depthStencil, draws, i)
      && cause == if ValidateDraw(signature, draws[i]).Some? then InvalidDraw else InvalidAttachment;
    SignatureIsDetermined(signature, colors, depthStencil);
    forall op: GpuRenderOperation | op.colors == colors && op.depthStencil == depthStencil && op.draws == draws
      ensures !Accepted(op)
    {
      if SignatureOf(op.signature, colors, depthStencil) {
        assert op.signature == signature && !DrawAccepted(op.signature, depthStencil, op.draws[i]);
      }
    }
  }

  /** The verdict on the draws, judged one by one. */
  method CheckDraws(
      signature: GpuRenderPassSignature, depthStencil: Option<DepthStencilTarget>, draws: seq<PassDraw>)
      returns (refused: Option<RenderErrorCause>)
    ensures refused.None? <==> forall i | 0 <= i < |draws| :: DrawAccepted(signature, depthStencil, draws[i])
    ensures refused.Some? ==> DrawsRefused(signature, depthStencil, draws, refused.value)
  {
    for i := 0 to |draws|
      invariant forall k | 0 <= k < i :: DrawAccepted(signature, depthStencil, draws[k])
    {
      var drawError := ValidateDraw(signature, draws[i]);
      if drawError.Some? {
        assert FirstRefused(signature, depthStencil, draws, i);
        return drawError;
      }
      var accessError := ValidateDepthStencilAccessForDraw(depthStencil, draws[i]);
      if accessError.Some? {
        assert FirstRefused(signature, depthStencil, draws, i);
        return accessError;
      }
    }
    return None;
  }

  /** Which rule a reported cause stands for, given that every earlier rule was met. */
  ghost predicate FailsWith(
      colors: seq<ColorTarget>, depthStencil: Option<DepthStencilTarget>, draws: seq<PassDraw>,
      writes: Option<seq<GpuQueryAccess>>, cause: RenderErrorCause)
  {
    var shaped := Sources(colors, depthStencil) != [] && HasWork(colors, depthStencil, draws, writes);
    match cause
    case ZeroWork => Sources(colors, depthStencil) != [] && !HasWork(colors, depthStencil, draws, writes)
    case InvalidAttachment =>
      || Sources(colors, depthStencil) == []
      || (shaped && forall signature :: !SignatureOf(signature, colors, depthStencil))
      || (shaped && exists signature, i: nat :: SignatureOf(signature, colors, depthStencil)
                                           && FirstRefused(signature, depthStencil, draws, i)
                                           && ValidateDraw(signature, draws[i]).None?)
    case InvalidDraw =>
      shaped && exists signature, i: nat :: SignatureOf(signature, colors, depthStencil)
                                       && FirstRefused(signature, depthStencil, draws, i)
                                       && ValidateDraw(signature, draws[i]).Some?
    case OperationAccessContradiction =>
      && shaped
      && (exists signature :: SignatureOf(signature, colors, depthStencil)
                              && forall i | 0 <= i < |draws| :: DrawAccepted(signature, depthStencil, draws[i]))
      && !PassAccepts(AccessList(colors, depthStencil, draws, writes))
  }

  /**
   * The pass constructor. Acceptance is characterized completely, a refusal names the first rule that
   * fails, and the stored access list is exactly the one every attachment, draw and timestamp
   * contributes.
   */
  method NewRenderOperation(
      colors: seq<ColorTarget>, depthStencil: Option<DepthStencilTarget>, draws: seq<PassDraw>,
      timestampWrites: Option<seq<GpuQueryAccess>>)
    returns (r: Result<GpuRenderOperation, RenderErrorCause>)
    ensures r.Ok? ==>
              var op := r.value;
              && op.colors == colors && op.depthStencil == depthStencil && op.draws == draws
              && op.timestampWrites == timestampWrites
              && op.accesses == AccessList(colors, depthStencil, draws, timestampWrites)
              && Accepted(op)
    ensures r.Err? ==> Unbuildable(colors, depthStencil, draws, timestampWrites)
    ensures r.Err? ==> FailsWith(colors, depthStencil, draws, timestampWrites, r.error)
  {
    if |colors| == 0 && depthStencil.None? {
      NoAttachmentFails(colors, depthStencil, draws, timestampWrites);
      return Err(InvalidAttachment);
    }
    assert Sources(colors, depthStencil) != [];
    if !HasWork(colors, depthStencil, draws, timestampWrites) {
      NoWorkFails(colors, depthStencil, draws, timestampWrites);
      return Err(ZeroWork);
    }
    var derived := FromAttachments(colors, depthStencil);
    if derived.Err? {
      NoSignatureFails(colors, depthStencil, draws, timestampWrites);
      return Err(InvalidAttachment);
    }
    var signature := derived.value;

    var refused := CheckDraws(signature, depthStencil, draws);
    if refused.Some? {
      RefusedDrawFails(signature, colors, depthStencil, draws, timestampWrites, refused.value);
      return Err(refused.value);
    }

    var colorAccesses := CollectColorAccesses(colors);
    var drawAccesses := CollectDrawAccesses(draws);
    var accesses := colorAccesses + DepthStencilAccesses(depthStencil) + drawAccesses
                    + TimestampAccesses(timestampWrites);
    var scope := ValidateRenderPassUsageScope(accesses);
    if scope.Err? {
      ScopeFails(signature, colors, depthStencil, draws, timestampWrites);
      return Err(OperationAccessContradiction);
    }
    return Ok(GpuRenderOperation(colors, depthStencil, draws, timestampWrites, signature, accesses));
  }

  /** Everything the constructor promises about a stored operation. */
  predicate Accepted(op: GpuRenderOperation) {
    && Sources(op.colors, op.depthStencil) != []
    && HasWork(op.colors, op.depthStencil, op.draws, op.timestampWrites)
    && SignatureOf(op.signature, op.colors, op.depthStencil)
    && (forall i | 0 <= i < |op.draws| :: DrawAccepted(op.signature, op.depthStencil, op.draws[i]))
    && op.accesses == AccessList(op.colors, op.depthStencil, op.draws, op.timestampWrites)
    && PassAccepts(op.accesses)
  }

  lemma SignatureIsDetermined(
      signature: GpuRenderPassSignature, colors: seq<ColorTarget>, depthStencil: Option<DepthStencilTarget>)
    requires SignatureOf(signature, colors, depthStencil)
    requires Sources(colors, depthStencil) != []
    ensures forall other | SignatureOf(other, colors, depthStencil) :: other == signature
  {
    var view := Sources(colors, depthStencil)[0];
    assert view in Sources(colors, depthStencil);
  }

  // ---------------------------------------------------------------------------------------------
  // What an accepted pass guarantees
  // ---------------------------------------------------------------------------------------------

  predicate AttachmentsChecked(colors: seq<ColorTarget>, depthStencil: Option<DepthStencilTarget>) {
    && (forall i | 0 <= i < |colors| :: ColorTargetChecked(colors[i]))
    && (depthStencil.Some? ==> DepthStencilTargetChecked(depthStencil.value))
  }

  lemma OneOfEach(target: ColorTarget, draw: PassDraw)
    requires target.resolveTarget.None?
    ensures AccessList([target], None, [draw], None) == [Texture(target.sourceAccess)] + draw.accesses
    ensures Sources([target], None) == [target.source]
  {
    assert [target][..0] == [] && [draw][..0] == [];
    assert ColorAccesses([target]) == [Texture(target.sourceAccess)];
    assert DrawAccesses([draw]) == draw.accesses;
  }

  /** Drawing into one texture while sampling another is accepted, whatever the attachment stores. */
  lemma DrawingWhileSamplingIsAccepted(target: ColorTarget, draw: PassDraw, use: GpuTextureAccess)
    returns (op: GpuRenderOperation)
    requires target.resolveTarget.None? && target.sourceAccess.kind.ColorAttachment?
    requires draw.accesses == [Texture(use)] && use.kind == SampledRead
    requires use.texture.id != target.sourceAccess.texture.id
    requires var fact := FactOf(target.source);
             && PipelineMatches(
                  GpuRenderPassSignature(fact.extent, fact.sampleCount, fact.multiview, [fact.format], None),
                  draw.pipeline)
             && ScissorFits(fact.extent, draw.scissor)
    ensures Accepted(op) && op.colors == [target] && op.depthStencil == None && op.draws == [draw]
    ensures target.sourceAccess.Checked() && use.Checked() ==> Coherent(op.accesses)
  {
    var fact := FactOf(target.source);
    var signature := GpuRenderPassSignature(fact.extent, fact.sampleCount, fact.multiview, [fact.format], None);
    OneOfEach(target, draw);
    op := GpuRenderOperation(
      [target], None, [draw], None, signature, [Texture(target.sourceAccess), Texture(use)]);
    assert signature.colorFormats == seq(1, i requires 0 <= i < 1 => FactOf([target][i].source).format);
  }

  /** Every attachment, the draws' scissors and the effective mip extents agree. */
  lemma AcceptedPassHasOneShape(op: GpuRenderOperation, view: GpuTextureView, draw: PassDraw)
    requires Accepted(op)
    requires view in Sources(op.colors, op.depthStencil) && draw in op.draws
    ensures var extent := RenderExtent(view.texture, view.subresources.baseMipLevel);
            && extent == op.signature.extent
            && view.texture.sampleCount == op.signature.sampleCount == draw.pipeline.sampleCount
            && FactOf(view).multiview == op.signature.multiview == draw.pipeline.multiview
            && draw.scissor.x + draw.scissor.width <= extent.width
            && draw.scissor.y + draw.scissor.height <= extent.height
            && FactOf(view).format in draw.pipeline.colorFormats
               + (if draw.pipeline.depthStencilFormat.Some? then [draw.pipeline.depthStencilFormat.value] else [])
  {
    var formats := draw.pipeline.colorFormats;
    var i :| 0 <= i < |Sources(op.colors, op.depthStencil)| && Sources(op.colors, op.depthStencil)[i] == view;
    if i < |op.colors| {
      assert formats[i] == FactOf(view).format;
    }
  }

  /** The accesses through which the pass may write an attachment or a resolve target. */
  predicate WritableAttachment(access: GpuResourceAccess) {
    access.Texture?
    && match access.texture.kind
       case ColorAttachment(_, _) => true
       case MultisampleResolveDestination => true
       case DepthStencilAttachment(mode, _, _) => mode == ReadWriteAspect
       case _ => false
  }

  predicate ShaderTextureUse(access: GpuResourceAccess) {
    access.Texture?
    && access.texture.kind in {SampledRead, StorageRead, StorageWrite, StorageReadWrite}
  }

  lemma {:induction false} ColorAccessesLocate(colors: seq<ColorTarget>, i: nat)
    requires i < |colors|
    ensures Texture(colors[i].sourceAccess) in ColorAccesses(colors)
    ensures colors[i].resolveTarget.Some? ==> Texture(colors[i].resolveTarget.value.access) in ColorAccesses(colors)
  {
    if i < |colors| - 1 {
      ColorAccessesLocate(colors[..|colors| - 1], i);
    }
  }

  lemma {:induction false} DrawAccessesLocate(draws: seq<PassDraw>, i: nat, access: GpuResourceAccess)
    requires i < |draws| && access in draws[i].accesses
    ensures access in DrawAccesses(draws)
  {
    if i < |draws| - 1 {
      DrawAccessesLocate(draws[..|draws| - 1], i, access);
    }
  }

  /**
   * In an accepted pass two places of the access list that reach a common texture point are never
   * two writable attachments, and never a writable attachment beside a sampled or storage use.
   */
  lemma AcceptedPassIsolatesAttachments(op: GpuRenderOperation, i: nat, j: nat, id: nat, point: Point)
    requires Accepted(op) && Coherent(op.accesses)
    requires i < |op.accesses| && j < |op.accesses| && i != j
    requires TouchesTexturePoint(op.accesses[i], id, point) && TouchesTexturePoint(op.accesses[j], id, point)
    ensures !(WritableAttachment(op.accesses[i]) && WritableAttachment(op.accesses[j]))
    ensures !(WritableAttachment(op.accesses[i]) && ShaderTextureUse(op.accesses[j]))
  {
    AcceptedIsPointwise(op.accesses);
    assert UsageClass(op.accesses[i]) == UsageClass(op.accesses[j]);
  }

  lemma AttachmentExcludesShaderUse(op: GpuRenderOperation, target: GpuResourceAccess, use: GpuResourceAccess)
    requires Accepted(op) && Coherent(op.accesses)
    requires target in op.accesses && WritableAttachment(target)
    requires use in op.accesses && ShaderTextureUse(use)
    ensures forall id, point :: !(TouchesTexturePoint(target, id, point) && TouchesTexturePoint(use, id, point))
  {
    var i :| 0 <= i < |op.accesses| && op.accesses[i] == target;
    var j :| 0 <= j < |op.accesses| && op.accesses[j] == use;
    forall id, point | TouchesTexturePoint(target, id, point) && TouchesTexturePoint(use, id, point)
      ensures false
    {
      AcceptedPassIsolatesAttachments(op, i, j, id, point);
    }
  }

  /**
   * Stated on the pass itself: what a draw samples or stores through a texture is disjoint from
   * every point the views of its color attachments and resolve targets select.
   */
  lemma DrawsNeverTouchColorTargets(op: GpuRenderOperation, color: nat, draw: nat, use: GpuResourceAccess)
    requires Accepted(op) && Coherent(op.accesses)
    requires AttachmentsChecked(op.colors, op.depthStencil)
    requires color < |op.colors| && draw < |op.draws|
    requires use in op.draws[draw].accesses && ShaderTextureUse(use)
    ensures forall id, point | TouchesTexturePoint(use, id, point) ::
              && !ViewSelects(op.colors[color].source, id, point)
              && (op.colors[color].resolveTarget.Some? ==>
                    !ViewSelects(op.colors[color].resolveTarget.value.destination, id, point))
  {
    ColorAccessesLocate(op.colors, color);
    DrawAccessesLocate(op.draws, draw, use);
    var target := op.colors[color];
    ViewAccessSelectsView(target.source, target.sourceAccess, ColorAttachment(target.load, target.store));
    AttachmentExcludesShaderUse(op, Texture(target.sourceAccess), use);
    if target.resolveTarget.Some? {
      var resolve := target.resolveTarget.value;
      ViewAccessSelectsView(resolve.destination, resolve.access, MultisampleResolveDestination);
      AttachmentExcludesShaderUse(op, Texture(resolve.access), use);
    }
  }

  predicate ViewSelects(view: GpuTextureView, id: nat, point: Point) {
    view.texture.id == id && Covers(view.subresources, view.texture.format, point)
  }

  lemma ViewAccessSelectsView(view: GpuTextureView, access: GpuTextureAccess, kind: GpuTextureAccessKind)
    requires BuiltFrom(access, view, view.subresources.aspect, kind)
    ensures access.kind == kind
    ensures forall id, point :: TouchesTexturePoint(Texture(access), id, point) <==> ViewSelects(view, id, point)
  {
  }

  /** Where a color attachment's accesses sit in the list: the source, then its resolve target. */
  lemma {:induction false} ColorAccessesAt(colors: seq<ColorTarget>, i: nat)
    requires i < |colors|
    ensures var at := |ColorAccesses(colors[..i])|;
            var all := ColorAccesses(colors);
            && at < |all| && all[at] == Texture(colors[i].sourceAccess)
            && (colors[i].resolveTarget.Some? ==>
                  at + 1 < |all| && all[at + 1] == Texture(colors[i].resolveTarget.value.access))
            && at + (if colors[i].resolveTarget.Some? then 2 else 1) == |ColorAccesses(colors[..i + 1])| <= |all|
    decreases |colors|
  {
    var front := colors[..|colors| - 1];
    if i < |colors| - 1 {
      ColorAccessesAt(front, i);
      assert front[..i] == colors[..i] && front[..i + 1] == colors[..i + 1];
    } else {
      assert colors[..i] == front && colors[..i + 1] == colors;
    }
  }

  lemma {:induction false} ColorAccessesGrow(colors: seq<ColorTarget>, i: nat, j: nat)
    requires i <= j <= |colors|
    ensures |ColorAccesses(colors[..i])| <= |ColorAccesses(colors[..j])|
  {
    if i < j {
      ColorAccessesGrow(colors, i, j - 1);
      assert colors[..j][..j - 1] == colors[..j - 1];
    }
  }

  /** One way a pass writes color: an attachment's source view, or its resolve destination. */
  datatype ColorWriter = ColorWriter(attachment: nat, resolves: bool)

  predicate HasWriter(op: GpuRenderOperation, w: ColorWriter) {
    w.attachment < |op.colors| && (w.resolves ==> op.colors[w.attachment].resolveTarget.Some?)
  }

  function WriterView(op: GpuRenderOperation, w: ColorWriter): GpuTextureView
    requires HasWriter(op, w)
  {
    var target := op.colors[w.attachment];
    if w.resolves then target.resolveTarget.value.destination else target.source
  }

  function WriterAccess(op: GpuRenderOperation, w: ColorWriter): GpuTextureAccess
    requires HasWriter(op, w)
  {
    var target := op.colors[w.attachment];
    if w.resolves then target.resolveTarget.value.access else target.sourceAccess
  }

  /** Where the writer's access stands in the list. */
  function WriterPlace(op: GpuRenderOperation, w: ColorWriter): nat
    requires HasWriter(op, w)
  {
    |ColorAccesses(op.colors[..w.attachment])| + if w.resolves then 1 else 0
  }

  lemma WriterStandsAtPlace(op: GpuRenderOperation, w: ColorWriter)
    requires op.accesses == AccessList(op.colors, op.depthStencil, op.draws, op.timestampWrites)
    requires HasWriter(op, w)
    ensures WriterPlace(op, w) < |ColorAccesses(op.colors[..w.attachment + 1])|
    ensures WriterPlace(op, w) < |op.accesses| && op.accesses[WriterPlace(op, w)] == Texture(WriterAccess(op, w))
  {
    ColorAccessesAt(op.colors, w.attachment);
    ColorAccessesComeFirst(op, WriterPlace(op, w));
  }

  lemma ColorAccessesComeFirst(op: GpuRenderOperation, place: nat)
    requires op.accesses == AccessList(op.colors, op.depthStencil, op.draws, op.timestampWrites)
    requires place < |ColorAccesses(op.colors)|
    ensures place < |op.accesses| && op.accesses[place] == ColorAccesses(op.colors)[place]
  {
  }

  lemma WritersStandApart(op: GpuRenderOperation, v: ColorWriter, w: ColorWriter)
    requires op.accesses == AccessList(op.colors, op.depthStencil, op.draws, op.timestampWrites)
    requires HasWriter(op, v) && HasWriter(op, w) && v != w
    ensures WriterPlace(op, v) != WriterPlace(op, w)
  {
    WriterStandsAtPlace(op, v);
    WriterStandsAtPlace(op, w);
    if v.attachment < w.attachment {
      ColorAccessesGrow(op.colors, v.attachment + 1, w.attachment);
    } else if w.attachment < v.attachment {
      ColorAccessesGrow(op.colors, w.attachment + 1, v.attachment);
    }
  }

  lemma WriterTouchesItsView(op: GpuRenderOperation, w: ColorWriter, id: nat, point: Point)
    requires HasWriter(op, w) && ColorTargetChecked(op.colors[w.attachment])
    ensures WritableAttachment(Texture(WriterAccess(op, w)))
    ensures ViewSelects(WriterView(op, w), id, point) <==> TouchesTexturePoint(Texture(WriterAccess(op, w)), id, point)
  {
    var target := op.colors[w.attachment];
    ViewAccessSelectsView(
      WriterView(op, w), WriterAccess(op, w),
      if w.resolves then MultisampleResolveDestination else ColorAttachment(target.load, target.store));
  }

  /**
   * No two color sources or resolve destinations of an accepted pass share a subresource point, an
   * attachment's own source and resolve destination included.
   */
  lemma ColorTargetsAreDisjoint(op: GpuRenderOperation, v: ColorWriter, w: ColorWriter, id: nat, point: Point)
    requires Accepted(op) && Coherent(op.accesses)
    requires AttachmentsChecked(op.colors, op.depthStencil)
    requires HasWriter(op, v) && HasWriter(op, w) && v != w
    ensures !(ViewSelects(WriterView(op, v), id, point) && ViewSelects(WriterView(op, w), id, point))
  {
    WriterTouchesItsView(op, v, id, point);
    WriterTouchesItsView(op, w, id, point);
    WriterStandsAtPlace(op, v);
    WriterStandsAtPlace(op, w);
    WritersStandApart(op, v, w);
    if ViewSelects(WriterView(op, v), id, point) && ViewSelects(WriterView(op, w), id, point) {
      AcceptedPassIsolatesAttachments(op, WriterPlace(op, v), WriterPlace(op, w), id, point);
    }
  }

  /** A writable depth or stencil aspect is likewise out of reach of every sampled or storage use. */
  lemma DrawsNeverTouchWritableDepthStencil(op: GpuRenderOperation, draw: nat, use: GpuResourceAccess)
    requires Accepted(op) && Coherent(op.accesses)
    requires AttachmentsChecked(op.colors, op.depthStencil) && op.depthStencil.Some?
    requires draw < |op.draws|
    requires use in op.draws[draw].accesses && ShaderTextureUse(use)
    ensures forall id, point | TouchesTexturePoint(use, id, point)
                               && ViewSelects(op.depthStencil.value.source, id, point) ::
              && !(op.depthStencil.value.depth.Some? && op.depthStencil.value.depth.value.access == ReadWriteAspect
                   && point.plane == DepthPlane)
              && !(op.depthStencil.value.stencil.Some? && op.depthStencil.value.stencil.value.access == ReadWriteAspect
                   && point.plane == StencilPlane)
  {
    DrawAccessesLocate(op.draws, draw, use);
    DepthStencilAccessesInList(op);
    var target := op.depthStencil.value;
    if target.depth.Some? && target.depth.value.access == ReadWriteAspect {
      WritableAspectExcludesUse(
        op, target.source, target.depthAccess.value, DepthOnly, DepthPlane, target.depth.value, use);
    }
    if target.stencil.Some? && target.stencil.value.access == ReadWriteAspect {
      WritableAspectExcludesUse(
        op, target.source, target.stencilAccess.value, StencilOnly, StencilPlane, target.stencil.value, use);
    }
  }

  lemma WritableAspectExcludesUse(
      op: GpuRenderOperation, view: GpuTextureView, access: GpuTextureAccess, aspect: GpuTextureAspect, plane: Plane,
      state: AspectState, use: GpuResourceAccess)
    requires Accepted(op) && Coherent(op.accesses)
    requires (aspect == DepthOnly && plane == DepthPlane) || (aspect == StencilOnly && plane == StencilPlane)
    requires state.access == ReadWriteAspect
    requires BuiltFrom(access, view, aspect, DepthStencilAttachment(state.access, state.load, state.store))
    requires Texture(access) in op.accesses && use in op.accesses && ShaderTextureUse(use)
    ensures forall id, point | TouchesTexturePoint(use, id, point) && ViewSelects(view, id, point) ::
              point.plane != plane
  {
    AspectAccessSelectsPlane(
      view, access, aspect, plane, DepthStencilAttachment(state.access, state.load, state.store));
    AttachmentExcludesShaderUse(op, Texture(access), use);
  }

  lemma DepthStencilAccessesInList(op: GpuRenderOperation)
    requires op.depthStencil.Some?
    requires op.accesses == AccessList(op.colors, op.depthStencil, op.draws, op.timestampWrites)
    ensures var target := op.depthStencil.value;
            && (target.depthAccess.Some? ==> Texture(target.depthAccess.value) in op.accesses)
            && (target.stencilAccess.Some? ==> Texture(target.stencilAccess.value) in op.accesses)
  {
  }

  lemma AspectAccessSelectsPlane(
      view: GpuTextureView, access: GpuTextureAccess, aspect: GpuTextureAspect, plane: Plane,
      kind: GpuTextureAccessKind)
    requires (aspect == DepthOnly && plane == DepthPlane) || (aspect == StencilOnly && plane == StencilPlane)
    requires BuiltFrom(access, view, aspect, kind)
    ensures access.kind == kind
    ensures forall id, point | ViewSelects(view, id, point) && point.plane == plane ::
              TouchesTexturePoint(Texture(access), id, point)
  {
  }
}
