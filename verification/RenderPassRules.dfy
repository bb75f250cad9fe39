/** What an accepted render pass looks like, written out on the fields of its attachments and draws. */
module RenderPassRules {
  import opened Arithmetic
  import opened Common
  import opened TextureFormat
  import opened Resource
  import opened Access
  import opened PassUsage
  import opened RenderPass

  // ---------------------------------------------------------------------------------------------
  // The signature
  // ---------------------------------------------------------------------------------------------

  /** The length of an edge at a mip level: whole texels of the level, never fewer than one. */
  predicate IsMipLength(length: nat, base: u32, level: u32) {
    && length > 0
    && base < (length + 1) * Pow2(level)
    && (length > 1 ==> length * Pow2(level) <= base)
  }

  lemma MipLengthIsExact(base: u32, level: u32, length: nat)
    ensures length == MipExtentOf(base, level) <==> IsMipLength(length, base, level)
  {
    ShiftReaches(base, level, length);
    ShiftReaches(base, level, length + 1);
  }

  /** The extent is that of the mip level the view renders to; a one-dimensional texture is one texel high. */
  predicate ShowsExtent(view: GpuTextureView, extent: GpuRenderExtent) {
    var texture, level := view.texture, view.subresources.baseMipLevel;
    && IsMipLength(extent.width, texture.width, level)
    && IsMipLength(extent.height, texture.height, level)
  }

  /** An array view renders one view per layer. */
  predicate MatchesView(signature: GpuRenderPassSignature, view: GpuTextureView) {
    && ShowsExtent(view, signature.extent)
    && view.texture.sampleCount == signature.sampleCount
    && (view.dimension == ViewD2Array <==> signature.multiview.Some?)
    && (view.dimension == ViewD2Array ==> signature.multiview.value == view.subresources.arrayLayerCount)
  }

  /** A view is rendered in its own format, or in that of its texture. */
  predicate NamesFormat(view: GpuTextureView, format: GpuTextureFormat) {
    view.format == Some(format) || (view.format.None? && view.texture.format == format)
  }

  predicate MeetsSignature(
      signature: GpuRenderPassSignature, colors: seq<ColorTarget>, depthStencil: Option<DepthStencilTarget>)
  {
    && |signature.colorFormats| == |colors|
    && (forall i | 0 <= i < |colors| ::
          && MatchesView(signature, colors[i].source)
          && NamesFormat(colors[i].source, signature.colorFormats[i]))
    && (signature.depthStencilFormat.Some? <==> depthStencil.Some?)
    && (depthStencil.Some? ==>
          && MatchesView(signature, depthStencil.value.source)
          && NamesFormat(depthStencil.value.source, signature.depthStencilFormat.value))
  }

  lemma FactIsExact(signature: GpuRenderPassSignature, view: GpuTextureView, format: GpuTextureFormat)
    ensures FactOf(view) == AttachmentFact(signature.extent, signature.sampleCount, signature.multiview, format)
            <==> MatchesView(signature, view) && NamesFormat(view, format)
  {
    var texture, level := view.texture, view.subresources.baseMipLevel;
    MipLengthIsExact(texture.width, level, signature.extent.width);
    MipLengthIsExact(texture.height, level, signature.extent.height);
    if texture.dimension == D1 {
      ShiftReaches(1, level, 2);
      MulMonotone(1, Pow2(level), 2);
    }
  }

  /** The signature a pass carries is the one its views have in common. */
  lemma SignatureRules(
      signature: GpuRenderPassSignature, colors: seq<ColorTarget>, depthStencil: Option<DepthStencilTarget>)
    ensures SignatureOf(signature, colors, depthStencil) <==> MeetsSignature(signature, colors, depthStencil)
  {
    if SignatureOf(signature, colors, depthStencil) {
      SignatureIsMet(signature, colors, depthStencil);
    }
    if MeetsSignature(signature, colors, depthStencil) {
      MetSignatureIsIt(signature, colors, depthStencil);
    }
  }

  lemma SignatureIsMet(
      signature: GpuRenderPassSignature, colors: seq<ColorTarget>, depthStencil: Option<DepthStencilTarget>)
    requires SignatureOf(signature, colors, depthStencil)
    ensures MeetsSignature(signature, colors, depthStencil)
  {
    var sources := Sources(colors, depthStencil);
    forall i | 0 <= i < |colors|
      ensures MatchesView(signature, colors[i].source)
      ensures NamesFormat(colors[i].source, signature.colorFormats[i])
    {
      assert sources[i] in sources;
      FactIsExact(signature, colors[i].source, signature.colorFormats[i]);
    }
    if depthStencil.Some? {
      assert sources[|colors|] in sources;
      FactIsExact(signature, depthStencil.value.source, signature.depthStencilFormat.value);
    }
  }

  lemma MetSignatureIsIt(
      signature: GpuRenderPassSignature, colors: seq<ColorTarget>, depthStencil: Option<DepthStencilTarget>)
    requires MeetsSignature(signature, colors, depthStencil)
    ensures SignatureOf(signature, colors, depthStencil)
  {
    forall i | 0 <= i < |colors|
      ensures FactOf(colors[i].source)
           == AttachmentFact(signature.extent, signature.sampleCount, signature.multiview, signature.colorFormats[i])
    {
      FactIsExact(signature, colors[i].source, signature.colorFormats[i]);
    }
    if depthStencil.Some? {
      FactIsExact(signature, depthStencil.value.source, signature.depthStencilFormat.value);
    }
  }

  // ---------------------------------------------------------------------------------------------
  // Draws
  // ---------------------------------------------------------------------------------------------

  /** The pipeline was built for this pass and nothing is drawn outside of it. */
  predicate FitsPass(signature: GpuRenderPassSignature, draw: PassDraw) {
    && draw.pipeline.colorFormats == signature.colorFormats
    && draw.pipeline.depthStencilFormat == signature.depthStencilFormat
    && draw.pipeline.sampleCount == signature.sampleCount
    && draw.pipeline.multiview == signature.multiview
    && draw.scissor.x + draw.scissor.width <= signature.extent.width
    && draw.scissor.y + draw.scissor.height <= signature.extent.height
  }

  /**
   * The pipeline tests only aspects the attachment has, and writes only those the attachment lets it
   * write.
   */
  predicate UsesAspectsAllowed(target: DepthStencilTarget, pipeline: PipelineState) {
    && (pipeline.depthWriteEnabled.Some? ==> target.depth.Some?)
    && (pipeline.stencilMayWrite.Some? ==> target.stencil.Some?)
    && (pipeline.depthWriteEnabled == Some(true) ==> target.depth.value.access == ReadWriteAspect)
    && (pipeline.stencilMayWrite == Some(true) ==> target.stencil.value.access == ReadWriteAspect)
  }

  predicate MeetsPass(signature: GpuRenderPassSignature, depthStencil: Option<DepthStencilTarget>, draw: PassDraw) {
    && FitsPass(signature, draw)
    && (depthStencil.Some? ==> UsesAspectsAllowed(depthStencil.value, draw.pipeline))
  }

  /** A draw is refused for the signature or the scissor first, and for the aspects it uses second. */
  lemma DrawRules(signature: GpuRenderPassSignature, depthStencil: Option<DepthStencilTarget>, draw: PassDraw)
    ensures ValidateDraw(signature, draw) == if FitsPass(signature, draw) then None else Some(InvalidDraw)
    ensures ValidateDepthStencilAccessForDraw(depthStencil, draw)
         == if depthStencil.Some? && !UsesAspectsAllowed(depthStencil.value, draw.pipeline)
            then Some(InvalidAttachment) else None
    ensures DrawAccepted(signature, depthStencil, draw) <==> MeetsPass(signature, depthStencil, draw)
  {
  }

  predicate FirstMisfit(
      signature: GpuRenderPassSignature, depthStencil: Option<DepthStencilTarget>, draws: seq<PassDraw>, i: nat)
  {
    && i < |draws| && !MeetsPass(signature, depthStencil, draws[i])
    && forall k | 0 <= k < i :: MeetsPass(signature, depthStencil, draws[k])
  }

  /** The draws are refused iff one of them does not meet the pass, for what the first such draw lacks. */
  lemma DrawsRefusedIff(
      signature: GpuRenderPassSignature, depthStencil: Option<DepthStencilTarget>, draws: seq<PassDraw>,
      cause: RenderErrorCause)
    ensures DrawsRefused(signature, depthStencil, draws, cause) <==>
              exists i: nat ::
                && FirstMisfit(signature, depthStencil, draws, i)
                && cause == if FitsPass(signature, draws[i]) then InvalidAttachment else InvalidDraw
  {
    forall i | 0 <= i < |draws|
      ensures DrawAccepted(signature, depthStencil, draws[i]) <==> MeetsPass(signature, depthStencil, draws[i])
      ensures ValidateDraw(signature, draws[i]).Some? <==> !FitsPass(signature, draws[i])
    {
      DrawRules(signature, depthStencil, draws[i]);
    }
    forall i: nat
      ensures FirstMisfit(signature, depthStencil, draws, i) <==> FirstRefused(signature, depthStencil, draws, i)
    {
    }
  }

  // ---------------------------------------------------------------------------------------------
  // The access list
  // ---------------------------------------------------------------------------------------------

  function Flatten<T>(parts: seq<seq<T>>): seq<T> {
    if parts == [] then [] else parts[0] + Flatten(parts[1..])
  }

  lemma {:induction false} FlattenAppend<T>(parts: seq<seq<T>>, last: seq<T>)
    ensures Flatten(parts + [last]) == Flatten(parts) + last
  {
    if parts == [] {
      assert parts + [last] == [last];
    } else {
      FlattenAppend(parts[1..], last);
      assert (parts + [last])[1..] == parts[1..] + [last];
    }
  }

  function Listed(access: Option<GpuTextureAccess>): seq<GpuResourceAccess> {
    match access
    case Some(a) => [Texture(a)]
    case None => []
  }

  /** What one color attachment brings: the access of its source, then that of its resolve destination. */
  function OfColor(target: ColorTarget): seq<GpuResourceAccess> {
    Listed(Some(target.sourceAccess))
    + match target.resolveTarget
      case Some(resolve) => Listed(Some(resolve.access))
      case None => []
  }

  /** The access of the depth aspect comes before that of the stencil aspect. */
  function OfDepthStencil(depthStencil: Option<DepthStencilTarget>): seq<GpuResourceAccess> {
    match depthStencil
    case Some(target) => Listed(target.depthAccess) + Listed(target.stencilAccess)
    case None => []
  }

  function OfColors(colors: seq<ColorTarget>): seq<seq<GpuResourceAccess>> {
    seq(|colors|, i requires 0 <= i < |colors| => OfColor(colors[i]))
  }

  function OfDraws(draws: seq<PassDraw>): seq<seq<GpuResourceAccess>> {
    seq(|draws|, i requires 0 <= i < |draws| => draws[i].accesses)
  }

  lemma LastColorContributes(colors: seq<ColorTarget>)
    requires colors != []
    ensures ColorAccesses(colors) == ColorAccesses(colors[..|colors| - 1]) + OfColor(colors[|colors| - 1])
  {
    var before, last := ColorAccesses(colors[..|colors| - 1]), colors[|colors| - 1];
    var source := [Texture(last.sourceAccess)];
    var resolved := if last.resolveTarget.Some? then [Texture(last.resolveTarget.value.access)] else [];
    assert OfColor(last) == source + resolved;
    AppendAssociates(before, source, resolved);
  }

  lemma AppendAssociates<T>(one: seq<T>, two: seq<T>, three: seq<T>)
    ensures one + two + three == one + (two + three)
  {
  }

  lemma {:induction false} ColorsContributeInOrder(colors: seq<ColorTarget>)
    ensures ColorAccesses(colors) == Flatten(OfColors(colors))
  {
    if colors != [] {
      var front := colors[..|colors| - 1];
      ColorsContributeInOrder(front);
      LastColorContributes(colors);
      FlattenAppend(OfColors(front), OfColor(colors[|colors| - 1]));
      assert OfColors(colors) == OfColors(front) + [OfColor(colors[|colors| - 1])];
    }
  }

  lemma {:induction false} DrawsContributeInOrder(draws: seq<PassDraw>)
    ensures DrawAccesses(draws) == Flatten(OfDraws(draws))
  {
    if draws != [] {
      var front := draws[..|draws| - 1];
      DrawsContributeInOrder(front);
      FlattenAppend(OfDraws(front), draws[|draws| - 1].accesses);
      assert OfDraws(draws) == OfDraws(front) + [draws[|draws| - 1].accesses];
    }
  }

  /** Attachments come first, color before depth and stencil, and draws after them. */
  function BeforeTimestamps(op: GpuRenderOperation): seq<GpuResourceAccess> {
    Flatten(OfColors(op.colors)) + OfDepthStencil(op.depthStencil) + Flatten(OfDraws(op.draws))
  }

  /** The list goes on with one query access per timestamp write, and ends there. */
  predicate EndsWithTimestamps(
      all: seq<GpuResourceAccess>, before: seq<GpuResourceAccess>, writes: Option<seq<GpuQueryAccess>>)
  {
    && before <= all
    && |all| == |before| + (if writes.Some? then |writes.value| else 0)
    && forall k | |before| <= k < |all| :: all[k] == Query(writes.value[k - |before|])
  }

  lemma EndsWithTimestampsIff(
      all: seq<GpuResourceAccess>, before: seq<GpuResourceAccess>, writes: Option<seq<GpuQueryAccess>>)
    ensures EndsWithTimestamps(all, before, writes) <==> all == before + TimestampAccesses(writes)
  {
    if EndsWithTimestamps(all, before, writes) {
      assert all == before + TimestampAccesses(writes);
    }
  }

  predicate ListsEveryAccess(op: GpuRenderOperation) {
    EndsWithTimestamps(op.accesses, BeforeTimestamps(op), op.timestampWrites)
  }

  lemma ListsEveryAccessIff(op: GpuRenderOperation)
    ensures ListsEveryAccess(op)
            <==> op.accesses == AccessList(op.colors, op.depthStencil, op.draws, op.timestampWrites)
  {
    BeforeTimestampsIsListed(op);
    EndsWithTimestampsIff(op.accesses, BeforeTimestamps(op), op.timestampWrites);
  }

  lemma BeforeTimestampsIsListed(op: GpuRenderOperation)
    ensures AccessList(op.colors, op.depthStencil, op.draws, op.timestampWrites)
         == BeforeTimestamps(op) + TimestampAccesses(op.timestampWrites)
  {
    ColorsContributeInOrder(op.colors);
    DrawsContributeInOrder(op.draws);
    DepthStencilContributesInOrder(op.depthStencil);
  }

  lemma DepthStencilContributesInOrder(depthStencil: Option<DepthStencilTarget>)
    ensures DepthStencilAccesses(depthStencil) == OfDepthStencil(depthStencil)
  {
  }

  // ---------------------------------------------------------------------------------------------
  // The whole pass
  // ---------------------------------------------------------------------------------------------

  /** No draw, no clear of any attachment and no timestamp. */
  predicate Idle(op: GpuRenderOperation) {
    && |op.draws| == 0
    && op.timestampWrites.None?
    && (forall i | 0 <= i < |op.colors| :: op.colors[i].load != Clear)
    && (op.depthStencil.Some? && op.depthStencil.value.depth.Some? ==>
          op.depthStencil.value.depth.value.load != Clear)
    && (op.depthStencil.Some? && op.depthStencil.value.stencil.Some? ==>
          op.depthStencil.value.stencil.value.load != Clear)
  }

  /** What makes an operation a render pass, before its accesses are compared with each other. */
  predicate WellFormedPass(op: GpuRenderOperation) {
    && (|op.colors| > 0 || op.depthStencil.Some?)
    && !Idle(op)
    && MeetsSignature(op.signature, op.colors, op.depthStencil)
    && (forall i | 0 <= i < |op.draws| :: MeetsPass(op.signature, op.depthStencil, op.draws[i]))
    && ListsEveryAccess(op)
  }

  /**
   * A render pass is accepted iff it is well formed, holds no access that belongs outside of passes,
   * keeps one use per buffer and per texture point, and lets nothing else reach a point of a target.
   */
  lemma AcceptedIff(op: GpuRenderOperation)
    requires Coherent(op.accesses)
    ensures Accepted(op) <==>
              && WellFormedPass(op)
              && (forall i | 0 <= i < |op.accesses| :: !BelongsOutsidePass(op.accesses[i]))
              && BuffersKeepOneUse(op.accesses)
              && PointsKeepOneUse(op.accesses)
  {
    PassAcceptsIff(op.accesses);
    WellFormedIff(op);
  }

  lemma WellFormedIff(op: GpuRenderOperation)
    ensures Accepted(op) <==> WellFormedPass(op) && PassAccepts(op.accesses)
  {
    SignatureRules(op.signature, op.colors, op.depthStencil);
    ListsEveryAccessIff(op);
    WorkRules(op);
    assert Sources(op.colors, op.depthStencil) != [] <==> |op.colors| > 0 || op.depthStencil.Some?;
    forall i | 0 <= i < |op.draws|
      ensures DrawAccepted(op.signature, op.depthStencil, op.draws[i])
              <==> MeetsPass(op.signature, op.depthStencil, op.draws[i])
    {
      DrawRules(op.signature, op.depthStencil, op.draws[i]);
    }
  }

  lemma WorkRules(op: GpuRenderOperation)
    ensures HasWork(op.colors, op.depthStencil, op.draws, op.timestampWrites) <==> !Idle(op)
  {
  }

  /**
   * The depth and stencil state of every draw of an accepted pass: it tests only aspects the target
   * has, and writes only aspects the target opens for writing.
   */
  lemma AcceptedDrawsRespectAspects(op: GpuRenderOperation, draw: PassDraw)
    requires Accepted(op) && op.depthStencil.Some? && draw in op.draws
    ensures var target, pipeline := op.depthStencil.value, draw.pipeline;
            && (pipeline.depthWriteEnabled.Some? ==> target.depth.Some?)
            && (pipeline.stencilMayWrite.Some? ==> target.stencil.Some?)
            && (pipeline.depthWriteEnabled == Some(true) ==> target.depth.value.access == ReadWriteAspect)
            && (pipeline.stencilMayWrite == Some(true) ==> target.stencil.value.access == ReadWriteAspect)
  {
    DrawRules(op.signature, op.depthStencil, draw);
  }

  /** A plane some draw of an accepted pass may write is out of reach of every sampled or storage use. */
  lemma WrittenAspectIsNeverRead(
      op: GpuRenderOperation, writer: PassDraw, reader: nat, use: GpuResourceAccess, id: nat, point: Point)
    requires Accepted(op) && Coherent(op.accesses)
    requires AttachmentsChecked(op.colors, op.depthStencil) && op.depthStencil.Some?
    requires writer in op.draws && reader < |op.draws|
    requires use in op.draws[reader].accesses && ShaderTextureUse(use)
    requires ViewSelects(op.depthStencil.value.source, id, point)
    requires || (writer.pipeline.depthWriteEnabled == Some(true) && point.plane == DepthPlane)
             || (writer.pipeline.stencilMayWrite == Some(true) && point.plane == StencilPlane)
    ensures !TouchesTexturePoint(use, id, point)
  {
    AcceptedDrawsRespectAspects(op, writer);
    DrawsNeverTouchWritableDepthStencil(op, reader, use);
  }
}
