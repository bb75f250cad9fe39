/** What a checked draw reads, written out on its ranges, and what it needs bound. */
module RenderDrawRules {
  import opened Arithmetic
  import opened Common
  import opened Access
  import opened RenderDraw

  /** The draw steps a layout of this mode to `step`, and the host knows it. */
  predicate StepsTo(draw: GpuDrawIntent, mode: StepMode, step: nat) {
    match draw
    case Direct(vertices, instances) =>
      if mode == PerVertex then vertices.first <= step < vertices.first + vertices.count
      else instances.first <= step < instances.first + instances.count
    case Indexed(_, _, instances) =>
      mode == PerInstance && instances.first <= step < instances.first + instances.count
    case Indirect(_, _, _) => false
  }

  /** The bytes of one attribute at one step lie in the bound slice. */
  predicate Fetches(layout: VertexLayout, binding: VertexBinding, attribute: VertexAttribute, step: nat) {
    step * layout.arrayStride + attribute.offset + attribute.sizeBytes <= binding.access.range.size
  }

  ghost predicate VerticesInside(draw: GpuDrawIntent, layouts: VertexInput, bindings: seq<VertexBinding>) {
    forall i: nat, step: nat, attribute |
      i < |layouts| && i < |bindings| && attribute in layouts[i].attributes
      && StepsTo(draw, layouts[i].stepMode, step) ::
      Fetches(layouts[i], bindings[i], attribute, step)
  }

  /** An index takes two or four bytes, and its last byte lies in the bound slice. */
  predicate IndexInside(binding: IndexBinding, index: nat) {
    && (binding.format == Uint16 ==> 2 * index + 1 < binding.access.range.size)
    && (binding.format == Uint32 ==> 4 * index + 3 < binding.access.range.size)
  }

  ghost predicate IndicesInside(draw: GpuDrawIntent, indexBuffer: Option<IndexBinding>) {
    match (draw, indexBuffer)
    case (Indexed(indices, _, _), Some(binding)) =>
      forall index: nat | indices.first <= index < indices.first + indices.count :: IndexInside(binding, index)
    case _ => true
  }

  /** Indexed draws, direct or indirect, take an index buffer; no other draw does. */
  predicate TakesIndexBuffer(draw: GpuDrawIntent) {
    draw.Indexed? || (draw.Indirect? && draw.indexed)
  }

  /** The last step reaches furthest, so only the steps the draw takes matter. */
  lemma OnlyTakenStepsMatter(range: GpuDrawRange, layout: VertexLayout, binding: VertexBinding, k: nat)
    requires k < |layout.attributes|
    ensures (forall step: nat | step < End(range) :: FetchInside(step, layout, k, binding))
            <==> forall step: nat | range.first <= step < range.first + range.count ::
                   Fetches(layout, binding, layout.attributes[k], step)
  {
    var last := range.first + range.count - 1;
    assert Fetches(layout, binding, layout.attributes[k], last) <==> FetchInside(last, layout, k, binding);
    if Fetches(layout, binding, layout.attributes[k], last) {
      forall step: nat | step <= last
        ensures FetchInside(step, layout, k, binding) && Fetches(layout, binding, layout.attributes[k], step)
      {
        MulMonotone(step, last, layout.arrayStride);
      }
    }
  }

  lemma OnlyTakenIndicesMatter(indices: GpuDrawRange, binding: IndexBinding)
    ensures (forall index: nat | index < End(indices) :: IndexReadInside(index, binding))
            <==> forall index: nat | indices.first <= index < indices.first + indices.count ::
                   IndexInside(binding, index)
  {
    var last := indices.first + indices.count - 1;
    assert IndexInside(binding, last) <==> IndexReadInside(last, binding);
  }

  lemma KnownEndRules(draw: GpuDrawIntent, mode: StepMode, range: GpuDrawRange)
    requires KnownEnd(draw, mode).Some?
    requires range == if draw.Direct? then (if mode == PerVertex then draw.vertices else draw.instances)
                      else draw.indexedInstances
    ensures KnownEnd(draw, mode) == Some(End(range))
    ensures forall step: nat :: StepsTo(draw, mode, step) <==> range.first <= step < range.first + range.count
  {
  }

  lemma FetchRules(draw: GpuDrawIntent, layout: VertexLayout, binding: VertexBinding, k: nat)
    requires k < |layout.attributes|
    ensures (KnownEnd(draw, layout.stepMode).Some? ==>
               forall step: nat | step < KnownEnd(draw, layout.stepMode).value :: FetchInside(step, layout, k, binding))
            <==> forall step: nat | StepsTo(draw, layout.stepMode, step) ::
                   Fetches(layout, binding, layout.attributes[k], step)
  {
    if KnownEnd(draw, layout.stepMode).Some? {
      var range := if draw.Direct? then (if layout.stepMode == PerVertex then draw.vertices else draw.instances)
                   else draw.indexedInstances;
      KnownEndRules(draw, layout.stepMode, range);
      OnlyTakenStepsMatter(range, layout, binding, k);
    }
  }

  lemma VertexRules(draw: GpuDrawIntent, layouts: VertexInput, bindings: seq<VertexBinding>)
    requires Arranged(layouts, bindings)
    ensures FetchesInside(draw, layouts, bindings) <==> VerticesInside(draw, layouts, bindings)
  {
    forall i: nat, k: nat | i < |layouts| && k < |layouts[i].attributes|
      ensures (KnownEnd(draw, layouts[i].stepMode).Some? ==>
                 forall step: nat | step < KnownEnd(draw, layouts[i].stepMode).value ::
                   FetchInside(step, layouts[i], k, bindings[i]))
              <==> forall step: nat | StepsTo(draw, layouts[i].stepMode, step) ::
                     Fetches(layouts[i], bindings[i], layouts[i].attributes[k], step)
    {
      FetchRules(draw, layouts[i], bindings[i], k);
    }
    if VerticesInside(draw, layouts, bindings) {
      forall i: nat, k: nat | i < |layouts| && k < |layouts[i].attributes|
        ensures layouts[i].attributes[k] in layouts[i].attributes
      {
      }
    }
  }

  /**
   * A collection of vertex bindings supplies a draw iff pipeline and bindings share a layout, the
   * collection in slot order matches the vertex input slot by slot, an index buffer is there exactly
   * if the draw takes one, and everything the host knows the draw to read is bound.
   */
  lemma SuppliedIff(
      pipeline: DrawPipeline, bindings: RuntimeBindings, buffers: multiset<VertexBinding>,
      indexBuffer: Option<IndexBinding>, draw: GpuDrawIntent, arranged: seq<VertexBinding>)
    ensures Supplied(pipeline, bindings, buffers, indexBuffer, draw, arranged) <==>
              && pipeline.layout == bindings.layout
              && multiset(arranged) == buffers
              && |arranged| == |pipeline.vertexInput|
              && (forall i | 0 <= i < |arranged| :: arranged[i].slot == pipeline.vertexInput[i].slot)
              && (TakesIndexBuffer(draw) <==> indexBuffer.Some?)
              && IndicesInside(draw, indexBuffer)
              && VerticesInside(draw, pipeline.vertexInput, arranged)
  {
    if Arranged(pipeline.vertexInput, arranged) {
      VertexRules(draw, pipeline.vertexInput, arranged);
    }
    if draw.Indexed? && indexBuffer.Some? {
      OnlyTakenIndicesMatter(draw.indices, indexBuffer.value);
    }
  }

  /** Indirect arguments are accessible iff the buffer holds them and may serve indirect draws. */
  lemma ArgumentRules(draw: GpuDrawIntent)
    ensures ArgumentsAccessible(draw) <==>
              (draw.Indirect? ==>
                 && draw.argumentRange.End() <= draw.arguments.sizeBytes
                 && IndirectUsage in draw.arguments.usages)
  {
    if draw.Indirect? {
      BufferAccessRules(draw.arguments, draw.argumentRange, IndirectRead);
      assert draw.argumentRange.Holds(draw.argumentRange.End() - 1);
    }
  }

  /** The list holds the runtime bindings, the vertex buffers in slot order, the index buffer, the arguments. */
  lemma DrawAccessRules(
      bindings: RuntimeBindings, arranged: seq<VertexBinding>, indexBuffer: Option<IndexBinding>, draw: GpuDrawIntent)
    requires ArgumentsAccessible(draw)
    ensures var list := DrawAccessList(bindings, arranged, indexBuffer, draw);
            var vertices, indices := |bindings.accesses|, |bindings.accesses| + |arranged|;
            && bindings.accesses <= list
            && |list| == indices + (if indexBuffer.Some? then 1 else 0) + (if draw.Indirect? then 1 else 0)
            && (forall i | 0 <= i < |arranged| :: list[vertices + i] == Buffer(arranged[i].access))
            && (indexBuffer.Some? ==> list[indices] == Buffer(indexBuffer.value.access))
            && (draw.Indirect? ==>
                  list[|list| - 1] == Buffer(GpuBufferAccess(draw.arguments, draw.argumentRange, IndirectRead)))
  {
    if draw.Indirect? {
      BufferAccessRules(draw.arguments, draw.argumentRange, IndirectRead);
    }
  }
}
