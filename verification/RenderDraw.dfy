/** Checked draws: slot matching and the bytes vertex and index fetch may reach. */
module RenderDraw {
  import opened Arithmetic
  import opened Common
  import opened Access
  import opened Sorting

  datatype StepMode = PerVertex | PerInstance

  datatype VertexAttribute = VertexAttribute(offset: u64, sizeBytes: u64)

  datatype RawVertexLayout = RawVertexLayout(
    slot: u32, arrayStride: u64, stepMode: StepMode, attributes: seq<VertexAttribute>)

  /** The layout constructor keeps at least one attribute, and every attribute inside the stride. */
  type VertexLayout = l: RawVertexLayout |
    && l.arrayStride > 0
    && l.attributes != []
    && forall i | 0 <= i < |l.attributes| :: l.attributes[i].offset + l.attributes[i].sizeBytes <= l.arrayStride
    witness RawVertexLayout(0, 4, PerVertex, [VertexAttribute(0, 4)])

  /** The vertex-input constructor orders layouts by distinct slots. */
  type VertexInput = layouts: seq<VertexLayout> |
    forall i, j | 0 <= i < j < |layouts| :: layouts[i].slot < layouts[j].slot

  datatype VertexBinding = VertexBinding(slot: u32, access: GpuBufferAccess)

  datatype IndexFormat = Uint16 | Uint32

  datatype IndexBinding = IndexBinding(format: IndexFormat, access: GpuBufferAccess)

  datatype RawDrawRange = RawDrawRange(first: u32, count: u32)

  /** Draw ranges are nonempty and end inside u32. */
  type GpuDrawRange = r: RawDrawRange | r.count > 0 && r.first + r.count <= U32_MAX witness RawDrawRange(0, 1)

  function End(range: GpuDrawRange): u32 {
    range.first + range.count
  }

  datatype GpuDrawIntent =
    | Direct(vertices: GpuDrawRange, instances: GpuDrawRange)
    | Indexed(indices: GpuDrawRange, baseVertex: int, indexedInstances: GpuDrawRange)
    | Indirect(arguments: GpuBuffer, argumentRange: GpuBufferRange, indexed: bool)

  /** A refused indirect argument access has its own cause; every other failure is an invalid draw. */
  datatype DrawError = InvalidDraw | OperationAccessContradiction

  // ---------------------------------------------------------------------------------------------
  // Range checks
  // ---------------------------------------------------------------------------------------------

  function IndexSize(format: IndexFormat): u64 {
    match format
    case Uint16 => 2
    case Uint32 => 4
  }

  predicate IndexedRangeFits(indices: GpuDrawRange, binding: IndexBinding) {
    match CheckedMul64(End(indices), IndexSize(binding.format))
    case None => false
    case Some(required) => required <= binding.access.range.size
  }

  function MaxAttributeEnd(attributes: seq<VertexAttribute>): nat {
    if attributes == [] then 0
    else Max(attributes[0].offset + attributes[0].sizeBytes, MaxAttributeEnd(attributes[1..]))
  }

  lemma {:induction false} MaxAttributeEndIsLeastBound(attributes: seq<VertexAttribute>, bound: nat)
    ensures MaxAttributeEnd(attributes) <= bound
            <==> forall i | 0 <= i < |attributes| :: attributes[i].offset + attributes[i].sizeBytes <= bound
  {
    if attributes != [] {
      MaxAttributeEndIsLeastBound(attributes[1..], bound);
      assert attributes == [attributes[0]] + attributes[1..];
    }
  }

  predicate SteppedRangeFits(end: u32, layout: VertexLayout, binding: VertexBinding) {
    MaxAttributeEndIsLeastBound(layout.attributes, layout.arrayStride);
    var required :=
      if end == 0 then Some(0)
      else
        var base :- CheckedMul64(end - 1, layout.arrayStride);
        CheckedAdd64(base, MaxAttributeEnd(layout.attributes));
    required.Some? && required.value <= binding.access.range.size
  }

  /** Reference meaning: one attribute fetch at one step stays inside the bound slice. */
  predicate FetchInside(step: nat, layout: VertexLayout, attribute: nat, binding: VertexBinding)
    requires attribute < |layout.attributes|
  {
    step * layout.arrayStride + layout.attributes[attribute].offset + layout.attributes[attribute].sizeBytes
    <= binding.access.range.size
  }

  /** Reference meaning: one index read stays inside the bound slice. */
  predicate IndexReadInside(index: nat, binding: IndexBinding) {
    index * IndexSize(binding.format) + IndexSize(binding.format) <= binding.access.range.size
  }

  /** Overflow never decides: the check holds iff the last step's furthest attribute fits. */
  lemma SteppedRangeDecidedByLastStep(end: u32, layout: VertexLayout, binding: VertexBinding)
    requires end > 0
    ensures SteppedRangeFits(end, layout, binding)
            <==> (end - 1) * layout.arrayStride + MaxAttributeEnd(layout.attributes) <= binding.access.range.size
  {
  }

  lemma LastStepIsFurthest(end: u32, layout: VertexLayout, binding: VertexBinding, step: nat, k: nat)
    requires step < end && k < |layout.attributes|
    requires (end - 1) * layout.arrayStride + MaxAttributeEnd(layout.attributes) <= binding.access.range.size
    ensures FetchInside(step, layout, k, binding)
  {
    MulMonotone(step, end - 1, layout.arrayStride);
    MaxAttributeEndIsLeastBound(layout.attributes, MaxAttributeEnd(layout.attributes));
  }

  lemma FetchesBoundFurthestAttribute(step: nat, layout: VertexLayout, binding: VertexBinding)
    requires forall k: nat | k < |layout.attributes| :: FetchInside(step, layout, k, binding)
    ensures step * layout.arrayStride + MaxAttributeEnd(layout.attributes) <= binding.access.range.size
  {
    assert FetchInside(step, layout, 0, binding);
    var room := binding.access.range.size - step * layout.arrayStride;
    forall k | 0 <= k < |layout.attributes|
      ensures layout.attributes[k].offset + layout.attributes[k].sizeBytes <= room
    {
      assert FetchInside(step, layout, k, binding);
    }
    MaxAttributeEndIsLeastBound(layout.attributes, room);
  }

  /** The stepped check is exact: it holds iff every fetch at every step below `end` is inside. */
  lemma SteppedRangeIsExact(end: u32, layout: VertexLayout, binding: VertexBinding)
    ensures SteppedRangeFits(end, layout, binding)
            <==> forall step: nat, k: nat | step < end && k < |layout.attributes| ::
                   FetchInside(step, layout, k, binding)
  {
    if end > 0 {
      SteppedRangeDecidedByLastStep(end, layout, binding);
    }
    if SteppedRangeFits(end, layout, binding) {
      forall step: nat, k: nat | step < end && k < |layout.attributes| {
        LastStepIsFurthest(end, layout, binding, step, k);
      }
    }
    if end > 0 && forall step: nat, k: nat | step < end && k < |layout.attributes| ::
                    FetchInside(step, layout, k, binding)
    {
      FetchesBoundFurthestAttribute(end - 1, layout, binding);
    }
  }

  /** The index check is exact. */
  lemma IndexedRangeIsExact(indices: GpuDrawRange, binding: IndexBinding)
    ensures IndexedRangeFits(indices, binding)
            <==> forall index: nat | index < End(indices) :: IndexReadInside(index, binding)
  {
    if forall index: nat | index < End(indices) :: IndexReadInside(index, binding) {
      assert IndexReadInside(End(indices) - 1, binding);
    }
  }

  // ---------------------------------------------------------------------------------------------
  // Direct coverage
  // ---------------------------------------------------------------------------------------------

  /** How far a layout steps when the draw makes that known on the host. */
  function KnownEnd(draw: GpuDrawIntent, mode: StepMode): Option<u32> {
    match draw
    case Direct(vertices, instances) => Some(if mode == PerVertex then End(vertices) else End(instances))
    case Indexed(_, _, instances) => if mode == PerInstance then Some(End(instances)) else None
    case Indirect(_, _, _) => None
  }

  /** Bindings listed in the order of the layouts they serve. */
  predicate Arranged(layouts: VertexInput, bindings: seq<VertexBinding>) {
    |bindings| == |layouts| && forall i | 0 <= i < |layouts| :: bindings[i].slot == layouts[i].slot
  }

  /** Every host-known fetch of the draw is inside the binding of its own slot. */
  ghost predicate FetchesInside(draw: GpuDrawIntent, layouts: VertexInput, bindings: seq<VertexBinding>)
    requires Arranged(layouts, bindings)
  {
    forall i: nat, step: nat, k: nat |
      i < |layouts| && k < |layouts[i].attributes| && KnownEnd(draw, layouts[i].stepMode).Some?
      && step < KnownEnd(draw, layouts[i].stepMode).value ::
      FetchInside(step, layouts[i], k, bindings[i])
  }

  method ValidateDirectVertexRanges(draw: GpuDrawIntent, layouts: VertexInput, bindings: seq<VertexBinding>)
    returns (fits: bool)
    requires Arranged(layouts, bindings)
    ensures fits <==> FetchesInside(draw, layouts, bindings)
  {
    match draw
    case Direct(vertices, instances) =>
      for i := 0 to |layouts|
        invariant forall k: nat | k < i ::
                    SteppedRangeFits(KnownEnd(draw, layouts[k].stepMode).value, layouts[k], bindings[k])
      {
        var end := if layouts[i].stepMode == PerVertex then End(vertices) else End(instances);
        SteppedRangeIsExact(end, layouts[i], bindings[i]);
        if !SteppedRangeFits(end, layouts[i], bindings[i]) {
          return false;
        }
      }
      FetchesInsideFromChecks(draw, layouts, bindings);
      return true;
    case Indexed(_, _, instances) =>
      for i := 0 to |layouts|
        invariant forall k: nat | k < i && layouts[k].stepMode == PerInstance ::
                    SteppedRangeFits(End(instances), layouts[k], bindings[k])
      {
        if layouts[i].stepMode == PerInstance {
          SteppedRangeIsExact(End(instances), layouts[i], bindings[i]);
          if !SteppedRangeFits(End(instances), layouts[i], bindings[i]) {
            return false;
          }
        }
      }
      FetchesInsideFromChecks(draw, layouts, bindings);
      return true;
    case Indirect(_, _, _) =>
      return true;
  }

  lemma FetchesInsideFromChecks(draw: GpuDrawIntent, layouts: VertexInput, bindings: seq<VertexBinding>)
    requires Arranged(layouts, bindings)
    requires forall i: nat | i < |layouts| && KnownEnd(draw, layouts[i].stepMode).Some? ::
               SteppedRangeFits(KnownEnd(draw, layouts[i].stepMode).value, layouts[i], bindings[i])
    ensures FetchesInside(draw, layouts, bindings)
  {
    forall i: nat | i < |layouts| && KnownEnd(draw, layouts[i].stepMode).Some? {
      SteppedRangeIsExact(KnownEnd(draw, layouts[i].stepMode).value, layouts[i], bindings[i]);
    }
  }

  // ---------------------------------------------------------------------------------------------
  // Slot order
  // ---------------------------------------------------------------------------------------------

  const BySlot: VertexBinding -> nat := (binding: VertexBinding) => binding.slot

  lemma ArrangedHeadIsLeast(layouts: VertexInput, arranged: seq<VertexBinding>, other: seq<VertexBinding>)
    requires Arranged(layouts, arranged) && |arranged| > 0
    requires Ascending(BySlot, other) && multiset(other) == multiset(arranged)
    ensures |other| > 0 && other[0] == arranged[0]
  {
    assert |other| == |multiset(other)| == |multiset(arranged)| == |arranged|;
    assert arranged[0] in multiset(other);
    var i :| 0 <= i < |other| && other[i] == arranged[0];
    assert other[0] in multiset(arranged);
    var j :| 0 <= j < |arranged| && arranged[j] == other[0];
  }

  lemma TailMultisets<T>(one: seq<T>, other: seq<T>)
    requires one != [] && other != [] && one[0] == other[0] && multiset(one) == multiset(other)
    ensures multiset(one[1..]) == multiset(other[1..])
  {
    assert one == [one[0]] + one[1..];
    assert other == [other[0]] + other[1..];
    assert multiset(one[1..]) == multiset(one) - multiset{one[0]};
    assert multiset(other[1..]) == multiset(other) - multiset{other[0]};
  }

  /** With distinct slots there is only one arrangement, and sorting finds it. */
  lemma {:induction false} ArrangementIsUnique(
      layouts: VertexInput, arranged: seq<VertexBinding>, other: seq<VertexBinding>)
    requires Arranged(layouts, arranged)
    requires Ascending(BySlot, other) && multiset(other) == multiset(arranged)
    ensures other == arranged
    decreases |arranged|
  {
    if arranged == [] {
      assert multiset(other) == multiset{};
    } else {
      ArrangedHeadIsLeast(layouts, arranged, other);
      TailMultisets(other, arranged);
      ArrangementIsUnique(layouts[1..], arranged[1..], other[1..]);
      assert other == [other[0]] + other[1..] == arranged;
    }
  }

  lemma ArrangedAscends(layouts: VertexInput, bindings: seq<VertexBinding>)
    requires Arranged(layouts, bindings)
    ensures forall i, j | 0 <= i < j < |bindings| :: bindings[i].slot < bindings[j].slot
  {
  }

  // ---------------------------------------------------------------------------------------------
  // The draw
  // ---------------------------------------------------------------------------------------------

  datatype DrawPipeline = DrawPipeline(layout: nat, vertexInput: VertexInput)

  datatype RuntimeBindings = RuntimeBindings(layout: nat, accesses: seq<GpuResourceAccess>)

  datatype GpuRenderDraw = GpuRenderDraw(
    vertexBuffers: seq<VertexBinding>, indexBuffer: Option<IndexBinding>, draw: GpuDrawIntent,
    accesses: seq<GpuResourceAccess>)

  predicate UsesIndices(draw: GpuDrawIntent) {
    match draw
    case Direct(_, _) => false
    case Indexed(_, _, _) => true
    case Indirect(_, _, indexed) => indexed
  }

  ghost predicate IndexReadsInside(draw: GpuDrawIntent, indexBuffer: Option<IndexBinding>) {
    && (UsesIndices(draw) <==> indexBuffer.Some?)
    && (draw.Indexed? ==>
          forall index: nat | index < End(draw.indices) :: IndexReadInside(index, indexBuffer.value))
  }

  predicate ArgumentsAccessible(draw: GpuDrawIntent) {
    draw.Indirect? ==> NewBufferAccess(draw.arguments, draw.argumentRange, IndirectRead).Ok?
  }

  function DrawAccessList(
      bindings: RuntimeBindings, arranged: seq<VertexBinding>, indexBuffer: Option<IndexBinding>, draw: GpuDrawIntent):
      seq<GpuResourceAccess>
    requires ArgumentsAccessible(draw)
  {
    bindings.accesses
    + seq(|arranged|, i requires 0 <= i < |arranged| => Buffer(arranged[i].access))
    + (if indexBuffer.Some? then [Buffer(indexBuffer.value.access)] else [])
    + if draw.Indirect? then [Buffer(NewBufferAccess(draw.arguments, draw.argumentRange, IndirectRead).value)] else []
  }

  /**
   * What a caller must supply, as a statement about the unordered collection of vertex bindings:
   * `arranged` is that collection in slot order, and every host-known fetch and index read is inside.
   */
  ghost predicate Supplied(
      pipeline: DrawPipeline, bindings: RuntimeBindings, buffers: multiset<VertexBinding>,
      indexBuffer: Option<IndexBinding>, draw: GpuDrawIntent, arranged: seq<VertexBinding>)
  {
    && pipeline.layout == bindings.layout
    && multiset(arranged) == buffers
    && Arranged(pipeline.vertexInput, arranged)
    && IndexReadsInside(draw, indexBuffer)
    && FetchesInside(draw, pipeline.vertexInput, arranged)
  }

  /** The bindings sorted by slot, if no slot repeats and the slots are exactly those of the layouts. */
  method ArrangeBindings(layouts: VertexInput, vertexBuffers: seq<VertexBinding>)
    returns (r: Option<seq<VertexBinding>>)
    ensures r.Some? ==> multiset(r.value) == multiset(vertexBuffers) && Arranged(layouts, r.value)
    ensures forall arranged | multiset(arranged) == multiset(vertexBuffers) && Arranged(layouts, arranged) ::
              r == Some(arranged)
  {
    var sorted := SortByKey(BySlot, vertexBuffers);
    SortByKeySorts(BySlot, vertexBuffers);
    forall arranged | multiset(arranged) == multiset(vertexBuffers) && Arranged(layouts, arranged)
      ensures sorted == arranged
    {
      ArrangementIsUnique(layouts, arranged, sorted);
    }
    if exists i | 0 <= i < |sorted| - 1 :: sorted[i].slot == sorted[i + 1].slot {
      if Arranged(layouts, sorted) {
        ArrangedAscends(layouts, sorted);
      }
      return None;
    }
    if |layouts| != |sorted| || exists i | 0 <= i < |layouts| :: layouts[i].slot != sorted[i].slot {
      return None;
    }
    return Some(sorted);
  }

  /** An index buffer is bound exactly for draws that use indices, and host-known reads are inside it. */
  method CheckIndexBuffer(draw: GpuDrawIntent, indexBuffer: Option<IndexBinding>) returns (fits: bool)
    ensures fits <==> IndexReadsInside(draw, indexBuffer)
  {
    match (draw, indexBuffer)
    {
      case (Indexed(indices, _, _), Some(binding)) =>
        IndexedRangeIsExact(indices, binding);
        return IndexedRangeFits(indices, binding);
      case (Indirect(_, _, true), Some(_)) => return true;
      case (Indexed(_, _, _), None) => return false;
      case (Indirect(_, _, true), None) => return false;
      case (Direct(_, _), Some(_)) => return false;
      case (Indirect(_, _, false), Some(_)) => return false;
      case (Direct(_, _), None) => return true;
      case (Indirect(_, _, false), None) => return true;
    }
  }

  /**
   * The draw constructor accepts exactly the collections that are supplied in full and whose indirect
   * arguments are accessible, whatever order the caller listed them in, and stores the one
   * arrangement they have. Inaccessible arguments are reported only once everything else holds.
   */
  method NewRenderDraw(
      pipeline: DrawPipeline, bindings: RuntimeBindings, vertexBuffers: seq<VertexBinding>,
      indexBuffer: Option<IndexBinding>, draw: GpuDrawIntent)
    returns (r: Result<GpuRenderDraw, DrawError>)
    ensures r != Err(InvalidDraw) <==>
              exists arranged :: Supplied(pipeline, bindings, multiset(vertexBuffers), indexBuffer, draw, arranged)
    ensures r != Err(InvalidDraw) ==> (r.Ok? <==> ArgumentsAccessible(draw))
    ensures r.Ok? ==>
              && (forall arranged |
                    Supplied(pipeline, bindings, multiset(vertexBuffers), indexBuffer, draw, arranged) ::
                    r.value.vertexBuffers == arranged)
              && r.value.indexBuffer == indexBuffer && r.value.draw == draw
              && r.value.accesses == DrawAccessList(bindings, r.value.vertexBuffers, indexBuffer, draw)
  {
    if pipeline.layout != bindings.layout {
      return Err(InvalidDraw);
    }
    var arrangement := ArrangeBindings(pipeline.vertexInput, vertexBuffers);
    if arrangement.None? {
      return Err(InvalidDraw);
    }
    var sorted := arrangement.value;
    var indicesFit := CheckIndexBuffer(draw, indexBuffer);
    if !indicesFit {
      return Err(InvalidDraw);
    }
    var fits := ValidateDirectVertexRanges(draw, pipeline.vertexInput, sorted);
    if !fits {
      return Err(InvalidDraw);
    }

    assert Supplied(pipeline, bindings, multiset(vertexBuffers), indexBuffer, draw, sorted);
    var accesses := bindings.accesses;
    accesses := accesses + seq(|sorted|, i requires 0 <= i < |sorted| => Buffer(sorted[i].access));
    if indexBuffer.Some? {
      accesses := accesses + [Buffer(indexBuffer.value.access)];
    }
    if draw.Indirect? {
      var access := NewBufferAccess(draw.arguments, draw.argumentRange, IndirectRead);
      if access.Err? {
        return Err(OperationAccessContradiction);
      }
      accesses := accesses + [Buffer(access.value)];
    }
    return Ok(GpuRenderDraw(sorted, indexBuffer, draw, accesses));
  }
}
