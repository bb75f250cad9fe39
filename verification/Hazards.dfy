/** Dependencies inferred from the accesses of authored work nodes. */
module Hazards {
  import opened Common
  import opened Resource
  import opened Access

  // ---------------------------------------------------------------------------------------------
  // What an access reads and writes
  // ---------------------------------------------------------------------------------------------

  predicate BufferReads(kind: GpuBufferAccessKind) {
    match kind
    case UniformRead => true
    case BufferStorageRead => true
    case BufferStorageReadWrite => true
    case VertexRead => true
    case IndexRead => true
    case IndirectRead => true
    case BufferCopySource => true
    case _ => false
  }

  predicate BufferWrites(kind: GpuBufferAccessKind) {
    match kind
    case BufferStorageWrite => true
    case BufferStorageReadWrite => true
    case BufferCopyDestination => true
    case QueryResolveDestination => true
    case _ => false
  }

  predicate TextureReads(kind: GpuTextureAccessKind) {
    match kind
    case SampledRead => true
    case StorageRead => true
    case StorageReadWrite => true
    case CopySource => true
    case ColorAttachment(load, _) => load == Load
    case DepthStencilAttachment(_, load, _) => load == Load
    case Present => true
    case _ => false
  }

  predicate TextureWrites(kind: GpuTextureAccessKind) {
    match kind
    case StorageWrite => true
    case StorageReadWrite => true
    case CopyDestination => true
    case MultisampleResolveDestination => true
    case ColorAttachment(_, _) => true
    case DepthStencilAttachment(access, _, _) => access == ReadWriteAspect
    case _ => false
  }

  predicate Reads(access: GpuResourceAccess) {
    match access
    case Buffer(a) => BufferReads(a.kind)
    case Texture(a) => TextureReads(a.kind)
    case Query(a) => !a.writesTimestamp
    case Sampler(_) => true
  }

  predicate Writes(access: GpuResourceAccess) {
    match access
    case Buffer(a) => BufferWrites(a.kind)
    case Texture(a) => TextureWrites(a.kind)
    case Query(a) => a.writesTimestamp
    case Sampler(_) => false
  }

  const CHANGING_BUFFER_KINDS: set<GpuBufferAccessKind> :=
    {BufferStorageWrite, BufferStorageReadWrite, BufferCopyDestination, QueryResolveDestination}

  const BLIND_BUFFER_KINDS: set<GpuBufferAccessKind> :=
    {BufferStorageWrite, BufferCopyDestination, QueryResolveDestination}

  const CHANGING_TEXTURE_KINDS: set<GpuTextureAccessKind> :=
    {StorageWrite, StorageReadWrite, CopyDestination, MultisampleResolveDestination}

  const OBSERVING_TEXTURE_KINDS: set<GpuTextureAccessKind> :=
    {SampledRead, StorageRead, StorageReadWrite, CopySource, Present}

  /** Reference meaning: storage may hold something else after the access. Color attachments always store. */
  predicate Changes(access: GpuResourceAccess) {
    || (access.Buffer? && access.buffer.kind in CHANGING_BUFFER_KINDS)
    || (access.Texture? && access.texture.kind in CHANGING_TEXTURE_KINDS)
    || (access.Texture? && access.texture.kind.ColorAttachment?)
    || (access.Texture? && access.texture.kind.DepthStencilAttachment? && access.texture.kind.access != ReadOnlyAspect)
    || (access.Query? && access.query.writesTimestamp)
  }

  /** Reference meaning: what the access does may depend on what storage held before. Attachments load or clear. */
  predicate Observes(access: GpuResourceAccess) {
    || (access.Buffer? && access.buffer.kind !in BLIND_BUFFER_KINDS)
    || (access.Texture? && access.texture.kind in OBSERVING_TEXTURE_KINDS)
    || (access.Texture? && access.texture.kind.ColorAttachment? && access.texture.kind.colorLoad != Clear)
    || (access.Texture? && access.texture.kind.DepthStencilAttachment? && access.texture.kind.load != Clear)
    || (access.Query? && !access.query.writesTimestamp)
  }

  /** The kind tables say what the reference says; a sampler counts as read but names no storage. */
  lemma KindTablesAreExact(access: GpuResourceAccess)
    ensures Writes(access) <==> Changes(access)
    ensures Reads(access) <==> Observes(access) || access.Sampler?
  {
  }

  // ---------------------------------------------------------------------------------------------
  // Intersections
  // ---------------------------------------------------------------------------------------------

  /** The storage an access names; handles of different kinds never share an identity. */
  datatype Storage = BufferStorage(id: nat) | TextureStorage(id: nat) | QueryStorage(id: nat) | SamplerStorage(id: nat)

  function StorageOf(access: GpuResourceAccess): Storage {
    match access
    case Buffer(a) => BufferStorage(a.buffer.id)
    case Texture(a) => TextureStorage(a.texture.id)
    case Query(a) => QueryStorage(a.querySet)
    case Sampler(id) => SamplerStorage(id)
  }

  datatype GpuDependencyRegion =
    | BufferRegion(bytes: GpuBufferRange)
    | TextureRegion(subresources: GpuTextureSubresourceRange)
    | QueryRegion(first: nat, count: nat)

  function AccessIntersection(left: GpuResourceAccess, right: GpuResourceAccess): Option<GpuDependencyRegion> {
    if StorageOf(left) != StorageOf(right) then None
    else
      match (left, right)
      case (Buffer(l), Buffer(r)) =>
        var start, end := Max(l.range.offset, r.range.offset), Min(l.range.End(), r.range.End());
        if start >= end then None
        else
          var bytes := NewBufferRange(l.buffer, start, end - start);
          if bytes.Err? then None else Some(BufferRegion(bytes.value))
      case (Texture(l), Texture(r)) =>
        var common := IntersectTextureRanges(l.subresources, r.subresources, l.texture.format);
        if common.Err? then None else Some(TextureRegion(common.value))
      case (Query(l), Query(r)) =>
        var start, end := Max(l.first, r.first), Min(l.first + l.count, r.first + r.count);
        if start >= end then None else Some(QueryRegion(start, end - start))
      case _ => None
  }

  /** One addressable unit of storage. */
  datatype Location =
    | Byte(buffer: nat, offset: nat)
    | Subresource(texture: nat, point: Point)
    | QuerySlot(querySet: nat, index: nat)

  predicate Touches(access: GpuResourceAccess, at: Location) {
    match (access, at)
    case (Buffer(a), Byte(id, offset)) => a.buffer.id == id && a.range.offset <= offset < a.range.End()
    case (Texture(a), Subresource(id, point)) => a.Touches(id, point)
    case (Query(a), QuerySlot(id, index)) => a.querySet == id && a.first <= index < a.first + a.count
    case _ => false
  }

  /** Whether a region reported for an access includes a location of that access's storage. */
  predicate RegionCovers(region: GpuDependencyRegion, access: GpuResourceAccess, at: Location) {
    match (region, at)
    case (BufferRegion(bytes), Byte(id, offset)) =>
      StorageOf(access) == BufferStorage(id) && bytes.offset <= offset < bytes.End()
    case (TextureRegion(range), Subresource(id, point)) =>
      access.Texture? && access.texture.texture.id == id && Covers(range, access.texture.texture.format, point)
    case (QueryRegion(first, count), QuerySlot(id, index)) =>
      StorageOf(access) == QueryStorage(id) && first <= index < first + count
    case _ => false
  }

  /** What the access constructors establish about one access. */
  predicate Checked(access: GpuResourceAccess) {
    match access
    case Buffer(a) => a.range.End() <= a.buffer.sizeBytes
    case Texture(a) => a.Checked()
    case Query(a) => a.count > 0
    case Sampler(_) => true
  }

  /** Equal identities mean equal handles. */
  predicate SameHandles(left: GpuResourceAccess, right: GpuResourceAccess) {
    && (left.Texture? && right.Texture? && left.texture.texture.id == right.texture.texture.id ==>
          left.texture.texture == right.texture.texture)
    && (left.Buffer? && right.Buffer? && left.buffer.buffer.id == right.buffer.buffer.id ==>
          left.buffer.buffer == right.buffer.buffer)
  }

  lemma TextureIntersectionIsExact(left: GpuTextureAccess, right: GpuTextureAccess)
    requires left.Checked() && right.Checked() && left.texture == right.texture
    ensures var common := AccessIntersection(Texture(left), Texture(right));
            && (common.None? ==> forall at: Location :: !(Touches(Texture(left), at) && Touches(Texture(right), at)))
            && (common.Some? ==>
                  && common.value.TextureRegion?
                  && (forall at :: RegionCovers(common.value, Texture(left), at)
                        <==> Touches(Texture(left), at) && Touches(Texture(right), at))
                  && exists point :: Covers(common.value.subresources, left.texture.format, point))
  {
    IntersectionIsExact(left.subresources, right.subresources, left.texture.format);
    OverlapsIffPointsMeet(left.subresources, right.subresources, left.texture.format);
  }

  /** The reported region is exactly the storage both accesses touch, and none is reported iff there is none. */
  lemma AccessIntersectionIsExact(left: GpuResourceAccess, right: GpuResourceAccess)
    requires Checked(left) && Checked(right) && SameHandles(left, right)
    ensures var common := AccessIntersection(left, right);
            && (common.Some? <==> exists at :: Touches(left, at) && Touches(right, at))
            && (common.Some? ==> forall at :: RegionCovers(common.value, left, at)
                                              <==> Touches(left, at) && Touches(right, at))
  {
    var common := AccessIntersection(left, right);
    match (left, right)
    case (Buffer(l), Buffer(r)) =>
      if common.Some? {
        var at := Byte(l.buffer.id, common.value.bytes.offset);
        assert Touches(left, at) && Touches(right, at);
      }
    case (Texture(l), Texture(r)) =>
      if l.texture.id == r.texture.id {
        TextureIntersectionIsExact(l, r);
        if common.Some? {
          var point :| Covers(common.value.subresources, l.texture.format, point);
          var at := Subresource(l.texture.id, point);
          assert RegionCovers(common.value, left, at);
        }
      }
    case (Query(l), Query(r)) =>
      if common.Some? {
        var at := QuerySlot(l.querySet, common.value.first);
        assert Touches(left, at) && Touches(right, at);
      }
    case _ =>
  }

  // ---------------------------------------------------------------------------------------------
  // Hazards
  // ---------------------------------------------------------------------------------------------

  datatype HazardKind = ReadAfterWrite | WriteAfterRead | WriteAfterWrite

  datatype GpuDependencyReason = GpuDependencyReason(kind: HazardKind, storage: Storage, region: GpuDependencyRegion)

  predicate HasKind(earlier: GpuResourceAccess, later: GpuResourceAccess, kind: HazardKind) {
    match kind
    case ReadAfterWrite => Changes(earlier) && Observes(later)
    case WriteAfterRead => Observes(earlier) && Changes(later)
    case WriteAfterWrite => Changes(earlier) && Changes(later)
  }

  function AccessPairHazardReasons(
      earlier: GpuResourceAccess, later: GpuResourceAccess, storage: Storage, region: GpuDependencyRegion):
      set<GpuDependencyReason>
  {
    (if Writes(earlier) && Reads(later) then {GpuDependencyReason(ReadAfterWrite, storage, region)} else {})
    + (if Reads(earlier) && Writes(later) then {GpuDependencyReason(WriteAfterRead, storage, region)} else {})
    + (if Writes(earlier) && Writes(later) then {GpuDependencyReason(WriteAfterWrite, storage, region)} else {})
  }

  lemma ReasonIffHasKind(
      earlier: GpuResourceAccess, later: GpuResourceAccess, storage: Storage, region: GpuDependencyRegion,
      reason: GpuDependencyReason)
    requires !earlier.Sampler? && !later.Sampler?
    ensures reason in AccessPairHazardReasons(earlier, later, storage, region) <==>
              reason.storage == storage && reason.region == region && HasKind(earlier, later, reason.kind)
  {
    KindTablesAreExact(earlier);
    KindTablesAreExact(later);
    ReasonIffFlagged(
      Writes(earlier) && Reads(later), Reads(earlier) && Writes(later), Writes(earlier) && Writes(later),
      storage, region, reason);
  }

  lemma ReasonIffFlagged(
      readAfterWrite: bool, writeAfterRead: bool, writeAfterWrite: bool, storage: Storage, region: GpuDependencyRegion,
      reason: GpuDependencyReason)
    ensures reason in (if readAfterWrite then {GpuDependencyReason(ReadAfterWrite, storage, region)} else {})
                      + (if writeAfterRead then {GpuDependencyReason(WriteAfterRead, storage, region)} else {})
                      + (if writeAfterWrite then {GpuDependencyReason(WriteAfterWrite, storage, region)} else {})
            <==> && reason.storage == storage && reason.region == region
                 && match reason.kind
                    case ReadAfterWrite => readAfterWrite
                    case WriteAfterRead => writeAfterRead
                    case WriteAfterWrite => writeAfterWrite
  {
  }

  lemma NoWriterNoHazard(earlier: GpuResourceAccess, later: GpuResourceAccess, kind: HazardKind)
    requires HasKind(earlier, later, kind)
    ensures Writes(earlier) || Writes(later)
  {
    KindTablesAreExact(earlier);
    KindTablesAreExact(later);
  }

  /** One reason why `later` must follow `earlier`. */
  predicate PairHazard(earlier: GpuResourceAccess, later: GpuResourceAccess, reason: GpuDependencyReason) {
    && HasKind(earlier, later, reason.kind)
    && reason.storage == StorageOf(later)
    && AccessIntersection(earlier, later) == Some(reason.region)
  }

  /** A node, as far as inference sees it. */
  type NodeAccesses = seq<GpuResourceAccess>

  datatype Edge = Edge(before: nat, after: nat, reason: GpuDependencyReason)

  predicate HazardVia(nodes: seq<NodeAccesses>, e: Edge, p: nat, q: nat) {
    && e.before < e.after < |nodes| && p < |nodes[e.before]| && q < |nodes[e.after]|
    && PairHazard(nodes[e.before][p], nodes[e.after][q], e.reason)
  }

  ghost predicate IsHazard(nodes: seq<NodeAccesses>, e: Edge) {
    exists p: nat, q: nat :: HazardVia(nodes, e, p, q)
  }

  /** Hazards whose later access precedes access `q` of node `later`. */
  ghost predicate HazardBefore(nodes: seq<NodeAccesses>, later: nat, q: nat, e: Edge) {
    exists p: nat, r: nat :: HazardVia(nodes, e, p, r) && (e.after < later || (e.after == later && r < q))
  }

  /** The access was recorded before access `q` of node `later` is looked at. */
  ghost predicate SeenBefore(nodes: seq<NodeAccesses>, later: nat, q: nat, i: nat, access: GpuResourceAccess) {
    && !access.Sampler?
    && i < |nodes|
    && exists p :: 0 <= p < |nodes[i]| && nodes[i][p] == access && (i < later || (i == later && p < q))
  }

  type AccessIndex = map<Storage, seq<(nat, GpuResourceAccess)>>

  predicate Recorded(index: AccessIndex, i: nat, access: GpuResourceAccess) {
    StorageOf(access) in index && (i, access) in index[StorageOf(access)]
  }

  ghost predicate Indexes(index: AccessIndex, nodes: seq<NodeAccesses>, later: nat, q: nat) {
    forall i: nat, access :: SeenBefore(nodes, later, q, i, access) <==> Recorded(index, i, access)
  }

  /** The innermost loop: one new access against the recorded accesses of the same storage. */
  method RelateToEarlier(
      earlier: seq<(nat, GpuResourceAccess)>, later: nat, access: GpuResourceAccess, edges: set<Edge>)
      returns (extended: set<Edge>)
    ensures forall e :: e in extended
              <==> e in edges
                   || (e.after == later && exists k :: 0 <= k < |earlier| && earlier[k].0 == e.before != later
                                                       && PairHazard(earlier[k].1, access, e.reason))
  {
    extended := edges;
    for n := 0 to |earlier|
      invariant forall e :: e in extended
                  <==> e in edges
                       || (e.after == later && exists k :: 0 <= k < n && earlier[k].0 == e.before != later
                                                           && PairHazard(earlier[k].1, access, e.reason))
    {
      var (earlierIndex, earlierAccess) := earlier[n];
      ghost var before := extended;
      var added := HazardEdges(earlierIndex, earlierAccess, later, access);
      extended := extended + added;
      assert forall e :: e in extended <==> e in before || e in added;
    }
  }

  /** The edges one pair of accesses contributes. */
  function HazardEdges(before: nat, earlier: GpuResourceAccess, after: nat, later: GpuResourceAccess):
    (edges: set<Edge>)
    ensures forall e :: e in edges
              <==> e.before == before != after == e.after && PairHazard(earlier, later, e.reason)
  {
    assert forall kind | HasKind(earlier, later, kind) :: Writes(earlier) || Writes(later) by {
      forall kind | HasKind(earlier, later, kind) {
        NoWriterNoHazard(earlier, later, kind);
      }
    }
    if before == after || (!Writes(earlier) && !Writes(later)) then {}
    else
      var common := AccessIntersection(earlier, later);
      if common.None? then {}
      else
        assert forall reason :: reason in AccessPairHazardReasons(earlier, later, StorageOf(later), common.value)
                                <==> PairHazard(earlier, later, reason) by {
          forall reason {
            ReasonIffHasKind(earlier, later, StorageOf(later), common.value, reason);
          }
        }
        set reason | reason in AccessPairHazardReasons(earlier, later, StorageOf(later), common.value) ::
          Edge(before, after, reason)
  }

  /** Every hazard of the fragment and nothing else, each with its storage, region and kind. */
  method InferFragmentHazards(nodes: seq<NodeAccesses>) returns (edges: set<Edge>)
    ensures forall e :: e in edges <==> IsHazard(nodes, e)
  {
    edges := {};
    var index: AccessIndex := map[];
    for later := 0 to |nodes|
      invariant Indexes(index, nodes, later, 0)
      invariant forall e :: e in edges <==> HazardBefore(nodes, later, 0, e)
    {
      for q := 0 to |nodes[later]|
        invariant Indexes(index, nodes, later, q)
        invariant forall e :: e in edges <==> HazardBefore(nodes, later, q, e)
      {
        var access := nodes[later][q];
        if access.Sampler? {
          SamplerAddsNothing(index, nodes, later, q);
        } else {
          var storage := StorageOf(access);
          var earlier := if storage in index then index[storage] else [];
          edges := RelateToEarlier(earlier, later, access, edges);
          forall e {
            NextAccess(nodes, later, q, earlier, e);
          }
          RecordAccess(index, nodes, later, q);
          index := index[storage := earlier + [(later, access)]];
        }
      }
      NextNode(nodes, later);
    }
  }

  lemma SamplerAddsNothing(index: AccessIndex, nodes: seq<NodeAccesses>, later: nat, q: nat)
    requires later < |nodes| && q < |nodes[later]| && nodes[later][q].Sampler?
    requires Indexes(index, nodes, later, q)
    ensures forall e :: HazardBefore(nodes, later, q + 1, e) <==> HazardBefore(nodes, later, q, e)
    ensures Indexes(index, nodes, later, q + 1)
  {
  }

  lemma NextNode(nodes: seq<NodeAccesses>, later: nat)
    requires later < |nodes|
    ensures forall e :: HazardBefore(nodes, later + 1, 0, e) <==> HazardBefore(nodes, later, |nodes[later]|, e)
    ensures forall i: nat, access ::
              SeenBefore(nodes, later + 1, 0, i, access) <==> SeenBefore(nodes, later, |nodes[later]|, i, access)
  {
  }

  lemma RecordAccess(index: AccessIndex, nodes: seq<NodeAccesses>, later: nat, q: nat)
    requires later < |nodes| && q < |nodes[later]| && !nodes[later][q].Sampler?
    requires Indexes(index, nodes, later, q)
    ensures var access := nodes[later][q];
            var earlier := if StorageOf(access) in index then index[StorageOf(access)] else [];
            Indexes(index[StorageOf(access) := earlier + [(later, access)]], nodes, later, q + 1)
  {
    var recorded := nodes[later][q];
    var earlier := if StorageOf(recorded) in index then index[StorageOf(recorded)] else [];
    var extended := index[StorageOf(recorded) := earlier + [(later, recorded)]];
    forall i: nat, access
      ensures SeenBefore(nodes, later, q + 1, i, access) <==> Recorded(extended, i, access)
    {
      assert SeenBefore(nodes, later, q + 1, i, access)
          <==> SeenBefore(nodes, later, q, i, access) || (i == later && access == recorded);
      assert SeenBefore(nodes, later, q, i, access) <==> Recorded(index, i, access);
    }
  }

  /** An edge ending in this access comes from a recorded access of the same storage. */
  lemma NextAccess(
      nodes: seq<NodeAccesses>, later: nat, q: nat, earlier: seq<(nat, GpuResourceAccess)>, e: Edge)
    requires later < |nodes| && q < |nodes[later]| && !nodes[later][q].Sampler?
    requires forall i: nat, access | StorageOf(access) == StorageOf(nodes[later][q]) ::
               SeenBefore(nodes, later, q, i, access) <==> (i, access) in earlier
    ensures HazardBefore(nodes, later, q + 1, e)
            <==> HazardBefore(nodes, later, q, e)
                 || (e.after == later && exists k :: 0 <= k < |earlier| && earlier[k].0 == e.before != later
                                                     && PairHazard(earlier[k].1, nodes[later][q], e.reason))
  {
    if HazardBefore(nodes, later, q + 1, e) && !HazardBefore(nodes, later, q, e) {
      var p: nat, r: nat :| HazardVia(nodes, e, p, r) && (e.after < later || (e.after == later && r < q + 1));
      assert r == q && e.after == later;
      var access := nodes[e.before][p];
      assert SeenBefore(nodes, later, q, e.before, access);
      var k :| 0 <= k < |earlier| && earlier[k] == (e.before, access);
    }
    if e.after == later && exists k :: 0 <= k < |earlier| && earlier[k].0 == e.before != later
                                       && PairHazard(earlier[k].1, nodes[later][q], e.reason)
    {
      var k :| 0 <= k < |earlier| && earlier[k].0 == e.before != later
               && PairHazard(earlier[k].1, nodes[later][q], e.reason);
      assert earlier[k] in earlier;
      assert SeenBefore(nodes, later, q, e.before, earlier[k].1);
      var p: nat :| p < |nodes[e.before]| && nodes[e.before][p] == earlier[k].1;
      assert HazardVia(nodes, e, p, q);
    }
  }
}
