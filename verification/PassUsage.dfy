/** The usage scope of one logical render pass. */
module PassUsage {
  import opened Common
  import opened TextureFormat
  import opened Resource
  import opened Access

  datatype RenderPassUsageClass = ReadOnly | Storage | Attachment

  datatype UsageScopeError =
    | ForbiddenRole(resource: nat)
    | MixedClasses(resource: nat)
    | OverlappingAttachments(resource: nat)

  function ResourceIdentity(access: GpuResourceAccess): nat {
    match access
    case Buffer(b) => b.buffer.id
    case Texture(t) => t.texture.id
    case Query(q) => q.querySet
    case Sampler(s) => s
  }

  /** The class table. Queries and samplers take no part in the scope; copy roles have no place in it. */
  function UsageClass(access: GpuResourceAccess): Result<Option<RenderPassUsageClass>, UsageScopeError> {
    match access
    case Buffer(b) => (
      match b.kind
      case UniformRead => Ok(Some(ReadOnly))
      case VertexRead => Ok(Some(ReadOnly))
      case IndexRead => Ok(Some(ReadOnly))
      case IndirectRead => Ok(Some(ReadOnly))
      case BufferStorageRead => Ok(Some(Storage))
      case BufferStorageWrite => Ok(Some(Storage))
      case BufferStorageReadWrite => Ok(Some(Storage))
      case BufferCopySource => Err(ForbiddenRole(b.buffer.id))
      case BufferCopyDestination => Err(ForbiddenRole(b.buffer.id))
      case QueryResolveDestination => Err(ForbiddenRole(b.buffer.id)))
    case Texture(t) => (
      match t.kind
      case SampledRead => Ok(Some(ReadOnly))
      case StorageRead => Ok(Some(Storage))
      case StorageWrite => Ok(Some(Storage))
      case StorageReadWrite => Ok(Some(Storage))
      case ColorAttachment(_, _) => Ok(Some(Attachment))
      case MultisampleResolveDestination => Ok(Some(Attachment))
      case DepthStencilAttachment(access, _, _) =>
        Ok(Some(if access == ReadOnlyAspect then ReadOnly else Attachment))
      case CopySource => Err(ForbiddenRole(t.texture.id))
      case CopyDestination => Err(ForbiddenRole(t.texture.id))
      case Present => Err(ForbiddenRole(t.texture.id)))
    case Query(_) => Ok(None)
    case Sampler(_) => Ok(None)
  }

  predicate SameRenderPassSubresource(left: GpuResourceAccess, right: GpuResourceAccess) {
    match (left, right)
    case (Buffer(l), Buffer(r)) => l.buffer.id == r.buffer.id
    case (Texture(l), Texture(r)) =>
      l.texture.id == r.texture.id && Overlaps(l.subresources, r.subresources, WholeAspect(l.texture.format))
    case _ => false
  }

  predicate RoleAllowed(access: GpuResourceAccess) {
    UsageClass(access).Ok?
  }

  /** The verdict on one ordered pair: `None` when the two accesses may share the pass. */
  function PairError(left: GpuResourceAccess, right: GpuResourceAccess): Option<UsageScopeError>
    requires RoleAllowed(left) && RoleAllowed(right)
  {
    var leftClass, rightClass := UsageClass(left).value, UsageClass(right).value;
    if !SameRenderPassSubresource(left, right) || leftClass.None? || rightClass.None? then None
    else if leftClass != rightClass then Some(MixedClasses(ResourceIdentity(left)))
    else if leftClass.value == Attachment then Some(OverlappingAttachments(ResourceIdentity(left)))
    else None
  }

  /** What the pairwise validator accepts. */
  predicate PassAccepts(accesses: seq<GpuResourceAccess>) {
    && (forall i | 0 <= i < |accesses| :: RoleAllowed(accesses[i]))
    && (forall i, j | 0 <= i < j < |accesses| :: PairError(accesses[i], accesses[j]).None?)
  }

  /** `(i, j)` comes before `(p, q)` in the order the validator visits pairs. */
  predicate VisitedBefore(i: int, j: int, p: int, q: int) {
    i < p || (i == p && j < q)
  }

  /**
   * The validator: classify every access, then scan ordered pairs. On rejection it reports the
   * first forbidden role, or else the first clashing pair in visiting order.
   */
  method ValidateRenderPassUsageScope(accesses: seq<GpuResourceAccess>) returns (r: Result<(), UsageScopeError>)
    ensures r.Ok? <==> PassAccepts(accesses)
    ensures r.Err? && r.error.ForbiddenRole? ==>
              exists i :: 0 <= i < |accesses| && UsageClass(accesses[i]) == Err(r.error)
                          && forall k | 0 <= k < i :: RoleAllowed(accesses[k])
    ensures r.Err? && !r.error.ForbiddenRole? ==>
              && (forall k | 0 <= k < |accesses| :: RoleAllowed(accesses[k]))
              && exists i, j :: 0 <= i < j < |accesses|
                   && PairError(accesses[i], accesses[j]) == Some(r.error)
                   && forall p, q | 0 <= p < q < |accesses| && VisitedBefore(p, q, i, j) ::
                        PairError(accesses[p], accesses[q]).None?
  {
    var classes: seq<Option<RenderPassUsageClass>> := [];
    for k := 0 to |accesses|
      invariant |classes| == k
      invariant forall i | 0 <= i < k :: UsageClass(accesses[i]) == Ok(classes[i])
    {
      var class_ := UsageClass(accesses[k]);
      if class_.Err? {
        return Err(class_.error);
      }
      classes := classes + [class_.value];
    }

    for leftIndex := 0 to |accesses|
      invariant forall p, q | 0 <= p < leftIndex && p < q < |accesses| ::
                  PairError(accesses[p], accesses[q]).None?
    {
      for rightIndex := leftIndex + 1 to |accesses|
        invariant forall q | leftIndex < q < rightIndex :: PairError(accesses[leftIndex], accesses[q]).None?
      {
        var left, right := accesses[leftIndex], accesses[rightIndex];
        if !SameRenderPassSubresource(left, right) {
          continue;
        }
        if classes[leftIndex].None? || classes[rightIndex].None? {
          continue;
        }
        if classes[leftIndex] != classes[rightIndex] {
          assert PairError(accesses[leftIndex], accesses[rightIndex]) == Some(MixedClasses(ResourceIdentity(left)));
          return Err(MixedClasses(ResourceIdentity(left)));
        }
        if classes[leftIndex].value == Attachment {
          assert PairError(accesses[leftIndex], accesses[rightIndex])
              == Some(OverlappingAttachments(ResourceIdentity(left)));
          return Err(OverlappingAttachments(ResourceIdentity(left)));
        }
      }
    }
    return Ok(());
  }

  // ---------------------------------------------------------------------------------------------
  // The pointwise meaning
  // ---------------------------------------------------------------------------------------------

  /** Facts the handle and access constructors establish about any list of accesses. */
  predicate Coherent(accesses: seq<GpuResourceAccess>) {
    && (forall i | 0 <= i < |accesses| && accesses[i].Texture? :: accesses[i].texture.Checked())
    && (forall i, j | 0 <= i < |accesses| && 0 <= j < |accesses|
                      && accesses[i].Texture? && accesses[j].Texture?
                      && accesses[i].texture.texture.id == accesses[j].texture.texture.id ::
          accesses[i].texture.texture == accesses[j].texture.texture)
  }

  predicate TouchesTexturePoint(access: GpuResourceAccess, id: nat, point: Point) {
    access.Texture? && access.texture.Touches(id, point)
  }

  predicate TouchesBuffer(access: GpuResourceAccess, id: nat) {
    access.Buffer? && access.buffer.buffer.id == id
  }

  /** Every buffer is used in one class. */
  ghost predicate BuffersHaveOneClass(accesses: seq<GpuResourceAccess>) {
    forall id, i, j | 0 <= i < |accesses| && 0 <= j < |accesses|
                      && TouchesBuffer(accesses[i], id) && TouchesBuffer(accesses[j], id) ::
      UsageClass(accesses[i]) == UsageClass(accesses[j])
  }

  /** At every point of every texture there is one class, and at most one attachment. */
  ghost predicate PointsHaveOneClass(accesses: seq<GpuResourceAccess>) {
    forall id, point, i, j | 0 <= i < |accesses| && 0 <= j < |accesses|
                             && TouchesTexturePoint(accesses[i], id, point)
                             && TouchesTexturePoint(accesses[j], id, point) ::
      && UsageClass(accesses[i]) == UsageClass(accesses[j])
      && (UsageClass(accesses[i]) == Ok(Some(Attachment)) ==> i == j)
  }

  ghost predicate PointwiseCompatible(accesses: seq<GpuResourceAccess>) {
    && (forall i | 0 <= i < |accesses| :: RoleAllowed(accesses[i]))
    && BuffersHaveOneClass(accesses)
    && PointsHaveOneClass(accesses)
  }

  lemma PairErrorIffSharedPointClashes(left: GpuResourceAccess, right: GpuResourceAccess)
    requires Coherent([left, right]) && RoleAllowed(left) && RoleAllowed(right)
    requires left.Texture? && right.Texture?
    ensures PairError(left, right).Some?
            <==> exists id, point ::
                   && TouchesTexturePoint(left, id, point) && TouchesTexturePoint(right, id, point)
                   && (UsageClass(left) != UsageClass(right) || UsageClass(left) == Ok(Some(Attachment)))
  {
    var l, r := left.texture, right.texture;
    assert [left, right][0] == left && [left, right][1] == right;
    if l.texture.id == r.texture.id {
      OverlapsIffPointsMeet(l.subresources, r.subresources, l.texture.format);
      if PairError(left, right).Some? {
        var point :| Covers(l.subresources, l.texture.format, point) && Covers(r.subresources, l.texture.format, point);
        assert TouchesTexturePoint(left, l.texture.id, point) && TouchesTexturePoint(right, l.texture.id, point);
      }
    }
  }

  lemma CoherentPair(accesses: seq<GpuResourceAccess>, i: nat, j: nat)
    requires Coherent(accesses) && i < |accesses| && j < |accesses|
    ensures Coherent([accesses[i], accesses[j]])
  {
  }

  lemma AcceptedIsPointwise(accesses: seq<GpuResourceAccess>)
    requires Coherent(accesses) && PassAccepts(accesses)
    ensures PointwiseCompatible(accesses)
  {
    forall id, i, j | 0 <= i < |accesses| && 0 <= j < |accesses|
                      && TouchesBuffer(accesses[i], id) && TouchesBuffer(accesses[j], id)
      ensures UsageClass(accesses[i]) == UsageClass(accesses[j])
    {
      if i < j {
        assert PairError(accesses[i], accesses[j]).None?;
      } else if j < i {
        assert PairError(accesses[j], accesses[i]).None?;
      }
    }
    forall id, point, i, j | 0 <= i < |accesses| && 0 <= j < |accesses|
                             && TouchesTexturePoint(accesses[i], id, point)
                             && TouchesTexturePoint(accesses[j], id, point)
      ensures UsageClass(accesses[i]) == UsageClass(accesses[j])
      ensures UsageClass(accesses[i]) == Ok(Some(Attachment)) ==> i == j
    {
      if i < j {
        CoherentPair(accesses, i, j);
        PairErrorIffSharedPointClashes(accesses[i], accesses[j]);
      } else if j < i {
        CoherentPair(accesses, j, i);
        PairErrorIffSharedPointClashes(accesses[j], accesses[i]);
      }
    }
  }

  lemma PointwiseIsAccepted(accesses: seq<GpuResourceAccess>)
    requires Coherent(accesses) && PointwiseCompatible(accesses)
    ensures PassAccepts(accesses)
  {
    forall i, j | 0 <= i < j < |accesses|
      ensures PairError(accesses[i], accesses[j]).None?
    {
      if accesses[i].Buffer? && accesses[j].Buffer? {
        if accesses[i].buffer.buffer.id == accesses[j].buffer.buffer.id {
          assert TouchesBuffer(accesses[i], accesses[i].buffer.buffer.id);
          assert TouchesBuffer(accesses[j], accesses[i].buffer.buffer.id);
        }
      } else if accesses[i].Texture? && accesses[j].Texture? {
        CoherentPair(accesses, i, j);
        PairErrorIffSharedPointClashes(accesses[i], accesses[j]);
      }
    }
  }

  /**
   * The pairwise scan decides the pointwise statement: a pass is accepted iff no access has a copy,
   * resolve-query or present role, each buffer has one class, and each texture point has one class
   * with at most one attachment.
   */
  lemma UsageScopeIsPointwise(accesses: seq<GpuResourceAccess>)
    requires Coherent(accesses)
    ensures PassAccepts(accesses) <==> PointwiseCompatible(accesses)
  {
    if PassAccepts(accesses) {
      AcceptedIsPointwise(accesses);
    }
    if PointwiseCompatible(accesses) {
      PointwiseIsAccepted(accesses);
    }
  }

  // ---------------------------------------------------------------------------------------------
  // The rule on access kinds
  // ---------------------------------------------------------------------------------------------

  const READING_BUFFER_KINDS: set<GpuBufferAccessKind> := {UniformRead, VertexRead, IndexRead, IndirectRead}

  const STORAGE_BUFFER_KINDS: set<GpuBufferAccessKind> :=
    {BufferStorageRead, BufferStorageWrite, BufferStorageReadWrite}

  const STORAGE_TEXTURE_KINDS: set<GpuTextureAccessKind> := {StorageRead, StorageWrite, StorageReadWrite}

  const OUTSIDE_PASS_TEXTURE_KINDS: set<GpuTextureAccessKind> := {CopySource, CopyDestination, Present}

  /** Vertex, index, indirect or uniform data, a sampled texture, or a depth or stencil aspect only tested. */
  predicate OnlyReads(access: GpuResourceAccess) {
    || (access.Buffer? && access.buffer.kind in READING_BUFFER_KINDS)
    || (access.Texture? && access.texture.kind == SampledRead)
    || (access.Texture? && access.texture.kind.DepthStencilAttachment? && access.texture.kind.access != ReadWriteAspect)
  }

  predicate UsesStorage(access: GpuResourceAccess) {
    || (access.Buffer? && access.buffer.kind in STORAGE_BUFFER_KINDS)
    || (access.Texture? && access.texture.kind in STORAGE_TEXTURE_KINDS)
  }

  /** A target the pass renders or resolves into. */
  predicate IsTarget(access: GpuResourceAccess) {
    || (access.Texture? && access.texture.kind.ColorAttachment?)
    || (access.Texture? && access.texture.kind == MultisampleResolveDestination)
    || (access.Texture? && access.texture.kind.DepthStencilAttachment? && access.texture.kind.access != ReadOnlyAspect)
  }

  /** Copies, query resolution and presentation happen outside of passes. */
  predicate BelongsOutsidePass(access: GpuResourceAccess) {
    || (access.Buffer? && access.buffer.kind !in READING_BUFFER_KINDS && access.buffer.kind !in STORAGE_BUFFER_KINDS)
    || (access.Texture? && access.texture.kind in OUTSIDE_PASS_TEXTURE_KINDS)
  }

  /** The class table, arm by arm. */
  lemma ClassTableIsExact(access: GpuResourceAccess)
    ensures UsageClass(access) == Ok(Some(ReadOnly)) <==> OnlyReads(access)
    ensures UsageClass(access) == Ok(Some(Storage)) <==> UsesStorage(access)
    ensures UsageClass(access) == Ok(Some(Attachment)) <==> IsTarget(access)
    ensures UsageClass(access) == Ok(None) <==> access.Query? || access.Sampler?
    ensures UsageClass(access) == Err(ForbiddenRole(ResourceIdentity(access))) <==> BelongsOutsidePass(access)
  {
  }

  predicate SharesPoint(one: GpuResourceAccess, other: GpuResourceAccess, id: nat, point: Point) {
    TouchesTexturePoint(one, id, point) && TouchesTexturePoint(other, id, point)
  }

  predicate SameUse(one: GpuResourceAccess, other: GpuResourceAccess) {
    || (OnlyReads(one) && OnlyReads(other))
    || (UsesStorage(one) && UsesStorage(other))
    || (IsTarget(one) && IsTarget(other))
  }

  ghost predicate ShareStorage(one: GpuResourceAccess, other: GpuResourceAccess) {
    || (one.Buffer? && other.Buffer? && one.buffer.buffer.id == other.buffer.buffer.id)
    || exists id, point :: SharesPoint(one, other, id, point)
  }

  /** The error of a pair tells two targets on one point from two different uses, and names what they share. */
  lemma PairErrorNamesTheClash(left: GpuResourceAccess, right: GpuResourceAccess)
    requires Coherent([left, right]) && !BelongsOutsidePass(left) && !BelongsOutsidePass(right)
    ensures RoleAllowed(left) && RoleAllowed(right)
    ensures PairError(left, right) ==
            if !ShareStorage(left, right) then None
            else if !SameUse(left, right) then Some(MixedClasses(ResourceIdentity(left)))
            else if IsTarget(left) then Some(OverlappingAttachments(ResourceIdentity(left)))
            else None
    ensures ShareStorage(left, right) ==>
              ResourceIdentity(left) == ResourceIdentity(right)
              && ResourceIdentity(left) == if left.Buffer? then left.buffer.buffer.id else left.texture.texture.id
  {
    ClassTableIsExact(left);
    ClassTableIsExact(right);
    if left.Texture? && right.Texture? && left.texture.texture.id == right.texture.texture.id {
      var l, r := left.texture, right.texture;
      assert [left, right][0] == left && [left, right][1] == right;
      OverlapsIffPointsMeet(l.subresources, r.subresources, l.texture.format);
      if SameRenderPassSubresource(left, right) {
        var point :| Covers(l.subresources, l.texture.format, point) && Covers(r.subresources, l.texture.format, point);
        assert SharesPoint(left, right, l.texture.id, point);
      }
    }
  }

  /** A buffer is either read or used as storage throughout. */
  ghost predicate BuffersKeepOneUse(accesses: seq<GpuResourceAccess>) {
    forall i, j | 0 <= i < |accesses| && 0 <= j < |accesses| && accesses[i].Buffer? && accesses[j].Buffer?
                  && accesses[i].buffer.buffer.id == accesses[j].buffer.buffer.id ::
      OnlyReads(accesses[i]) <==> OnlyReads(accesses[j])
  }

  /** Two accesses to one point both read it or both use it as storage. */
  ghost predicate PointsKeepOneUse(accesses: seq<GpuResourceAccess>) {
    forall i, j, id, point | 0 <= i < |accesses| && 0 <= j < |accesses| && i != j
                             && SharesPoint(accesses[i], accesses[j], id, point) ::
      && !IsTarget(accesses[i])
      && (OnlyReads(accesses[i]) <==> OnlyReads(accesses[j]))
  }

  /**
   * The rule on access kinds: nothing in the pass belongs outside of it, no buffer is both read and
   * used as storage, nothing else reaches a point of a target, and no point is both read and used
   * as storage.
   */
  lemma PassAcceptsIff(accesses: seq<GpuResourceAccess>)
    requires Coherent(accesses)
    ensures PassAccepts(accesses) <==>
              && (forall i | 0 <= i < |accesses| :: !BelongsOutsidePass(accesses[i]))
              && BuffersKeepOneUse(accesses)
              && PointsKeepOneUse(accesses)
  {
    UsageScopeIsPointwise(accesses);
    forall i | 0 <= i < |accesses|
      ensures RoleAllowed(accesses[i]) <==> !BelongsOutsidePass(accesses[i])
    {
      ClassTableIsExact(accesses[i]);
    }
    if PointwiseCompatible(accesses) {
      PointwiseKeepsOneUse(accesses);
    } else if && (forall i | 0 <= i < |accesses| :: !BelongsOutsidePass(accesses[i]))
              && BuffersKeepOneUse(accesses) && PointsKeepOneUse(accesses) {
      OneUseIsPointwise(accesses);
      assert false;
    }
  }

  lemma PointwiseKeepsOneUse(accesses: seq<GpuResourceAccess>)
    requires PointwiseCompatible(accesses)
    ensures BuffersKeepOneUse(accesses) && PointsKeepOneUse(accesses)
  {
    forall i, j | 0 <= i < |accesses| && 0 <= j < |accesses| && accesses[i].Buffer? && accesses[j].Buffer?
                  && accesses[i].buffer.buffer.id == accesses[j].buffer.buffer.id
      ensures OnlyReads(accesses[i]) <==> OnlyReads(accesses[j])
    {
      assert TouchesBuffer(accesses[i], accesses[i].buffer.buffer.id);
      assert TouchesBuffer(accesses[j], accesses[i].buffer.buffer.id);
      ClassTableIsExact(accesses[i]);
      ClassTableIsExact(accesses[j]);
    }
    forall i, j, id, point | 0 <= i < |accesses| && 0 <= j < |accesses| && i != j
                             && SharesPoint(accesses[i], accesses[j], id, point)
      ensures !IsTarget(accesses[i]) && (OnlyReads(accesses[i]) <==> OnlyReads(accesses[j]))
    {
      ClassTableIsExact(accesses[i]);
      ClassTableIsExact(accesses[j]);
    }
  }

  lemma OneUseIsPointwise(accesses: seq<GpuResourceAccess>)
    requires forall i | 0 <= i < |accesses| :: !BelongsOutsidePass(accesses[i])
    requires BuffersKeepOneUse(accesses) && PointsKeepOneUse(accesses)
    ensures PointwiseCompatible(accesses)
  {
    forall i | 0 <= i < |accesses|
      ensures RoleAllowed(accesses[i])
    {
      ClassTableIsExact(accesses[i]);
    }
    forall id, i, j | 0 <= i < |accesses| && 0 <= j < |accesses|
                      && TouchesBuffer(accesses[i], id) && TouchesBuffer(accesses[j], id)
      ensures UsageClass(accesses[i]) == UsageClass(accesses[j])
    {
      ClassTableIsExact(accesses[i]);
      ClassTableIsExact(accesses[j]);
    }
    forall id, point, i, j | 0 <= i < |accesses| && 0 <= j < |accesses|
                             && TouchesTexturePoint(accesses[i], id, point)
                             && TouchesTexturePoint(accesses[j], id, point)
      ensures UsageClass(accesses[i]) == UsageClass(accesses[j])
      ensures UsageClass(accesses[i]) == Ok(Some(Attachment)) ==> i == j
    {
      if i != j {
        assert SharesPoint(accesses[i], accesses[j], id, point) && SharesPoint(accesses[j], accesses[i], id, point);
        ClassTableIsExact(accesses[i]);
        ClassTableIsExact(accesses[j]);
      }
    }
  }

  // ---------------------------------------------------------------------------------------------
  // Order and subsets
  // ---------------------------------------------------------------------------------------------

  function RemoveAt<T>(s: seq<T>, i: nat): seq<T>
    requires i < |s|
  {
    s[..i] + s[i + 1..]
  }

  lemma RemoveAtMultiset<T>(s: seq<T>, i: nat)
    requires i < |s|
    ensures multiset(RemoveAt(s, i)) == multiset(s) - multiset{s[i]}
  {
    assert s == s[..i] + [s[i]] + s[i + 1..];
  }

  lemma LocateOne<T>(part: seq<T>, whole: seq<T>, i: nat) returns (p: nat)
    requires multiset(part) <= multiset(whole) && i < |part|
    ensures p < |whole| && whole[p] == part[i]
  {
    assert part[i] in multiset(part);
    assert part[i] in multiset(whole);
    p :| 0 <= p < |whole| && whole[p] == part[i];
  }

  lemma RemainderIncluded<T>(part: seq<T>, whole: seq<T>, i: nat, p: nat)
    requires multiset(part) <= multiset(whole)
    requires i < |part| && p < |whole| && whole[p] == part[i]
    ensures multiset(RemoveAt(part, i)) <= multiset(RemoveAt(whole, p))
  {
    RemoveAtMultiset(part, i);
    RemoveAtMultiset(whole, p);
  }

  /** Two places of a sub-multiset come from two different places of the whole. */
  lemma LocateTwo<T>(part: seq<T>, whole: seq<T>, i: nat, j: nat) returns (p: nat, q: nat)
    requires multiset(part) <= multiset(whole)
    requires i < |part| && j < |part| && i != j
    ensures p < |whole| && q < |whole| && p != q && whole[p] == part[i] && whole[q] == part[j]
  {
    p := LocateOne(part, whole, i);
    RemainderIncluded(part, whole, i, p);
    var k := LocateOne(RemoveAt(part, i), RemoveAt(whole, p), if j < i then j else j - 1);
    q := if k < p then k else k + 1;
  }

  /**
   * Acceptance depends only on the multiset of accesses and survives dropping any of them; with
   * equal multisets it is invariance under reordering.
   */
  lemma AcceptanceIsInheritedBySubmultisets(part: seq<GpuResourceAccess>, whole: seq<GpuResourceAccess>)
    requires multiset(part) <= multiset(whole)
    requires Coherent(whole) && PassAccepts(whole)
    ensures Coherent(part) && PassAccepts(part)
  {
    forall i | 0 <= i < |part|
      ensures part[i] in whole
    {
      assert part[i] in multiset(part);
    }
    AcceptedIsPointwise(whole);
    forall i, j | 0 <= i < |part| && 0 <= j < |part| && i != j
      ensures exists p, q :: 0 <= p < |whole| && 0 <= q < |whole| && p != q
                             && whole[p] == part[i] && whole[q] == part[j]
    {
      var p, q := LocateTwo(part, whole, i, j);
    }
    PointwiseIsAccepted(part);
  }

  lemma AcceptanceIgnoresOrder(one: seq<GpuResourceAccess>, other: seq<GpuResourceAccess>)
    requires multiset(one) == multiset(other)
    requires Coherent(one)
    ensures PassAccepts(one) <==> PassAccepts(other)
  {
    forall i | 0 <= i < |other|
      ensures other[i] in one
    {
      assert other[i] in multiset(other);
    }
    assert Coherent(other);
    if PassAccepts(one) {
      AcceptanceIsInheritedBySubmultisets(other, one);
    }
    if PassAccepts(other) {
      AcceptanceIsInheritedBySubmultisets(one, other);
    }
  }
}
