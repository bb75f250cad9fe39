/** Context requests and the algebra of merging independently authored ones. */
module Descriptor {
  import opened Common
  import opened Capability
  import opened Preference
  import opened TextureFormat

  datatype GpuAdapterClass = Discrete | Integrated | Virtual | Cpu | OtherClass | UnknownClass

  datatype GpuPowerPreference = HighPerformance | LowPower | NoPreference

  datatype GpuAdapterSelectionPolicy = Automatic | RequireUnambiguous

  datatype GpuSoftwareFallbackPolicy = AllowFallback | RequireFallback | ForbidFallback

  datatype GpuPortabilityPolicy = AllowBackendSpecialized | RequirePortableBaseline

  datatype GpuFormatRole =
    | SampledRole
    | Filterable
    | StorageReadRole
    | StorageWriteRole
    | ColorAttachmentRole
    | Blendable
    | DepthStencilRole
    | CopySourceRole
    | CopyDestinationRole

  const LIMIT_COUNT: nat := 20
  const ALIGNMENT_COUNT: nat := 5

  /** A limit kind is its position among the twenty kinds of the source enumeration. */
  type GpuLimitKind = k: nat | k < 20

  /** An alignment kind is its position among the five kinds of the source enumeration. */
  type GpuAlignmentKind = k: nat | k < 5

  datatype GpuLimitConstraint = GpuLimitConstraint(minimum: Option<u64>, maximum: Option<u64>)

  type Limits = map<GpuLimitKind, GpuLimitConstraint>

  type Alignments = map<GpuAlignmentKind, u64>

  /** A request without its label and provenance, which carry no authority. */
  datatype GpuContextDescriptor = GpuContextDescriptor(
    powerPreference: GpuPowerPreference,
    adapterSelectionPolicy: GpuAdapterSelectionPolicy,
    fallbackPolicy: GpuSoftwareFallbackPolicy,
    allowedBackends: set<GpuBackendFamily>,
    backendPreference: Ranks,
    allowedAdapterClasses: set<GpuAdapterClass>,
    portabilityPolicy: GpuPortabilityPolicy,
    exactCandidate: Option<nat>,
    requirements: Entries,
    limits: Limits,
    formatRoles: set<(GpuTextureFormat, GpuFormatRole)>,
    alignments: Alignments)

  datatype ContextErrorCategory = ContradictoryRequest | InvalidDegradation

  function NewDescriptor(requirements: Entries): GpuContextDescriptor {
    GpuContextDescriptor(NoPreference, Automatic, AllowFallback, {}, map[], {}, AllowBackendSpecialized, None,
                         requirements, map[], {}, map[])
  }

  // ---------------------------------------------------------------------------------------------
  // Builders
  // ---------------------------------------------------------------------------------------------

  const UNCONSTRAINED := GpuLimitConstraint(None, None)

  function Constraint(limits: Limits, kind: GpuLimitKind): GpuLimitConstraint {
    if kind in limits then limits[kind] else UNCONSTRAINED
  }

  function RequireLimit(d: GpuContextDescriptor, kind: GpuLimitKind, minimum: u64): GpuContextDescriptor {
    var entry := Constraint(d.limits, kind);
    var held := if entry.minimum.Some? then entry.minimum.value else 0;
    d.(limits := d.limits[kind := entry.(minimum := Some(Max(held, minimum)))])
  }

  function PermitLimit(d: GpuContextDescriptor, kind: GpuLimitKind, maximum: u64): GpuContextDescriptor {
    var entry := Constraint(d.limits, kind);
    var capped := if entry.maximum.Some? then Min(entry.maximum.value, maximum) else maximum;
    d.(limits := d.limits[kind := entry.(maximum := Some(capped))])
  }

  function RequireFormatRole(
      d: GpuContextDescriptor, format: GpuTextureFormat, role: GpuFormatRole): GpuContextDescriptor
  {
    d.(formatRoles := d.formatRoles + {(format, role)})
  }

  function RequireAlignment(d: GpuContextDescriptor, kind: GpuAlignmentKind, maximum: u64): GpuContextDescriptor {
    var capped := if kind in d.alignments then Min(d.alignments[kind], maximum) else maximum;
    d.(alignments := d.alignments[kind := capped])
  }

  // ---------------------------------------------------------------------------------------------
  // Validation
  // ---------------------------------------------------------------------------------------------

  function PreferredDegradation(feature: GpuCapabilityFeature): GpuPreferredFallback {
    if feature == TimestampQuery then DisableInstrumentation
    else if feature == Presentation then ContinueWithoutFeature
    else SelectAlternativeWork
  }

  predicate PreferredDegradationIsValid(feature: GpuCapabilityFeature, fallback: GpuPreferredFallback) {
    fallback == PreferredDegradation(feature)
  }

  predicate DegradationsValid(entries: Entries) {
    forall f | f in entries && entries[f].Preferred? :: PreferredDegradationIsValid(f, entries[f].fallback)
  }

  predicate ConstraintValid(constraint: GpuLimitConstraint) {
    && constraint.minimum != Some(0)
    && constraint.maximum != Some(0)
    && (constraint.minimum.Some? && constraint.maximum.Some? ==> constraint.minimum.value <= constraint.maximum.value)
  }

  predicate LimitsValid(limits: Limits) {
    forall k | k in limits :: ConstraintValid(limits[k])
  }

  predicate AlignmentsValid(alignments: Alignments) {
    forall k | k in alignments :: alignments[k] != 0
  }

  predicate PreferenceAllowed(allowed: set<GpuBackendFamily>, preference: Ranks) {
    allowed != {} ==> preference.Keys <= allowed
  }

  predicate Valid(d: GpuContextDescriptor) {
    && DegradationsValid(d.requirements)
    && LimitsValid(d.limits)
    && AlignmentsValid(d.alignments)
    && PreferenceAllowed(d.allowedBackends, d.backendPreference)
  }

  /** The verdict of semantic validation: degradations are judged before everything else. */
  function ValidationError(d: GpuContextDescriptor): Option<ContextErrorCategory> {
    if !DegradationsValid(d.requirements) then Some(InvalidDegradation)
    else if !Valid(d) then Some(ContradictoryRequest)
    else None
  }

  method ValidateDescriptorSemantics(d: GpuContextDescriptor) returns (error: Option<ContextErrorCategory>)
    ensures error == ValidationError(d)
  {
    for feature := 0 to FEATURE_COUNT
      invariant forall f | f in d.requirements && f < feature && d.requirements[f].Preferred? ::
                  PreferredDegradationIsValid(f, d.requirements[f].fallback)
    {
      if feature in d.requirements && d.requirements[feature].Preferred? {
        if !PreferredDegradationIsValid(feature, d.requirements[feature].fallback) {
          return Some(InvalidDegradation);
        }
      }
    }
    for kind := 0 to LIMIT_COUNT
      invariant forall k | k in d.limits && k < kind :: ConstraintValid(d.limits[k])
    {
      if kind in d.limits && !ConstraintValid(d.limits[kind]) {
        return Some(ContradictoryRequest);
      }
    }
    for kind := 0 to ALIGNMENT_COUNT
      invariant forall k | k in d.alignments && k < kind :: d.alignments[k] != 0
    {
      if kind in d.alignments && d.alignments[kind] == 0 {
        return Some(ContradictoryRequest);
      }
    }
    if d.allowedBackends != {} && exists b | b in d.backendPreference :: b !in d.allowedBackends {
      return Some(ContradictoryRequest);
    }
    return None;
  }

  // ---------------------------------------------------------------------------------------------
  // Component merges
  // ---------------------------------------------------------------------------------------------

  function MergePowerPreference(left: GpuPowerPreference, right: GpuPowerPreference):
    Result<GpuPowerPreference, ContextErrorCategory>
  {
    if left == NoPreference then Ok(right)
    else if right == NoPreference then Ok(left)
    else if left == right then Ok(left)
    else Err(ContradictoryRequest)
  }

  function MergeFallbackPolicy(left: GpuSoftwareFallbackPolicy, right: GpuSoftwareFallbackPolicy):
    Result<GpuSoftwareFallbackPolicy, ContextErrorCategory>
  {
    if left == AllowFallback then Ok(right)
    else if right == AllowFallback then Ok(left)
    else if left == right then Ok(left)
    else Err(ContradictoryRequest)
  }

  /** An empty allowlist allows everything. */
  function MergeAllowlist<T>(left: set<T>, right: set<T>): Result<set<T>, ContextErrorCategory> {
    var merged := if left == {} then right else if right == {} then left else left * right;
    if left != {} && right != {} && merged == {} then Err(ContradictoryRequest) else Ok(merged)
  }

  function MergeBackendPreference(left: Ranks, right: Ranks): Result<Ranks, ContextErrorCategory> {
    if left == map[] then Ok(right)
    else if right == map[] || left == right then Ok(left)
    else Err(ContradictoryRequest)
  }

  function MergeExactCandidate(left: Option<nat>, right: Option<nat>): Result<Option<nat>, ContextErrorCategory> {
    match (left, right)
    case (None, value) => Ok(value)
    case (value, None) => Ok(value)
    case (Some(l), Some(r)) => if l == r then Ok(Some(l)) else Err(ContradictoryRequest)
  }

  function MergeSelectionPolicy(left: GpuAdapterSelectionPolicy, right: GpuAdapterSelectionPolicy):
    GpuAdapterSelectionPolicy
  {
    if left == RequireUnambiguous || right == RequireUnambiguous then RequireUnambiguous else Automatic
  }

  function MergePortabilityPolicy(left: GpuPortabilityPolicy, right: GpuPortabilityPolicy): GpuPortabilityPolicy {
    if left == RequirePortableBaseline || right == RequirePortableBaseline then RequirePortableBaseline
    else AllowBackendSpecialized
  }

  function JoinMinimum(left: Option<u64>, right: Option<u64>): Option<u64> {
    match (left, right)
    case (None, value) => value
    case (value, None) => value
    case (Some(l), Some(r)) => Some(Max(l, r))
  }

  function JoinMaximum(left: Option<u64>, right: Option<u64>): Option<u64> {
    match (left, right)
    case (None, value) => value
    case (value, None) => value
    case (Some(l), Some(r)) => Some(Min(l, r))
  }

  function JoinConstraint(left: GpuLimitConstraint, right: GpuLimitConstraint): GpuLimitConstraint {
    GpuLimitConstraint(JoinMinimum(left.minimum, right.minimum), JoinMaximum(left.maximum, right.maximum))
  }

  /** Bounds are combined kind by kind; a kind with no bound on either side is not recorded. */
  function JoinLimits(left: Limits, right: Limits): Limits {
    map k | k in left.Keys + right.Keys
            && JoinConstraint(Constraint(left, k), Constraint(right, k)) != UNCONSTRAINED ::
      JoinConstraint(Constraint(left, k), Constraint(right, k))
  }

  function Cap(alignments: Alignments, kind: GpuAlignmentKind): Option<u64> {
    if kind in alignments then Some(alignments[kind]) else None
  }

  function JoinAlignments(left: Alignments, right: Alignments): Alignments {
    map k | k in left.Keys + right.Keys :: JoinMaximum(Cap(left, k), Cap(right, k)).value
  }

  // ---------------------------------------------------------------------------------------------
  // The merge
  // ---------------------------------------------------------------------------------------------

  predicate Consistent(a: GpuContextDescriptor, b: GpuContextDescriptor) {
    && Mergeable(a.requirements, b.requirements)
    && MergePowerPreference(a.powerPreference, b.powerPreference).Ok?
    && MergeFallbackPolicy(a.fallbackPolicy, b.fallbackPolicy).Ok?
    && MergeAllowlist(a.allowedBackends, b.allowedBackends).Ok?
    && MergeBackendPreference(a.backendPreference, b.backendPreference).Ok?
    && MergeAllowlist(a.allowedAdapterClasses, b.allowedAdapterClasses).Ok?
    && MergeExactCandidate(a.exactCandidate, b.exactCandidate).Ok?
  }

  /** The combined request, before it is validated. */
  function Combined(a: GpuContextDescriptor, b: GpuContextDescriptor): GpuContextDescriptor
    requires Consistent(a, b)
  {
    GpuContextDescriptor(
      MergePowerPreference(a.powerPreference, b.powerPreference).value,
      MergeSelectionPolicy(a.adapterSelectionPolicy, b.adapterSelectionPolicy),
      MergeFallbackPolicy(a.fallbackPolicy, b.fallbackPolicy).value,
      MergeAllowlist(a.allowedBackends, b.allowedBackends).value,
      Renumber(MergeBackendPreference(a.backendPreference, b.backendPreference).value),
      MergeAllowlist(a.allowedAdapterClasses, b.allowedAdapterClasses).value,
      MergePortabilityPolicy(a.portabilityPolicy, b.portabilityPolicy),
      MergeExactCandidate(a.exactCandidate, b.exactCandidate).value,
      Join(a.requirements, b.requirements),
      JoinLimits(a.limits, b.limits),
      a.formatRoles + b.formatRoles,
      JoinAlignments(a.alignments, b.alignments))
  }

  function MergeDescriptors(a: GpuContextDescriptor, b: GpuContextDescriptor):
    Result<GpuContextDescriptor, ContextErrorCategory>
  {
    if !Consistent(a, b) then Err(ContradictoryRequest)
    else
      match ValidationError(Combined(a, b))
      case Some(error) => Err(error)
      case None => Ok(Combined(a, b))
  }

  /** Every declared bound of `source` is required of, or permitted to, the request being built. */
  method AbsorbLimits(into: GpuContextDescriptor, source: Limits) returns (merged: GpuContextDescriptor)
    requires forall k | k in into.limits :: into.limits[k] != UNCONSTRAINED
    ensures merged == into.(limits := JoinLimits(into.limits, source))
  {
    merged := into;
    for kind := 0 to LIMIT_COUNT
      invariant merged == into.(limits := merged.limits)
      invariant JoinedBelow(merged.limits, into.limits, source, kind)
    {
      ghost var before := merged;
      if kind in source {
        var constraint := source[kind];
        if constraint.minimum.Some? {
          merged := RequireLimit(merged, kind, constraint.minimum.value);
        }
        if constraint.maximum.Some? {
          merged := PermitLimit(merged, kind, constraint.maximum.value);
        }
      }
      JoinStep(before.limits, merged.limits, into.limits, source, kind);
    }
    ConstraintOfJoin(into.limits, source);
    SameConstraints(merged.limits, JoinLimits(into.limits, source));
  }

  /** Bounds below `kind` are joined, the rest are still those of `into`. */
  predicate JoinedBelow(merged: Limits, into: Limits, source: Limits, kind: nat) {
    && (forall k: GpuLimitKind ::
          Constraint(merged, k)
          == if k < kind then JoinConstraint(Constraint(into, k), Constraint(source, k)) else Constraint(into, k))
    && forall k | k in merged :: merged[k] != UNCONSTRAINED
  }

  lemma JoinStep(before: Limits, after: Limits, into: Limits, source: Limits, kind: GpuLimitKind)
    requires JoinedBelow(before, into, source, kind)
    requires Constraint(after, kind) == JoinConstraint(Constraint(before, kind), Constraint(source, kind))
    requires forall k | k in after && k != kind :: k in before && after[k] == before[k]
    requires forall k | k in before && k != kind :: k in after
    requires kind in after ==> after[kind] != UNCONSTRAINED
    ensures JoinedBelow(after, into, source, kind + 1)
  {
  }

  method AbsorbRoles(into: GpuContextDescriptor, source: set<(GpuTextureFormat, GpuFormatRole)>)
    returns (merged: GpuContextDescriptor)
    ensures merged == into.(formatRoles := into.formatRoles + source)
  {
    merged := into;
    var roles := source;
    while roles != {}
      invariant roles <= source
      invariant merged == into.(formatRoles := merged.formatRoles)
      invariant merged.formatRoles + roles == into.formatRoles + source
      decreases |roles|
    {
      var role :| role in roles;
      merged := RequireFormatRole(merged, role.0, role.1);
      roles := roles - {role};
    }
  }

  method AbsorbAlignments(into: GpuContextDescriptor, source: Alignments) returns (merged: GpuContextDescriptor)
    ensures merged == into.(alignments := JoinAlignments(into.alignments, source))
  {
    merged := into;
    for kind := 0 to ALIGNMENT_COUNT
      invariant merged == into.(alignments := merged.alignments)
      invariant forall k: GpuAlignmentKind ::
                  Cap(merged.alignments, k)
                  == if k < kind then JoinMaximum(Cap(into.alignments, k), Cap(source, k))
                     else Cap(into.alignments, k)
    {
      if kind in source {
        assert Cap(merged.alignments, kind) == Cap(into.alignments, kind);
        merged := RequireAlignment(merged, kind, source[kind]);
      }
    }
    CapOfJoin(into.alignments, source);
    SameCaps(merged.alignments, JoinAlignments(into.alignments, source));
  }

  /** One descriptor's limits, roles and alignments poured into the request being built. */
  method Absorb(into: GpuContextDescriptor, source: GpuContextDescriptor) returns (merged: GpuContextDescriptor)
    requires forall k | k in into.limits :: into.limits[k] != UNCONSTRAINED
    ensures merged == into.(limits := JoinLimits(into.limits, source.limits),
                            formatRoles := into.formatRoles + source.formatRoles,
                            alignments := JoinAlignments(into.alignments, source.alignments))
  {
    merged := AbsorbLimits(into, source.limits);
    merged := AbsorbRoles(merged, source.formatRoles);
    merged := AbsorbAlignments(merged, source.alignments);
  }

  lemma SameConstraints(a: Limits, b: Limits)
    requires forall k: GpuLimitKind :: Constraint(a, k) == Constraint(b, k)
    requires forall k | k in a :: a[k] != UNCONSTRAINED
    requires forall k | k in b :: b[k] != UNCONSTRAINED
    ensures a == b
  {
    forall k: GpuLimitKind
      ensures k in a <==> k in b
      ensures k in a ==> a[k] == b[k]
    {
      assert Constraint(a, k) == Constraint(b, k);
    }
  }

  lemma SameCaps(a: Alignments, b: Alignments)
    requires forall k: GpuAlignmentKind :: Cap(a, k) == Cap(b, k)
    ensures a == b
  {
    forall k: GpuAlignmentKind
      ensures k in a <==> k in b
      ensures k in a ==> a[k] == b[k]
    {
      assert Cap(a, k) == Cap(b, k);
    }
  }

  /** The merge as written: component by component, then every constraint of both sides, then validation. */
  method Merge(a: GpuContextDescriptor, b: GpuContextDescriptor)
    returns (r: Result<GpuContextDescriptor, ContextErrorCategory>)
    ensures r == MergeDescriptors(a, b)
  {
    MergeEntriesOkIffMergeable(a.requirements, b.requirements);
    var requirements := MergeEntries(a.requirements, b.requirements);
    if requirements.Err? {
      return Err(ContradictoryRequest);
    }
    var power := MergePowerPreference(a.powerPreference, b.powerPreference);
    if power.Err? {
      return Err(power.error);
    }
    var fallback := MergeFallbackPolicy(a.fallbackPolicy, b.fallbackPolicy);
    if fallback.Err? {
      return Err(fallback.error);
    }
    var backends := MergeAllowlist(a.allowedBackends, b.allowedBackends);
    if backends.Err? {
      return Err(backends.error);
    }
    var preference := MergeBackendPreference(a.backendPreference, b.backendPreference);
    if preference.Err? {
      return Err(preference.error);
    }
    var classes := MergeAllowlist(a.allowedAdapterClasses, b.allowedAdapterClasses);
    if classes.Err? {
      return Err(classes.error);
    }
    var candidate := MergeExactCandidate(a.exactCandidate, b.exactCandidate);
    if candidate.Err? {
      return Err(candidate.error);
    }
    var ranks := RankBackends(Ordered(preference.value));
    var merged := NewDescriptor(requirements.value).(
      powerPreference := power.value,
      adapterSelectionPolicy := MergeSelectionPolicy(a.adapterSelectionPolicy, b.adapterSelectionPolicy),
      fallbackPolicy := fallback.value,
      allowedBackends := backends.value,
      backendPreference := ranks,
      allowedAdapterClasses := classes.value,
      portabilityPolicy := MergePortabilityPolicy(a.portabilityPolicy, b.portabilityPolicy),
      exactCandidate := candidate.value);
    merged := Absorb(merged, a);
    merged := Absorb(merged, b);
    AbsorbBoth(a, b);
    var error := ValidateDescriptorSemantics(merged);
    if error.Some? {
      return Err(error.value);
    }
    return Ok(merged);
  }

  lemma AbsorbBoth(a: GpuContextDescriptor, b: GpuContextDescriptor)
    ensures JoinLimits(JoinLimits(map[], a.limits), b.limits) == JoinLimits(a.limits, b.limits)
    ensures JoinAlignments(JoinAlignments(map[], a.alignments), b.alignments)
            == JoinAlignments(a.alignments, b.alignments)
    ensures {} + a.formatRoles + b.formatRoles == a.formatRoles + b.formatRoles
  {
    ConstraintOfJoin(map[], a.limits);
    ConstraintOfJoin(JoinLimits(map[], a.limits), b.limits);
    ConstraintOfJoin(a.limits, b.limits);
    SameConstraints(JoinLimits(JoinLimits(map[], a.limits), b.limits), JoinLimits(a.limits, b.limits));
    CapOfJoin(map[], a.alignments);
    CapOfJoin(JoinAlignments(map[], a.alignments), b.alignments);
    CapOfJoin(a.alignments, b.alignments);
    SameCaps(
      JoinAlignments(JoinAlignments(map[], a.alignments), b.alignments), JoinAlignments(a.alignments, b.alignments));
  }

  lemma ConstraintOfJoin(a: Limits, b: Limits)
    ensures forall k: GpuLimitKind ::
              Constraint(JoinLimits(a, b), k) == JoinConstraint(Constraint(a, k), Constraint(b, k))
    ensures forall k | k in JoinLimits(a, b) :: JoinLimits(a, b)[k] != UNCONSTRAINED
  {
  }

  lemma CapOfJoin(a: Alignments, b: Alignments)
    ensures forall k: GpuAlignmentKind :: Cap(JoinAlignments(a, b), k) == JoinMaximum(Cap(a, k), Cap(b, k))
  {
  }
}
