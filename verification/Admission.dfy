/** Deciding whether an adapter satisfies a context request, and re-checking the created device. */
module Admission {
  import opened Common
  import opened TextureFormat
  import opened Capability
  import opened Preference
  import opened Descriptor

  // ---------------------------------------------------------------------------------------------
  // Facts
  // ---------------------------------------------------------------------------------------------

  datatype GpuLimits = GpuLimits(
    maxUniformBufferBindingSize: u64,
    maxStorageBufferBindingSize: u64,
    maxColorAttachments: u32,
    maxVertexBuffers: u32,
    maxBindingsPerGroup: u32,
    maxTextureDimension2d: u32,
    maxBindGroups: u32,
    maxBindGroupsPlusVertexBuffers: u32,
    maxDynamicUniformBuffersPerPipelineLayout: u32,
    maxDynamicStorageBuffersPerPipelineLayout: u32,
    maxComputeWorkgroupsPerDimension: u32,
    maxBufferSize: u64,
    maxTextureDimension1d: u32,
    maxTextureDimension3d: u32,
    maxTextureArrayLayers: u32,
    maxVertexAttributes: u32,
    maxVertexBufferArrayStride: u32,
    maxBindingArrayElementsPerShaderStage: u32,
    maxBindingArraySamplerElementsPerShaderStage: u32,
    maxMultiviewViewCount: u32)

  /** The value recorded for a kind; kinds are numbered as the source enumeration declares them. */
  function LimitValue(limits: GpuLimits, kind: GpuLimitKind): u64 {
    if kind == 0 then limits.maxUniformBufferBindingSize
    else if kind == 1 then limits.maxStorageBufferBindingSize
    else if kind == 2 then limits.maxColorAttachments
    else if kind == 3 then limits.maxVertexBuffers
    else if kind == 4 then limits.maxBindingsPerGroup
    else if kind == 5 then limits.maxTextureDimension2d
    else if kind == 6 then limits.maxBindGroups
    else if kind == 7 then limits.maxBindGroupsPlusVertexBuffers
    else if kind == 8 then limits.maxDynamicUniformBuffersPerPipelineLayout
    else if kind == 9 then limits.maxDynamicStorageBuffersPerPipelineLayout
    else if kind == 10 then limits.maxComputeWorkgroupsPerDimension
    else if kind == 11 then limits.maxBufferSize
    else if kind == 12 then limits.maxTextureDimension1d
    else if kind == 13 then limits.maxTextureDimension3d
    else if kind == 14 then limits.maxTextureArrayLayers
    else if kind == 15 then limits.maxVertexAttributes
    else if kind == 16 then limits.maxVertexBufferArrayStride
    else if kind == 17 then limits.maxBindingArrayElementsPerShaderStage
    else if kind == 18 then limits.maxBindingArraySamplerElementsPerShaderStage
    else limits.maxMultiviewViewCount
  }

  datatype GpuAlignmentFacts = GpuAlignmentFacts(
    uniformDynamicOffset: Option<u64>,
    storageDynamicOffset: Option<u64>,
    copyBufferOffset: Option<u64>,
    bytesPerRow: Option<u64>,
    queryResolveDestination: Option<u64>)

  function AlignmentValue(facts: GpuAlignmentFacts, kind: GpuAlignmentKind): Option<u64> {
    if kind == 0 then facts.uniformDynamicOffset
    else if kind == 1 then facts.storageDynamicOffset
    else if kind == 2 then facts.copyBufferOffset
    else if kind == 3 then facts.bytesPerRow
    else facts.queryResolveDestination
  }

  datatype GpuSoftwareStatus = Software | Hardware | UnknownSoftware

  datatype GpuFallbackStatus = ConfirmedFallback | ConfirmedNotFallback | UnknownFallback

  datatype FormatFacts = FormatFacts(
    sampled: bool, filterable: bool, storageRead: bool, storageWrite: bool, colorAttachment: bool,
    blendable: bool, depthStencil: bool, copySource: bool, copyDestination: bool)

  datatype GpuAdapterFacts = GpuAdapterFacts(
    backend: GpuBackendFamily,
    adapterClass: GpuAdapterClass,
    software: GpuSoftwareStatus,
    fallback: GpuFallbackStatus,
    supported: set<GpuCapabilityFeature>,
    formats: map<GpuTextureFormat, FormatFacts>,
    limits: GpuLimits,
    alignments: GpuAlignmentFacts,
    deviceProfileSupported: bool)

  datatype Environment = Environment(hostCompatible: bool, hostCompatibilityRequired: bool)

  // ---------------------------------------------------------------------------------------------
  // Workload budget
  // ---------------------------------------------------------------------------------------------

  const FIXED_BINDING_ARRAY_ELEMENT_BASELINE: u32 := 500_000
  const FIXED_BINDING_ARRAY_SAMPLER_ELEMENT_BASELINE: u32 := 1_000
  const MULTIVIEW_VIEW_COUNT_BASELINE: u32 := 2

  /** The normalized baseline, widened only by the features that are enabled. */
  function BaselineLimits(enabled: set<GpuCapabilityFeature>): GpuLimits {
    GpuLimits(
      64 * 1024, 128 * 1024 * 1024, 1, 8, 16, 8192, 4, 24, 8, 4, 65_535, 256 * 1024 * 1024, 8192, 2048, 256, 16, 2048,
      if TextureBindingArray in enabled || BufferBindingArray in enabled
      then FIXED_BINDING_ARRAY_ELEMENT_BASELINE else 0,
      if TextureBindingArray in enabled then FIXED_BINDING_ARRAY_SAMPLER_ELEMENT_BASELINE else 0,
      if Multiview in enabled then MULTIVIEW_VIEW_COUNT_BASELINE else 0)
  }

  function EffectiveValue(limits: Limits, enabled: set<GpuCapabilityFeature>, kind: GpuLimitKind): u64 {
    var baseline := LimitValue(BaselineLimits(enabled), kind);
    if kind in limits then
      var constraint := limits[kind];
      Min(Max(if constraint.minimum.Some? then constraint.minimum.value else baseline, baseline),
          if constraint.maximum.Some? then constraint.maximum.value else U64_MAX)
    else baseline
  }

  /** Three kinds are held in 64 bits; the others must fit 32. */
  predicate Wide(kind: GpuLimitKind) {
    kind == 0 || kind == 1 || kind == 11
  }

  predicate BudgetRepresentable(limits: Limits, enabled: set<GpuCapabilityFeature>) {
    forall k: GpuLimitKind | 0 <= k < 20 && !Wide(k) :: EffectiveValue(limits, enabled, k) <= U32_MAX
  }

  datatype GpuWorkloadBudget = GpuWorkloadBudget(limits: GpuLimits, alignmentMaximums: Alignments)

  function Narrow(value: u64): Option<u32> {
    if value <= U32_MAX then Some(value) else None
  }

  /** The limits record filled from one value per kind, in the order of its constructor. */
  function LimitsFrom(value: seq<u64>): Option<GpuLimits>
    requires |value| == 20
  {
    var colorAttachments :- Narrow(value[2]);
    var vertexBuffers :- Narrow(value[3]);
    var bindingsPerGroup :- Narrow(value[4]);
    var dimension2d :- Narrow(value[5]);
    var bindGroups :- Narrow(value[6]);
    var bindGroupsPlusVertexBuffers :- Narrow(value[7]);
    var dynamicUniform :- Narrow(value[8]);
    var dynamicStorage :- Narrow(value[9]);
    var workgroups :- Narrow(value[10]);
    var dimension1d :- Narrow(value[12]);
    var dimension3d :- Narrow(value[13]);
    var arrayLayers :- Narrow(value[14]);
    var vertexAttributes :- Narrow(value[15]);
    var vertexStride :- Narrow(value[16]);
    var bindingArrayElements :- Narrow(value[17]);
    var bindingArraySamplers :- Narrow(value[18]);
    var multiview :- Narrow(value[19]);
    Some(GpuLimits(
           value[0], value[1], colorAttachments, vertexBuffers, bindingsPerGroup, dimension2d, bindGroups,
           bindGroupsPlusVertexBuffers, dynamicUniform, dynamicStorage, workgroups, value[11],
           dimension1d, dimension3d, arrayLayers, vertexAttributes, vertexStride,
           bindingArrayElements, bindingArraySamplers, multiview))
  }

  lemma LimitsFromReadsBack(value: seq<u64>)
    requires |value| == 20
    ensures LimitsFrom(value).Some? <==> forall k: GpuLimitKind | k < 20 && !Wide(k) :: value[k] <= U32_MAX
    ensures LimitsFrom(value).Some? ==> forall k: GpuLimitKind :: LimitValue(LimitsFrom(value).value, k) == value[k]
  {
    if LimitsFrom(value).None? {
      assert exists k: GpuLimitKind :: k < 20 && !Wide(k) && value[k] > U32_MAX;
    }
  }

  function EffectiveWorkloadBudget(
      limits: Limits, alignments: Alignments, enabled: set<GpuCapabilityFeature>): Option<GpuWorkloadBudget>
  {
    var values :- LimitsFrom(seq(20, k requires 0 <= k < 20 => EffectiveValue(limits, enabled, k)));
    Some(GpuWorkloadBudget(values, alignments))
  }

  /** A budget is refused only for width, and reads back kind by kind as the effective value. */
  lemma BudgetReadsBack(limits: Limits, alignments: Alignments, enabled: set<GpuCapabilityFeature>)
    ensures EffectiveWorkloadBudget(limits, alignments, enabled).Some? <==> BudgetRepresentable(limits, enabled)
    ensures EffectiveWorkloadBudget(limits, alignments, enabled).Some? ==>
              var budget := EffectiveWorkloadBudget(limits, alignments, enabled).value;
              && budget.alignmentMaximums == alignments
              && forall k: GpuLimitKind :: LimitValue(budget.limits, k) == EffectiveValue(limits, enabled, k)
  {
    LimitsFromReadsBack(seq(20, k requires 0 <= k < 20 => EffectiveValue(limits, enabled, k)));
  }

  /** On valid limits the effective value is the baseline clamped into the declared interval. */
  lemma EffectiveValueClampsBaseline(limits: Limits, enabled: set<GpuCapabilityFeature>, kind: GpuLimitKind)
    requires LimitsValid(limits)
    ensures var baseline := LimitValue(BaselineLimits(enabled), kind);
            var value := EffectiveValue(limits, enabled, kind);
            var constraint := Constraint(limits, kind);
            && (constraint.minimum.Some? ==> constraint.minimum.value <= value)
            && (constraint.maximum.Some? ==> value <= constraint.maximum.value)
            && (value < baseline ==> constraint.maximum == Some(value))
            && (value > baseline ==> constraint.minimum == Some(value))
  {
    if kind in limits {
      assert ConstraintValid(limits[kind]);
    }
  }

  // ---------------------------------------------------------------------------------------------
  // Checks
  // ---------------------------------------------------------------------------------------------

  predicate HostSatisfied(environment: Environment) {
    !environment.hostCompatibilityRequired || environment.hostCompatible
  }

  predicate AllowedBy<T(==)>(allowlist: set<T>, x: T) {
    allowlist == {} || x in allowlist
  }

  predicate FallbackSatisfied(policy: GpuSoftwareFallbackPolicy, adapter: GpuAdapterFacts) {
    match policy
    case RequireFallback => adapter.fallback == ConfirmedFallback
    case ForbidFallback => adapter.fallback == ConfirmedNotFallback && adapter.software != Software
    case AllowFallback => true
  }

  /** Required and preferred features the adapter supports. */
  function RequestedEnabledFeatures(requirements: Entries, supported: set<GpuCapabilityFeature>):
    set<GpuCapabilityFeature>
  {
    set f | f in requirements && !requirements[f].Disabled? && f in supported
  }

  predicate RequiredSupported(requirements: Entries, supported: set<GpuCapabilityFeature>) {
    forall f | f in requirements && requirements[f].Required? :: f in supported
  }

  predicate RoleSupported(adapter: GpuAdapterFacts, format: GpuTextureFormat, role: GpuFormatRole) {
    format in adapter.formats
    && var facts := adapter.formats[format];
       match role
       case SampledRole => facts.sampled
       case Filterable => facts.filterable
       case StorageReadRole => facts.storageRead
       case StorageWriteRole => facts.storageWrite
       case ColorAttachmentRole => facts.colorAttachment
       case Blendable => facts.colorAttachment && facts.blendable
       case DepthStencilRole => facts.depthStencil
       case CopySourceRole => facts.copySource
       case CopyDestinationRole => facts.copyDestination
  }

  predicate RolesSupported(adapter: GpuAdapterFacts, roles: set<(GpuTextureFormat, GpuFormatRole)>) {
    forall role | role in roles :: RoleSupported(adapter, role.0, role.1)
  }

  predicate AlignmentWithin(facts: GpuAlignmentFacts, kind: GpuAlignmentKind, maximum: u64) {
    AlignmentValue(facts, kind).Some? && AlignmentValue(facts, kind).value <= maximum
  }

  predicate AlignmentsSatisfied(facts: GpuAlignmentFacts, caps: Alignments) {
    forall k | k in caps :: AlignmentWithin(facts, k, caps[k])
  }

  predicate LimitsReach(observed: GpuLimits, limits: Limits, enabled: set<GpuCapabilityFeature>) {
    forall k: GpuLimitKind | 0 <= k < 20 :: LimitValue(observed, k) >= EffectiveValue(limits, enabled, k)
  }

  // ---------------------------------------------------------------------------------------------
  // Portability
  // ---------------------------------------------------------------------------------------------

  datatype GpuPortabilityReason =
    | DeclaredExtension(feature: GpuCapabilityFeature)
    | DeclaredFormatRoleExtension(format: GpuTextureFormat, role: GpuFormatRole)
    | PreferredRequirementDegraded(degraded: GpuCapabilityFeature)
    | BackendSpecialization(backend: GpuBackendFamily)
    | UnknownBackendReason

  datatype GpuPortabilityClass =
    | PortableBaseline
    | PortableWithDeclaredExtensions
    | BackendSpecialized
    | Unsupported

  datatype GpuPortabilityEvidence = GpuPortabilityEvidence(
    class_: GpuPortabilityClass, reasons: set<GpuPortabilityReason>)

  predicate IsDeclaredExtension(feature: GpuCapabilityFeature) {
    feature in {
      TimestampQuery, StorageTexture, IndirectExecution, IndirectFirstInstance, TextureBindingArray,
      BufferBindingArray, StorageResourceBindingArray, UniformBufferBindingArray,
      TextureBindingArrayNonUniformIndexing, StorageBufferBindingArrayNonUniformIndexing,
      StorageTextureBindingArrayNonUniformIndexing, DualSourceBlending, MultisampleArray, Multiview,
      ClipDistances, PrimitiveIndex}
  }

  predicate IsDeclaredFormatRoleExtension(format: GpuTextureFormat, role: GpuFormatRole) {
    || format == Depth32FloatStencil8
    || (format == Rg11b10Ufloat && role == ColorAttachmentRole)
    || ((format == R32Float || format == Rg32Float || format == Rgba32Float)
        && (role == Filterable || role == Blendable))
    || (format == Bgra8Unorm && (role == StorageReadRole || role == StorageWriteRole))
  }

  function ClassOf(backend: GpuBackendFamily, reasons: set<GpuPortabilityReason>): GpuPortabilityClass {
    if backend == UnknownBackend then Unsupported
    else if exists r | r in reasons :: r.BackendSpecialization? then BackendSpecialized
    else if exists r | r in reasons :: r.DeclaredExtension? || r.DeclaredFormatRoleExtension? then
      PortableWithDeclaredExtensions
    else PortableBaseline
  }

  /** Every reason the evidence must record, stated without loops. */
  ghost predicate IsReason(
      d: GpuContextDescriptor, admission: GpuCapabilityAdmission, backend: GpuBackendFamily,
      reason: GpuPortabilityReason)
  {
    match reason
    case DeclaredExtension(f) => f in EnabledOf(admission) && IsDeclaredExtension(f)
    case DeclaredFormatRoleExtension(format, role) =>
      (format, role) in d.formatRoles && IsDeclaredFormatRoleExtension(format, role)
    case PreferredRequirementDegraded(f) =>
      exists i :: 0 <= i < |admission.preferred| && admission.preferred[i].feature == f
                  && !(admission.preferred[i].available && admission.preferred[i].enabled)
    case BackendSpecialization(b) => d.allowedBackends == {b}
    case UnknownBackendReason => backend == UnknownBackend
  }

  /** Features in use: granted requirements and the preferences that took effect. */
  function EnabledOf(admission: GpuCapabilityAdmission): set<GpuCapabilityFeature> {
    (set f | f in admission.grantedRequired)
    + set p | p in admission.preferred && p.available && p.enabled :: p.feature
  }

  method DerivePortability(d: GpuContextDescriptor, admission: GpuCapabilityAdmission, backend: GpuBackendFamily)
    returns (evidence: GpuPortabilityEvidence)
    ensures evidence.class_ == ClassOf(backend, evidence.reasons)
    ensures forall reason :: reason in evidence.reasons <==> IsReason(d, admission, backend, reason)
  {
    var reasons: set<GpuPortabilityReason> := {};
    var enabled := EnabledOf(admission);
    for feature := 0 to FEATURE_COUNT
      invariant forall r :: r in reasons <==> r.DeclaredExtension? && r.feature < feature
                                              && r.feature in enabled && IsDeclaredExtension(r.feature)
    {
      if feature in enabled && IsDeclaredExtension(feature) {
        reasons := reasons + {DeclaredExtension(feature)};
      }
    }
    ghost var declared := reasons;
    for i := 0 to |admission.preferred|
      invariant forall r :: r in reasons <==>
                  r in declared || (r.PreferredRequirementDegraded? && DegradedBelow(admission, r.degraded, i))
    {
      var preferred := admission.preferred[i];
      if !preferred.available || !preferred.enabled {
        reasons := reasons + {PreferredRequirementDegraded(preferred.feature)};
      }
      assert forall f :: DegradedBelow(admission, f, i + 1) <==>
          DegradedBelow(admission, f, i)
          || (preferred.feature == f && !(preferred.available && preferred.enabled));
    }
    ghost var degraded := reasons;
    var roles := d.formatRoles;
    while roles != {}
      invariant roles <= d.formatRoles
      invariant forall r :: r in reasons <==>
                  r in degraded
                  || (r.DeclaredFormatRoleExtension? && (r.format, r.role) in d.formatRoles - roles
                      && IsDeclaredFormatRoleExtension(r.format, r.role))
      decreases |roles|
    {
      var role :| role in roles;
      if IsDeclaredFormatRoleExtension(role.0, role.1) {
        reasons := reasons + {DeclaredFormatRoleExtension(role.0, role.1)};
      }
      roles := roles - {role};
    }
    if |d.allowedBackends| == 1 {
      var only :| only in d.allowedBackends;
      SingletonSet(d.allowedBackends, only);
      reasons := reasons + {BackendSpecialization(only)};
    }
    if backend == UnknownBackend {
      reasons := reasons + {UnknownBackendReason};
    }
    return GpuPortabilityEvidence(ClassOf(backend, reasons), reasons);
  }

  predicate DegradedBelow(admission: GpuCapabilityAdmission, f: GpuCapabilityFeature, i: nat)
    requires i <= |admission.preferred|
  {
    exists k :: 0 <= k < i && admission.preferred[k].feature == f
                && !(admission.preferred[k].available && admission.preferred[k].enabled)
  }

  lemma SingletonSet<T>(s: set<T>, x: T)
    requires x in s
    ensures |s| == 1 <==> s == {x}
  {
    var others := s - {x};
    assert s == others + {x};
    assert |others| == 0 <==> others == {};
  }

  /** What the portability rules refuse, said about the request and the adapter. */
  predicate PortabilitySatisfied(d: GpuContextDescriptor, adapter: GpuAdapterFacts) {
    && adapter.backend != UnknownBackend
    && (d.portabilityPolicy == RequirePortableBaseline ==>
          && |d.allowedBackends| != 1
          && (forall f | f in RequestedEnabledFeatures(d.requirements, adapter.supported) :: !IsDeclaredExtension(f))
          && (forall role | role in d.formatRoles :: !IsDeclaredFormatRoleExtension(role.0, role.1)))
  }

  // ---------------------------------------------------------------------------------------------
  // Capability evaluation of the requested features
  // ---------------------------------------------------------------------------------------------

  /** Enabling exactly what was requested and is supported leaves one way to fail: a missing requirement. */
  lemma RequestedEvaluationFailsOnlyAsUnavailable(
      requirements: Entries, supported: set<GpuCapabilityFeature>, f: GpuCapabilityFeature)
    ensures RequestedEnabledFeatures(requirements, supported) <= supported
    ensures var enabled := RequestedEnabledFeatures(requirements, supported);
            && (Violates(requirements, supported, enabled, f) <==>
                  f in requirements && requirements[f].Required? && f !in supported)
            && (Violates(requirements, supported, enabled, f) ==>
                  Violation(requirements[f], supported, enabled) == Some(RequiredUnavailable))
  {
  }

  datatype GpuDegradationRecord = GpuDegradationRecord(feature: GpuCapabilityFeature, fallback: GpuPreferredFallback)

  function Degradations(preferred: seq<GpuPreferredAvailability>): seq<GpuDegradationRecord> {
    if preferred == [] then []
    else
      var first := preferred[0];
      (if !first.available || !first.enabled then [GpuDegradationRecord(first.feature, first.fallback)] else [])
      + Degradations(preferred[1..])
  }

  function DegradedFeatures(records: seq<GpuDegradationRecord>): seq<GpuCapabilityFeature> {
    seq(|records|, i requires 0 <= i < |records| => records[i].feature)
  }

  /** The degradations are the preferences the adapter lacks, in key order. */
  lemma {:induction false} DegradationsAreMissingPreferences(
      requirements: Entries, supported: set<GpuCapabilityFeature>, i: nat)
    requires i <= FEATURE_COUNT
    ensures var enabled := RequestedEnabledFeatures(requirements, supported);
            DegradedFeatures(Degradations(AvailabilitiesFrom(requirements, supported, enabled, i)))
            == KeyOrderFrom(PreferredSet(requirements) - supported, i)
    decreases FEATURE_COUNT - i
  {
    if i < FEATURE_COUNT {
      DegradationsAreMissingPreferences(requirements, supported, i + 1);
      var enabled := RequestedEnabledFeatures(requirements, supported);
      var tail := AvailabilitiesFrom(requirements, supported, enabled, i + 1);
      if i in requirements && requirements[i].Preferred? {
        var list := AvailabilitiesFrom(requirements, supported, enabled, i);
        assert list[1..] == tail;
        assert i in enabled <==> i in supported;
      }
    }
  }

  /** Each degradation carries the fallback its preference declared. */
  lemma {:induction false} DegradationsKeepFallbacks(
      requirements: Entries, supported: set<GpuCapabilityFeature>, enabled: set<GpuCapabilityFeature>, i: nat)
    requires i <= FEATURE_COUNT
    ensures forall r | r in Degradations(AvailabilitiesFrom(requirements, supported, enabled, i)) ::
              r.feature in requirements && requirements[r.feature] == Preferred(r.feature, r.fallback)
    decreases FEATURE_COUNT - i
  {
    if i < FEATURE_COUNT {
      DegradationsKeepFallbacks(requirements, supported, enabled, i + 1);
      var tail := AvailabilitiesFrom(requirements, supported, enabled, i + 1);
      if i in requirements && requirements[i].Preferred? {
        var list := AvailabilitiesFrom(requirements, supported, enabled, i);
        assert list[1..] == tail;
      }
    }
  }

  /** Granted, preferred and disabled lists split the requirement map, each in key order. */
  lemma EvaluationPartitionsRequirements(
      requirements: Entries, supported: set<GpuCapabilityFeature>, enabled: set<GpuCapabilityFeature>)
    ensures var granted := KeyOrderFrom(RequiredSet(requirements), 0);
            var preferred := AvailabilitiesFrom(requirements, supported, enabled, 0);
            var disabled := KeyOrderFrom(DisabledSet(requirements), 0);
            && (forall f: GpuCapabilityFeature ::
                  && (f in granted <==> f in requirements && requirements[f].Required?)
                  && (f in disabled <==> f in requirements && requirements[f].Disabled?)
                  && ((exists p :: p in preferred && p.feature == f)
                      <==> f in requirements && requirements[f].Preferred?))
            && (forall p, q | 0 <= p < q < |granted| :: granted[p] < granted[q])
            && (forall p, q | 0 <= p < q < |preferred| :: preferred[p].feature < preferred[q].feature)
            && (forall p, q | 0 <= p < q < |disabled| :: disabled[p] < disabled[q])
  {
    KeyOrderListsEachOnce(RequiredSet(requirements), 0);
    KeyOrderListsEachOnce(PreferredSet(requirements), 0);
    KeyOrderListsEachOnce(DisabledSet(requirements), 0);
    AvailabilitiesFollowKeyOrder(requirements, supported, enabled, 0);
    var keys := KeyOrderFrom(PreferredSet(requirements), 0);
    var preferred := AvailabilitiesFrom(requirements, supported, enabled, 0);
    forall f: GpuCapabilityFeature
      ensures (exists p :: p in preferred && p.feature == f) <==> f in requirements && requirements[f].Preferred?
    {
      if f in requirements && requirements[f].Preferred? {
        assert f in keys;
        var k :| 0 <= k < |keys| && keys[k] == f;
        assert preferred[k] in preferred;
      }
      if exists p :: p in preferred && p.feature == f {
        var p :| p in preferred && p.feature == f;
        var k :| 0 <= k < |preferred| && preferred[k] == p;
        assert keys[k] == f;
      }
    }
  }

  // ---------------------------------------------------------------------------------------------
  // Admission of a candidate
  // ---------------------------------------------------------------------------------------------

  datatype Rejection =
    | TemporaryHostCompatibilityFailure
    | BackendFamilyForbidden
    | AdapterClassForbidden
    | SoftwareFallbackPolicyViolation
    | DeviceRequestProfileUnsupported
    | CapabilityRejected(error: AdmissionError)
    | UnsupportedFormatRole
    | AlignmentIncompatibility
    | BudgetTooWide
    | LimitBelowRequiredMinimum(kind: GpuLimitKind, required: u64, observed: u64)
    | NotPortable

  const CHECK_COUNT: nat := 11

  /** The checks in the order they are made. */
  predicate Check(i: nat, d: GpuContextDescriptor, adapter: GpuAdapterFacts, environment: Environment) {
    var enabled := RequestedEnabledFeatures(d.requirements, adapter.supported);
    if i == 0 then HostSatisfied(environment)
    else if i == 1 then AllowedBy(d.allowedBackends, adapter.backend)
    else if i == 2 then AllowedBy(d.allowedAdapterClasses, adapter.adapterClass)
    else if i == 3 then FallbackSatisfied(d.fallbackPolicy, adapter)
    else if i == 4 then adapter.deviceProfileSupported
    else if i == 5 then RequiredSupported(d.requirements, adapter.supported)
    else if i == 6 then RolesSupported(adapter, d.formatRoles)
    else if i == 7 then AlignmentsSatisfied(adapter.alignments, d.alignments)
    else if i == 8 then BudgetRepresentable(d.limits, enabled)
    else if i == 9 then LimitsReach(adapter.limits, d.limits, enabled)
    else PortabilitySatisfied(d, adapter)
  }

  function CheckFailedBy(rejection: Rejection): nat {
    match rejection
    case TemporaryHostCompatibilityFailure => 0
    case BackendFamilyForbidden => 1
    case AdapterClassForbidden => 2
    case SoftwareFallbackPolicyViolation => 3
    case DeviceRequestProfileUnsupported => 4
    case CapabilityRejected(_) => 5
    case UnsupportedFormatRole => 6
    case AlignmentIncompatibility => 7
    case BudgetTooWide => 8
    case LimitBelowRequiredMinimum(_, _, _) => 9
    case NotPortable => 10
  }

  /** The first `n` checks pass. */
  predicate PassesBelow(n: nat, d: GpuContextDescriptor, adapter: GpuAdapterFacts, environment: Environment) {
    forall i | 0 <= i < n :: Check(i, d, adapter, environment)
  }

  predicate Admits(d: GpuContextDescriptor, adapter: GpuAdapterFacts, environment: Environment) {
    PassesBelow(CHECK_COUNT, d, adapter, environment)
  }

  datatype GpuAdmissionContract = GpuAdmissionContract(
    capabilityAdmission: GpuCapabilityAdmission,
    enabledFeatures: set<GpuCapabilityFeature>,
    degradations: seq<GpuDegradationRecord>,
    formatRoles: set<(GpuTextureFormat, GpuFormatRole)>,
    selectedAlignments: GpuAlignmentFacts,
    workloadBudget: GpuWorkloadBudget,
    portability: GpuPortabilityEvidence)

  /** What a retained contract says about the request and the adapter it came from. */
  ghost predicate ContractFor(contract: GpuAdmissionContract, d: GpuContextDescriptor, adapter: GpuAdapterFacts) {
    var enabled := RequestedEnabledFeatures(d.requirements, adapter.supported);
    && contract.enabledFeatures == enabled == EnabledOf(contract.capabilityAdmission)
    && contract.capabilityAdmission == EvaluationOf(d.requirements, adapter.supported)
    && DegradedFeatures(contract.degradations) == KeyOrderFrom(PreferredSet(d.requirements) - adapter.supported, 0)
    && (forall r | r in contract.degradations ::
          r.feature in d.requirements && d.requirements[r.feature] == Preferred(r.feature, r.fallback))
    && contract.formatRoles == d.formatRoles
    && contract.selectedAlignments == adapter.alignments
    && BudgetFor(contract.workloadBudget, d, enabled)
    && contract.portability.class_ == ClassOf(adapter.backend, contract.portability.reasons)
    && (forall reason :: reason in contract.portability.reasons
          <==> IsReason(d, contract.capabilityAdmission, adapter.backend, reason))
  }

  /** The three lists of an evaluation of the requested features, each in key order. */
  function EvaluationOf(requirements: Entries, supported: set<GpuCapabilityFeature>): GpuCapabilityAdmission {
    GpuCapabilityAdmission(
      KeyOrderFrom(RequiredSet(requirements), 0),
      AvailabilitiesFrom(requirements, supported, RequestedEnabledFeatures(requirements, supported), 0),
      KeyOrderFrom(DisabledSet(requirements), 0))
  }

  lemma EnabledOfEvaluation(
      requirements: Entries, supported: set<GpuCapabilityFeature>, admission: GpuCapabilityAdmission)
    requires RequiredSupported(requirements, supported)
    requires admission == EvaluationOf(requirements, supported)
    ensures EnabledOf(admission) == RequestedEnabledFeatures(requirements, supported)
  {
    var enabled := RequestedEnabledFeatures(requirements, supported);
    EvaluationPartitionsRequirements(requirements, supported, enabled);
    AvailabilitiesFollowKeyOrder(requirements, supported, enabled, 0);
    forall p | p in admission.preferred
      ensures p.available == (p.feature in supported) && p.enabled == (p.feature in enabled)
    {
      var k :| 0 <= k < |admission.preferred| && admission.preferred[k] == p;
    }
    forall f: GpuCapabilityFeature
      ensures f in EnabledOf(admission) <==> f in enabled
    {
      if f in enabled && requirements[f].Preferred? {
        var p :| p in admission.preferred && p.feature == f;
        assert p.available && p.enabled;
      }
    }
  }

  /** The class decides portability exactly as the declared rules do. */
  lemma ClassDecidesPortability(
      d: GpuContextDescriptor, adapter: GpuAdapterFacts, admission: GpuCapabilityAdmission,
      reasons: set<GpuPortabilityReason>)
    requires EnabledOf(admission) == RequestedEnabledFeatures(d.requirements, adapter.supported)
    requires forall reason :: reason in reasons <==> IsReason(d, admission, adapter.backend, reason)
    ensures var class_ := ClassOf(adapter.backend, reasons);
            (class_ != Unsupported && (d.portabilityPolicy == RequirePortableBaseline ==> class_ == PortableBaseline))
            <==> PortabilitySatisfied(d, adapter)
  {
    if |d.allowedBackends| == 1 {
      var only :| only in d.allowedBackends;
      SingletonSet(d.allowedBackends, only);
      assert BackendSpecialization(only) in reasons;
    }
    forall f | f in EnabledOf(admission) && IsDeclaredExtension(f)
      ensures DeclaredExtension(f) in reasons
    {
    }
    forall role | role in d.formatRoles && IsDeclaredFormatRoleExtension(role.0, role.1)
      ensures DeclaredFormatRoleExtension(role.0, role.1) in reasons
    {
    }
    if exists r | r in reasons :: r.BackendSpecialization? {
      var r :| r in reasons && r.BackendSpecialization?;
      SingletonSet(d.allowedBackends, r.backend);
    }
  }

  /** A rejection names the first check that fails; a refused capability is the first missing requirement. */
  predicate FirstFailure(
      rejection: Rejection, d: GpuContextDescriptor, adapter: GpuAdapterFacts, environment: Environment)
  {
    && PassesBelow(CheckFailedBy(rejection), d, adapter, environment)
    && !Check(CheckFailedBy(rejection), d, adapter, environment)
    && (rejection.CapabilityRejected? ==> FirstMissing(rejection.error, d.requirements, adapter.supported))
  }

  predicate Missing(requirements: Entries, supported: set<GpuCapabilityFeature>, f: GpuCapabilityFeature) {
    f in requirements && requirements[f].Required? && f !in supported
  }

  /** The error names the first required feature, in key order, that is not supported. */
  predicate FirstMissing(error: AdmissionError, requirements: Entries, supported: set<GpuCapabilityFeature>) {
    && error.cause == RequiredUnavailable
    && Missing(requirements, supported, error.feature)
    && forall f | f in requirements && Missing(requirements, supported, f) :: error.feature <= f
  }

  /** Host, backend, class, fallback and device profile: the checks that read no feature. */
  method CheckSelection(d: GpuContextDescriptor, adapter: GpuAdapterFacts, environment: Environment)
    returns (rejection: Option<Rejection>)
    ensures rejection.None? ==> PassesBelow(5, d, adapter, environment)
    ensures rejection.Some? ==> FirstFailure(rejection.value, d, adapter, environment)
  {
    if !HostSatisfied(environment) {
      return Some(TemporaryHostCompatibilityFailure);
    }
    if d.allowedBackends != {} && adapter.backend !in d.allowedBackends {
      return Some(BackendFamilyForbidden);
    }
    if d.allowedAdapterClasses != {} && adapter.adapterClass !in d.allowedAdapterClasses {
      return Some(AdapterClassForbidden);
    }
    if !FallbackSatisfied(d.fallbackPolicy, adapter) {
      return Some(SoftwareFallbackPolicyViolation);
    }
    if !adapter.deviceProfileSupported {
      return Some(DeviceRequestProfileUnsupported);
    }
    return None;
  }

  /** Evaluating exactly the requested features that the adapter supports. */
  method EvaluateRequested(requirements: Entries, supported: set<GpuCapabilityFeature>)
    returns (r: Result<GpuCapabilityAdmission, AdmissionError>)
    ensures r.Ok? <==> RequiredSupported(requirements, supported)
    ensures r.Ok? ==>
              && EnabledOf(r.value) == RequestedEnabledFeatures(requirements, supported)
              && r.value == EvaluationOf(requirements, supported)
    ensures r.Err? ==> FirstMissing(r.error, requirements, supported)
  {
    var enabled := RequestedEnabledFeatures(requirements, supported);
    r := Evaluate(requirements, supported, enabled);
    forall f: GpuCapabilityFeature {
      RequestedEvaluationFailsOnlyAsUnavailable(requirements, supported, f);
    }
    if r.Ok? {
      EnabledOfEvaluation(requirements, supported, r.value);
    }
  }

  /** Format roles, alignments, then the budget against the adapter's limits. */
  method CheckResources(d: GpuContextDescriptor, adapter: GpuAdapterFacts, environment: Environment)
    returns (r: Result<GpuWorkloadBudget, Rejection>)
    requires PassesBelow(6, d, adapter, environment)
    ensures r.Ok? ==>
              && PassesBelow(10, d, adapter, environment)
              && BudgetFor(r.value, d, RequestedEnabledFeatures(d.requirements, adapter.supported))
    ensures r.Err? ==> FirstFailure(r.error, d, adapter, environment)
  {
    var rolesFit := CheckRoles(adapter, d.formatRoles);
    if !rolesFit {
      return Err(UnsupportedFormatRole);
    }
    var alignmentsFit := CheckAlignments(adapter.alignments, d.alignments);
    if !alignmentsFit {
      return Err(AlignmentIncompatibility);
    }
    var budget := CheckBudget(
      d.limits, d.alignments, RequestedEnabledFeatures(d.requirements, adapter.supported), adapter.limits);
    return budget;
  }

  /** The effective budget, unless it is too wide to hold or the observed limits fall short of it. */
  method CheckBudget(
      limits: Limits, alignments: Alignments, enabled: set<GpuCapabilityFeature>, observed: GpuLimits)
      returns (r: Result<GpuWorkloadBudget, Rejection>)
    ensures r.Ok? ==>
              && BudgetRepresentable(limits, enabled) && LimitsReach(observed, limits, enabled)
              && r.value.alignmentMaximums == alignments
              && forall k: GpuLimitKind :: LimitValue(r.value.limits, k) == EffectiveValue(limits, enabled, k)
    ensures r.Err? ==>
              || (r.error == BudgetTooWide && !BudgetRepresentable(limits, enabled))
              || (r.error.LimitBelowRequiredMinimum?
                  && BudgetRepresentable(limits, enabled) && !LimitsReach(observed, limits, enabled)
                  && r.error.required == EffectiveValue(limits, enabled, r.error.kind)
                  && r.error.observed == LimitValue(observed, r.error.kind) < r.error.required
                  && forall k: GpuLimitKind | k < r.error.kind ::
                       LimitValue(observed, k) >= EffectiveValue(limits, enabled, k))
  {
    BudgetReadsBack(limits, alignments, enabled);
    var budget := EffectiveWorkloadBudget(limits, alignments, enabled);
    if budget.None? {
      return Err(BudgetTooWide);
    }
    var below := FirstLimitBelow(observed, budget.value.limits);
    LimitsReachByBudget(observed, limits, enabled, budget.value.limits);
    if below.Some? {
      return Err(LimitBelowRequiredMinimum(
                   below.value, LimitValue(budget.value.limits, below.value), LimitValue(observed, below.value)));
    }
    return Ok(budget.value);
  }

  ghost predicate BudgetFor(budget: GpuWorkloadBudget, d: GpuContextDescriptor, enabled: set<GpuCapabilityFeature>) {
    && budget.alignmentMaximums == d.alignments
    && forall k: GpuLimitKind :: LimitValue(budget.limits, k) == EffectiveValue(d.limits, enabled, k)
  }

  lemma LimitsReachByBudget(
      observed: GpuLimits, limits: Limits, enabled: set<GpuCapabilityFeature>, budget: GpuLimits)
    requires forall k: GpuLimitKind :: LimitValue(budget, k) == EffectiveValue(limits, enabled, k)
    ensures LimitsReach(observed, limits, enabled)
            <==> forall k: GpuLimitKind :: LimitValue(observed, k) >= LimitValue(budget, k)
  {
  }

  /** The class the evidence ends in, against the request's portability policy. */
  method CheckPortability(
      d: GpuContextDescriptor, adapter: GpuAdapterFacts, admission: GpuCapabilityAdmission)
      returns (r: Result<GpuPortabilityEvidence, Rejection>)
    requires EnabledOf(admission) == RequestedEnabledFeatures(d.requirements, adapter.supported)
    ensures r.Ok? <==> PortabilitySatisfied(d, adapter)
    ensures r.Ok? ==>
              && r.value.class_ == ClassOf(adapter.backend, r.value.reasons)
              && forall reason :: reason in r.value.reasons <==> IsReason(d, admission, adapter.backend, reason)
    ensures r.Err? ==> r.error == NotPortable
  {
    var portability := DerivePortability(d, admission, adapter.backend);
    ClassDecidesPortability(d, adapter, admission, portability.reasons);
    if portability.class_ == Unsupported {
      return Err(NotPortable);
    }
    if d.portabilityPolicy == RequirePortableBaseline && portability.class_ != PortableBaseline {
      return Err(NotPortable);
    }
    return Ok(portability);
  }

  method EvaluateValidatedCandidate(d: GpuContextDescriptor, adapter: GpuAdapterFacts, environment: Environment)
    returns (r: Result<GpuAdmissionContract, Rejection>)
    ensures r.Ok? <==> Admits(d, adapter, environment)
    ensures r.Ok? ==> ContractFor(r.value, d, adapter)
    ensures r.Err? ==> FirstFailure(r.error, d, adapter, environment)
  {
    var refused := CheckSelection(d, adapter, environment);
    if refused.Some? {
      return Err(refused.value);
    }
    var evaluated := EvaluateRequested(d.requirements, adapter.supported);
    if evaluated.Err? {
      assert !Check(5, d, adapter, environment);
      return Err(CapabilityRejected(evaluated.error));
    }
    var admission := evaluated.value;
    DegradationsAreMissingPreferences(d.requirements, adapter.supported, 0);
    DegradationsKeepFallbacks(
      d.requirements, adapter.supported, RequestedEnabledFeatures(d.requirements, adapter.supported), 0);
    var degradations := Degradations(admission.preferred);

    var budget := CheckResources(d, adapter, environment);
    if budget.Err? {
      return Err(budget.error);
    }
    var portability := CheckPortability(d, adapter, admission);
    if portability.Err? {
      assert !Check(10, d, adapter, environment);
      return Err(portability.error);
    }
    return Ok(GpuAdmissionContract(
                admission, RequestedEnabledFeatures(d.requirements, adapter.supported), degradations, d.formatRoles,
                adapter.alignments, budget.value, portability.value));
  }

  method CheckRoles(adapter: GpuAdapterFacts, required: set<(GpuTextureFormat, GpuFormatRole)>) returns (fits: bool)
    ensures fits <==> RolesSupported(adapter, required)
  {
    var roles := required;
    while roles != {}
      invariant roles <= required
      invariant forall role | role in required - roles :: RoleSupported(adapter, role.0, role.1)
      decreases |roles|
    {
      var role :| role in roles;
      if !RoleSupported(adapter, role.0, role.1) {
        return false;
      }
      roles := roles - {role};
    }
    return true;
  }

  method CheckAlignments(facts: GpuAlignmentFacts, caps: Alignments) returns (fits: bool)
    ensures fits <==> AlignmentsSatisfied(facts, caps)
  {
    for kind := 0 to ALIGNMENT_COUNT
      invariant forall k | k in caps && k < kind :: AlignmentWithin(facts, k, caps[k])
    {
      if kind in caps && !AlignmentWithin(facts, kind, caps[kind]) {
        return false;
      }
    }
    return true;
  }

  method FirstLimitBelow(observed: GpuLimits, required: GpuLimits) returns (kind: Option<GpuLimitKind>)
    ensures kind.None? <==> forall k: GpuLimitKind :: LimitValue(observed, k) >= LimitValue(required, k)
    ensures kind.Some? ==>
              && LimitValue(observed, kind.value) < LimitValue(required, kind.value)
              && forall k: GpuLimitKind | k < kind.value :: LimitValue(observed, k) >= LimitValue(required, k)
  {
    for k := 0 to LIMIT_COUNT
      invariant forall j: GpuLimitKind | j < k :: LimitValue(observed, j) >= LimitValue(required, j)
    {
      if LimitValue(observed, k) < LimitValue(required, k) {
        return Some(k);
      }
    }
    return None;
  }

  // ---------------------------------------------------------------------------------------------
  // The created device
  // ---------------------------------------------------------------------------------------------

  datatype DeviceRejection = DeviceLimitBelow(kind: GpuLimitKind) | DeviceAlignment(alignment: GpuAlignmentKind)

  predicate DeviceLimitsReach(contract: GpuAdmissionContract, limits: GpuLimits) {
    forall k: GpuLimitKind | 0 <= k < 20 :: LimitValue(limits, k) >= LimitValue(contract.workloadBudget.limits, k)
  }

  predicate DeviceAlignmentMatches(contract: GpuAdmissionContract, alignments: GpuAlignmentFacts, k: GpuAlignmentKind) {
    && AlignmentValue(alignments, k) == AlignmentValue(contract.selectedAlignments, k)
    && (k in contract.workloadBudget.alignmentMaximums ==>
          AlignmentWithin(alignments, k, contract.workloadBudget.alignmentMaximums[k]))
  }

  method AdmittedDeviceFacts(contract: GpuAdmissionContract, limits: GpuLimits, alignments: GpuAlignmentFacts)
    returns (rejection: Option<DeviceRejection>)
    ensures rejection.None? <==>
              && DeviceLimitsReach(contract, limits)
              && alignments == contract.selectedAlignments
              && AlignmentsSatisfied(alignments, contract.workloadBudget.alignmentMaximums)
    ensures rejection.Some? && rejection.value.DeviceAlignment? ==>
              && DeviceLimitsReach(contract, limits)
              && !DeviceAlignmentMatches(contract, alignments, rejection.value.alignment)
              && forall k: GpuAlignmentKind | k < rejection.value.alignment ::
                   DeviceAlignmentMatches(contract, alignments, k)
    ensures rejection.Some? && rejection.value.DeviceLimitBelow? ==>
              var kind := rejection.value.kind;
              && LimitValue(limits, kind) < LimitValue(contract.workloadBudget.limits, kind)
              && forall k: GpuLimitKind | k < kind ::
                   LimitValue(limits, k) >= LimitValue(contract.workloadBudget.limits, k)
  {
    var below := FirstLimitBelow(limits, contract.workloadBudget.limits);
    if below.Some? {
      return Some(DeviceLimitBelow(below.value));
    }
    for k := 0 to ALIGNMENT_COUNT
      invariant forall j: GpuAlignmentKind | j < k :: DeviceAlignmentMatches(contract, alignments, j)
    {
      var actual := AlignmentValue(alignments, k);
      if AlignmentValue(contract.selectedAlignments, k) != actual {
        return Some(DeviceAlignment(k));
      }
      if k in contract.workloadBudget.alignmentMaximums {
        if actual.None? || actual.value > contract.workloadBudget.alignmentMaximums[k] {
          return Some(DeviceAlignment(k));
        }
      }
    }
    assert forall k: GpuAlignmentKind :: DeviceAlignmentMatches(contract, alignments, k);
    assert DeviceAlignmentMatches(contract, alignments, 0) && DeviceAlignmentMatches(contract, alignments, 1)
        && DeviceAlignmentMatches(contract, alignments, 2) && DeviceAlignmentMatches(contract, alignments, 3)
        && DeviceAlignmentMatches(contract, alignments, 4);
    return None;
  }

  /** An admitted adapter's own limits and alignments pass the device check of its contract. */
  lemma AdmittedAdapterPassesDeviceCheck(
      d: GpuContextDescriptor, adapter: GpuAdapterFacts, environment: Environment, contract: GpuAdmissionContract)
    requires Admits(d, adapter, environment) && ContractFor(contract, d, adapter)
    ensures DeviceLimitsReach(contract, adapter.limits)
    ensures AlignmentsSatisfied(adapter.alignments, contract.workloadBudget.alignmentMaximums)
    ensures forall k: GpuAlignmentKind :: DeviceAlignmentMatches(contract, adapter.alignments, k)
  {
    assert Check(9, d, adapter, environment);
    assert Check(7, d, adapter, environment);
  }
}
