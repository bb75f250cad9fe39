/** What admission asks of an adapter, written out on the fields of the request and the adapter's facts. */
module AdmissionRules {
  import opened Common
  import opened TextureFormat
  import opened Capability
  import opened Preference
  import opened Descriptor
  import opened Admission

  // ---------------------------------------------------------------------------------------------
  // Selection and features
  // ---------------------------------------------------------------------------------------------

  predicate HostRule(environment: Environment) {
    environment.hostCompatibilityRequired ==> environment.hostCompatible
  }

  /** An empty list of backends or classes leaves the choice open. */
  predicate ListRule(d: GpuContextDescriptor, adapter: GpuAdapterFacts) {
    && (d.allowedBackends == {} || adapter.backend in d.allowedBackends)
    && (d.allowedAdapterClasses == {} || adapter.adapterClass in d.allowedAdapterClasses)
  }

  /** A required fallback has to be confirmed; a forbidden one has to be confirmed absent, software included. */
  predicate FallbackRule(policy: GpuSoftwareFallbackPolicy, adapter: GpuAdapterFacts) {
    && (policy == RequireFallback ==> adapter.fallback == ConfirmedFallback)
    && (policy == ForbidFallback ==> adapter.fallback == ConfirmedNotFallback && adapter.software != Software)
  }

  predicate FeatureRule(d: GpuContextDescriptor, adapter: GpuAdapterFacts) {
    forall f | f in d.requirements && d.requirements[f] == Required(f) :: f in adapter.supported
  }

  /** A feature takes effect when it is asked for, with either strength, and the adapter has it. */
  predicate TakesEffect(d: GpuContextDescriptor, adapter: GpuAdapterFacts, f: GpuCapabilityFeature) {
    f in d.requirements && d.requirements[f] != Disabled(f) && f in adapter.supported
  }

  // ---------------------------------------------------------------------------------------------
  // Formats and alignments
  // ---------------------------------------------------------------------------------------------

  /** What each role needs of a format; blending needs a color attachment to blend into. */
  predicate Offers(facts: FormatFacts, role: GpuFormatRole) {
    && (role == SampledRole ==> facts.sampled)
    && (role == Filterable ==> facts.filterable)
    && (role == StorageReadRole ==> facts.storageRead)
    && (role == StorageWriteRole ==> facts.storageWrite)
    && (role == ColorAttachmentRole || role == Blendable ==> facts.colorAttachment)
    && (role == Blendable ==> facts.blendable)
    && (role == DepthStencilRole ==> facts.depthStencil)
    && (role == CopySourceRole ==> facts.copySource)
    && (role == CopyDestinationRole ==> facts.copyDestination)
  }

  predicate FormatRule(d: GpuContextDescriptor, adapter: GpuAdapterFacts) {
    forall wanted | wanted in d.formatRoles ::
      wanted.0 in adapter.formats && Offers(adapter.formats[wanted.0], wanted.1)
  }

  /** The alignments in the order of their kinds. */
  function AlignmentList(facts: GpuAlignmentFacts): seq<Option<u64>> {
    [facts.uniformDynamicOffset, facts.storageDynamicOffset, facts.copyBufferOffset, facts.bytesPerRow,
     facts.queryResolveDestination]
  }

  /** An unknown alignment never meets a cap. */
  predicate AlignmentRule(d: GpuContextDescriptor, adapter: GpuAdapterFacts) {
    forall k: GpuAlignmentKind | k in d.alignments ::
      match AlignmentList(adapter.alignments)[k]
      case Some(known) => known <= d.alignments[k]
      case None => false
  }

  // ---------------------------------------------------------------------------------------------
  // Limits
  // ---------------------------------------------------------------------------------------------

  /** The limits in the order of their kinds. */
  function LimitList(limits: GpuLimits): (list: seq<nat>)
    ensures |list| == LIMIT_COUNT
  {
    [limits.maxUniformBufferBindingSize, limits.maxStorageBufferBindingSize, limits.maxColorAttachments,
     limits.maxVertexBuffers, limits.maxBindingsPerGroup, limits.maxTextureDimension2d, limits.maxBindGroups,
     limits.maxBindGroupsPlusVertexBuffers, limits.maxDynamicUniformBuffersPerPipelineLayout,
     limits.maxDynamicStorageBuffersPerPipelineLayout, limits.maxComputeWorkgroupsPerDimension, limits.maxBufferSize,
     limits.maxTextureDimension1d, limits.maxTextureDimension3d, limits.maxTextureArrayLayers,
     limits.maxVertexAttributes, limits.maxVertexBufferArrayStride, limits.maxBindingArrayElementsPerShaderStage,
     limits.maxBindingArraySamplerElementsPerShaderStage, limits.maxMultiviewViewCount]
  }

  /** The baseline every request gets for the kinds no feature widens. */
  const FIXED_BASELINE: seq<nat> :=
    [65_536, 134_217_728, 1, 8, 16, 8_192, 4, 24, 8, 4, 65_535, 268_435_456, 8_192, 2_048, 256, 16, 2_048]

  /** Binding arrays and multiview start from nothing, unless a feature that uses them takes effect. */
  function BaselineOf(d: GpuContextDescriptor, adapter: GpuAdapterFacts, k: GpuLimitKind): nat {
    var textures, buffers := TakesEffect(d, adapter, TextureBindingArray), TakesEffect(d, adapter, BufferBindingArray);
    if k < 17 then FIXED_BASELINE[k]
    else if k == 17 then (if textures || buffers then 500_000 else 0)
    else if k == 18 then (if textures then 1_000 else 0)
    else if TakesEffect(d, adapter, Multiview) then 2
    else 0
  }

  /** A value serves a kind when it reaches the cap, or the baseline and the declared minimum. */
  predicate Serves(d: GpuContextDescriptor, adapter: GpuAdapterFacts, k: GpuLimitKind, value: nat) {
    || (k in d.limits && d.limits[k].maximum.Some? && d.limits[k].maximum.value <= value)
    || (&& (k in d.limits && d.limits[k].minimum.Some? ==> d.limits[k].minimum.value <= value)
        && BaselineOf(d, adapter, k) <= value)
  }

  predicate LimitRule(d: GpuContextDescriptor, adapter: GpuAdapterFacts) {
    forall k: GpuLimitKind | 0 <= k < 20 :: Serves(d, adapter, k, LimitList(adapter.limits)[k])
  }

  lemma LimitListReadsLimits(limits: GpuLimits, k: GpuLimitKind)
    ensures LimitList(limits)[k] == LimitValue(limits, k)
  {
  }

  lemma BaselineRules(d: GpuContextDescriptor, adapter: GpuAdapterFacts, k: GpuLimitKind)
    ensures BaselineOf(d, adapter, k)
         == LimitValue(BaselineLimits(RequestedEnabledFeatures(d.requirements, adapter.supported)), k)
  {
    var enabled := RequestedEnabledFeatures(d.requirements, adapter.supported);
    assert forall f: GpuCapabilityFeature :: f in enabled <==> TakesEffect(d, adapter, f);
  }

  /** The effective value is the least one that serves. */
  lemma EffectiveValueIsLeastServing(d: GpuContextDescriptor, adapter: GpuAdapterFacts, k: GpuLimitKind, value: u64)
    ensures value >= EffectiveValue(d.limits, RequestedEnabledFeatures(d.requirements, adapter.supported), k)
            <==> Serves(d, adapter, k, value)
  {
    BaselineRules(d, adapter, k);
  }

  /**
   * An adapter that serves every kind never makes the budget too wide: what is demanded of a narrow
   * kind is at most what the adapter reports for it.
   */
  lemma ServedBudgetIsNarrow(limits: Limits, enabled: set<GpuCapabilityFeature>, observed: GpuLimits)
    requires LimitsReach(observed, limits, enabled)
    ensures BudgetRepresentable(limits, enabled)
  {
    forall k: GpuLimitKind | 0 <= k < 20 && !Wide(k)
      ensures EffectiveValue(limits, enabled, k) <= U32_MAX
    {
      assert LimitValue(observed, k) <= U32_MAX;
      assert LimitValue(observed, k) >= EffectiveValue(limits, enabled, k);
    }
  }

  // ---------------------------------------------------------------------------------------------
  // Portability
  // ---------------------------------------------------------------------------------------------

  /** The features every portable adapter has; all others are extensions. */
  const PORTABLE_FEATURES: set<GpuCapabilityFeature> :=
    {Compute, RenderPipeline, Copy, DepthAttachment, DepthBiasClamp, DepthClipControl, ShaderF16, Presentation}

  /** The roles that are an extension for one format only, by format. */
  predicate PortableRole(format: GpuTextureFormat, role: GpuFormatRole) {
    match format
    case Depth32FloatStencil8 => false
    case Rg11b10Ufloat => role != ColorAttachmentRole
    case R32Float => role !in {Filterable, Blendable}
    case Rg32Float => role !in {Filterable, Blendable}
    case Rgba32Float => role !in {Filterable, Blendable}
    case Bgra8Unorm => role !in {StorageReadRole, StorageWriteRole}
    case TableFormat(_, _) => true
  }

  lemma ExtensionTablesAreExact(f: GpuCapabilityFeature, format: GpuTextureFormat, role: GpuFormatRole)
    ensures IsDeclaredExtension(f) <==> f !in PORTABLE_FEATURES
    ensures IsDeclaredFormatRoleExtension(format, role) <==> !PortableRole(format, role)
  {
  }

  /** Nothing in effect and no wanted role is an extension. */
  ghost predicate StaysPortable(d: GpuContextDescriptor, adapter: GpuAdapterFacts) {
    && (forall f: GpuCapabilityFeature | TakesEffect(d, adapter, f) :: f in PORTABLE_FEATURES)
    && (forall wanted | wanted in d.formatRoles :: PortableRole(wanted.0, wanted.1))
  }

  /** A request that lists a single backend is specialized to it. */
  ghost predicate PortabilityRule(d: GpuContextDescriptor, adapter: GpuAdapterFacts) {
    && adapter.backend != UnknownBackend
    && (d.portabilityPolicy == RequirePortableBaseline ==>
          (forall only :: d.allowedBackends != {only}) && StaysPortable(d, adapter))
  }

  lemma SpecializedIffSingle(backends: set<GpuBackendFamily>)
    ensures |backends| == 1 <==> exists only :: backends == {only}
  {
    if |backends| == 1 {
      var only :| only in backends;
      SingletonSet(backends, only);
    }
  }

  lemma StaysPortableIff(d: GpuContextDescriptor, adapter: GpuAdapterFacts)
    ensures StaysPortable(d, adapter) <==>
              && (forall f | f in RequestedEnabledFeatures(d.requirements, adapter.supported) ::
                    !IsDeclaredExtension(f))
              && (forall role | role in d.formatRoles :: !IsDeclaredFormatRoleExtension(role.0, role.1))
  {
    var enabled := RequestedEnabledFeatures(d.requirements, adapter.supported);
    forall f: GpuCapabilityFeature
      ensures IsDeclaredExtension(f) <==> f !in PORTABLE_FEATURES
      ensures f in enabled <==> TakesEffect(d, adapter, f)
    {
      ExtensionTablesAreExact(f, R32Float, SampledRole);
    }
    forall format, role
      ensures IsDeclaredFormatRoleExtension(format, role) <==> !PortableRole(format, role)
    {
      ExtensionTablesAreExact(0, format, role);
    }
  }

  // ---------------------------------------------------------------------------------------------
  // Admission
  // ---------------------------------------------------------------------------------------------

  /** What each check asks, with the width check in terms of the values that serve. */
  lemma CheckRules(d: GpuContextDescriptor, adapter: GpuAdapterFacts, environment: Environment)
    ensures Check(0, d, adapter, environment) <==> HostRule(environment)
    ensures Check(1, d, adapter, environment) && Check(2, d, adapter, environment) <==> ListRule(d, adapter)
    ensures Check(3, d, adapter, environment) <==> FallbackRule(d.fallbackPolicy, adapter)
    ensures Check(4, d, adapter, environment) <==> adapter.deviceProfileSupported
    ensures Check(5, d, adapter, environment) <==> FeatureRule(d, adapter)
    ensures Check(6, d, adapter, environment) <==> FormatRule(d, adapter)
    ensures Check(7, d, adapter, environment) <==> AlignmentRule(d, adapter)
    ensures Check(9, d, adapter, environment) <==> LimitRule(d, adapter)
    ensures Check(9, d, adapter, environment) ==> Check(8, d, adapter, environment)
    ensures Check(10, d, adapter, environment) <==> PortabilityRule(d, adapter)
  {
    LimitCheckRules(d, adapter);
    PortabilityCheckRules(d, adapter);
    AlignmentCheckRules(d, adapter);
    FormatCheckRules(d, adapter);
  }

  lemma FormatCheckRules(d: GpuContextDescriptor, adapter: GpuAdapterFacts)
    ensures RolesSupported(adapter, d.formatRoles) <==> FormatRule(d, adapter)
  {
    forall wanted | wanted in d.formatRoles
      ensures RoleSupported(adapter, wanted.0, wanted.1)
              <==> wanted.0 in adapter.formats && Offers(adapter.formats[wanted.0], wanted.1)
    {
      RoleTableIsExact(adapter, wanted.0, wanted.1);
    }
  }

  lemma RoleTableIsExact(adapter: GpuAdapterFacts, format: GpuTextureFormat, role: GpuFormatRole)
    ensures RoleSupported(adapter, format, role)
            <==> format in adapter.formats && Offers(adapter.formats[format], role)
  {
  }

  lemma AlignmentCheckRules(d: GpuContextDescriptor, adapter: GpuAdapterFacts)
    ensures AlignmentsSatisfied(adapter.alignments, d.alignments) <==> AlignmentRule(d, adapter)
  {
    forall k: GpuAlignmentKind
      ensures AlignmentValue(adapter.alignments, k) == AlignmentList(adapter.alignments)[k]
    {
    }
  }

  lemma LimitCheckRules(d: GpuContextDescriptor, adapter: GpuAdapterFacts)
    ensures var enabled := RequestedEnabledFeatures(d.requirements, adapter.supported);
            && (LimitsReach(adapter.limits, d.limits, enabled) <==> LimitRule(d, adapter))
            && (LimitsReach(adapter.limits, d.limits, enabled) ==> BudgetRepresentable(d.limits, enabled))
  {
    var enabled := RequestedEnabledFeatures(d.requirements, adapter.supported);
    forall k: GpuLimitKind
      ensures LimitValue(adapter.limits, k) >= EffectiveValue(d.limits, enabled, k)
              <==> Serves(d, adapter, k, LimitList(adapter.limits)[k])
    {
      LimitListReadsLimits(adapter.limits, k);
      EffectiveValueIsLeastServing(d, adapter, k, LimitValue(adapter.limits, k));
    }
    if LimitsReach(adapter.limits, d.limits, enabled) {
      ServedBudgetIsNarrow(d.limits, enabled, adapter.limits);
    }
  }

  lemma PortabilityCheckRules(d: GpuContextDescriptor, adapter: GpuAdapterFacts)
    ensures PortabilitySatisfied(d, adapter) <==> PortabilityRule(d, adapter)
  {
    SpecializedIffSingle(d.allowedBackends);
    StaysPortableIff(d, adapter);
  }

  /** The rules apart from the fallback policy. */
  ghost predicate OtherRules(d: GpuContextDescriptor, adapter: GpuAdapterFacts, environment: Environment) {
    && HostRule(environment)
    && ListRule(d, adapter)
    && adapter.deviceProfileSupported
    && FeatureRule(d, adapter)
    && FormatRule(d, adapter)
    && AlignmentRule(d, adapter)
    && LimitRule(d, adapter)
    && PortabilityRule(d, adapter)
  }

  /**
   * A candidate is admitted iff it meets the rules. The width of the budget is not one of them: an
   * adapter that serves the limits never fails it.
   */
  lemma AdmitsIff(d: GpuContextDescriptor, adapter: GpuAdapterFacts, environment: Environment)
    ensures Admits(d, adapter, environment)
            <==> OtherRules(d, adapter, environment) && FallbackRule(d.fallbackPolicy, adapter)
  {
    CheckRules(d, adapter, environment);
    if OtherRules(d, adapter, environment) && FallbackRule(d.fallbackPolicy, adapter) {
      forall i | 0 <= i < CHECK_COUNT
        ensures Check(i, d, adapter, environment)
      {
      }
    }
  }

  /** Under any policy the admitted adapters are those admitted without one that show the facts it asks for. */
  lemma FallbackPolicyOnlyFilters(
      d: GpuContextDescriptor, adapter: GpuAdapterFacts, environment: Environment, policy: GpuSoftwareFallbackPolicy)
    ensures var restricted := d.(fallbackPolicy := policy);
            Admits(restricted, adapter, environment) <==>
              && Admits(d.(fallbackPolicy := AllowFallback), adapter, environment)
              && (policy == RequireFallback ==> adapter.fallback == ConfirmedFallback)
              && (policy == ForbidFallback ==> adapter.fallback == ConfirmedNotFallback && adapter.software != Software)
  {
    var restricted, open := d.(fallbackPolicy := policy), d.(fallbackPolicy := AllowFallback);
    AdmitsIff(restricted, adapter, environment);
    AdmitsIff(open, adapter, environment);
    SameOtherRules(restricted, open, adapter, environment);
  }

  lemma SameOtherRules(
      d: GpuContextDescriptor, e: GpuContextDescriptor, adapter: GpuAdapterFacts, environment: Environment)
    requires d.(fallbackPolicy := AllowFallback) == e.(fallbackPolicy := AllowFallback)
    ensures OtherRules(d, adapter, environment) <==> OtherRules(e, adapter, environment)
  {
    forall f: GpuCapabilityFeature
      ensures TakesEffect(d, adapter, f) <==> TakesEffect(e, adapter, f)
    {
    }
    forall k: GpuLimitKind, value
      ensures Serves(d, adapter, k, value) <==> Serves(e, adapter, k, value)
    {
      assert BaselineOf(d, adapter, k) == BaselineOf(e, adapter, k);
    }
  }

  // ---------------------------------------------------------------------------------------------
  // The contract of an admitted candidate
  // ---------------------------------------------------------------------------------------------

  /** A budget holds, kind by kind, the least value that serves the request. */
  ghost predicate LeastServing(d: GpuContextDescriptor, adapter: GpuAdapterFacts, budget: GpuLimits) {
    forall k: GpuLimitKind, value: u64 :: value >= LimitList(budget)[k] <==> Serves(d, adapter, k, value)
  }

  /** The contract keeps what was asked for, what takes effect and the least budget that serves. */
  lemma ContractRules(d: GpuContextDescriptor, adapter: GpuAdapterFacts, contract: GpuAdmissionContract)
    requires ContractFor(contract, d, adapter)
    ensures forall f: GpuCapabilityFeature :: f in contract.enabledFeatures <==> TakesEffect(d, adapter, f)
    ensures forall f: GpuCapabilityFeature ::
              (exists r :: r in contract.degradations && r.feature == f)
              <==> f in d.requirements && d.requirements[f].Preferred? && f !in adapter.supported
    ensures forall r | r in contract.degradations ::
              r.feature in d.requirements && d.requirements[r.feature] == Preferred(r.feature, r.fallback)
    ensures forall p, q | 0 <= p < q < |contract.degradations| ::
              contract.degradations[p].feature < contract.degradations[q].feature
    ensures contract.formatRoles == d.formatRoles && contract.selectedAlignments == adapter.alignments
    ensures contract.workloadBudget.alignmentMaximums == d.alignments
    ensures LeastServing(d, adapter, contract.workloadBudget.limits)
  {
    DegradationRules(d, adapter, contract.degradations);
    forall k: GpuLimitKind, value: u64
      ensures value >= LimitList(contract.workloadBudget.limits)[k] <==> Serves(d, adapter, k, value)
    {
      LimitListReadsLimits(contract.workloadBudget.limits, k);
      EffectiveValueIsLeastServing(d, adapter, k, value);
    }
  }

  lemma DegradationRules(d: GpuContextDescriptor, adapter: GpuAdapterFacts, records: seq<GpuDegradationRecord>)
    requires DegradedFeatures(records) == KeyOrderFrom(PreferredSet(d.requirements) - adapter.supported, 0)
    ensures forall f: GpuCapabilityFeature ::
              (exists r :: r in records && r.feature == f)
              <==> f in d.requirements && d.requirements[f].Preferred? && f !in adapter.supported
    ensures forall p, q | 0 <= p < q < |records| :: records[p].feature < records[q].feature
  {
    var missing := PreferredSet(d.requirements) - adapter.supported;
    var keys := KeyOrderFrom(missing, 0);
    KeyOrderListsEachOnce(missing, 0);
    assert forall f: GpuCapabilityFeature ::
        f in keys <==> f in d.requirements && d.requirements[f].Preferred? && f !in adapter.supported;
    assert forall p | 0 <= p < |records| :: DegradedFeatures(records)[p] == records[p].feature;
    forall f: GpuCapabilityFeature
      ensures (exists r :: r in records && r.feature == f) <==> f in keys
    {
      if f in keys {
        var p :| 0 <= p < |keys| && keys[p] == f;
        assert records[p] in records;
      }
      if exists r :: r in records && r.feature == f {
        var r :| r in records && r.feature == f;
        var p :| 0 <= p < |records| && records[p] == r;
        assert keys[p] == f;
      }
    }
  }

  /** Of any evaluation, a preference that lacks either flag is degraded, and one with both takes effect. */
  lemma {:induction false} UnmetPreferencesDegrade(admission: GpuCapabilityAdmission, r: GpuDegradationRecord)
    ensures r in Degradations(admission.preferred) <==>
              exists p :: p in admission.preferred && !(p.available && p.enabled)
                          && r == GpuDegradationRecord(p.feature, p.fallback)
    ensures forall f :: f in EnabledOf(admission) <==>
              || f in admission.grantedRequired
              || exists p :: p in admission.preferred && p.available && p.enabled && p.feature == f
    decreases |admission.preferred|
  {
    if admission.preferred != [] {
      var first, rest := admission.preferred[0], admission.preferred[1..];
      UnmetPreferencesDegrade(admission.(preferred := rest), r);
      assert admission.preferred == [first] + rest;
      assert forall p :: p in admission.preferred <==> p == first || p in rest;
    }
  }

  /** The evidence of an admitted candidate: its reasons one by one, and the class they leave. */
  lemma EvidenceRules(
      d: GpuContextDescriptor, adapter: GpuAdapterFacts, environment: Environment, contract: GpuAdmissionContract)
    requires Admits(d, adapter, environment) && ContractFor(contract, d, adapter)
    ensures forall reason :: reason in contract.portability.reasons <==>
              match reason
              case DeclaredExtension(f) => TakesEffect(d, adapter, f) && f !in PORTABLE_FEATURES
              case DeclaredFormatRoleExtension(format, role) =>
                (format, role) in d.formatRoles && !PortableRole(format, role)
              case PreferredRequirementDegraded(f) =>
                f in d.requirements && d.requirements[f].Preferred? && f !in adapter.supported
              case BackendSpecialization(only) => d.allowedBackends == {only}
              case UnknownBackendReason => false
    ensures contract.portability.class_ ==
            if exists only :: d.allowedBackends == {only} then BackendSpecialized
            else if !StaysPortable(d, adapter) then PortableWithDeclaredExtensions
            else PortableBaseline
  {
    assert Check(10, d, adapter, environment);
    var admission, reasons := contract.capabilityAdmission, contract.portability.reasons;
    forall reason
      ensures reason in reasons <==> ReasonRule(d, adapter, reason)
    {
      ReasonRules(d, adapter, admission, reason);
    }
    ReasonsLeaveClass(d, adapter, reasons);
  }

  /** What each reason records, on the request and the adapter. */
  predicate ReasonRule(d: GpuContextDescriptor, adapter: GpuAdapterFacts, reason: GpuPortabilityReason) {
    match reason
    case DeclaredExtension(f) => TakesEffect(d, adapter, f) && f !in PORTABLE_FEATURES
    case DeclaredFormatRoleExtension(format, role) => (format, role) in d.formatRoles && !PortableRole(format, role)
    case PreferredRequirementDegraded(f) =>
      f in d.requirements && d.requirements[f].Preferred? && f !in adapter.supported
    case BackendSpecialization(only) => d.allowedBackends == {only}
    case UnknownBackendReason => false
  }

  lemma ReasonRules(
      d: GpuContextDescriptor, adapter: GpuAdapterFacts, admission: GpuCapabilityAdmission,
      reason: GpuPortabilityReason)
    requires adapter.backend != UnknownBackend
    requires EnabledOf(admission) == RequestedEnabledFeatures(d.requirements, adapter.supported)
    requires admission == EvaluationOf(d.requirements, adapter.supported)
    ensures IsReason(d, admission, adapter.backend, reason) <==> ReasonRule(d, adapter, reason)
  {
    match reason
    case DeclaredExtension(f) => ExtensionTablesAreExact(f, R32Float, SampledRole);
    case DeclaredFormatRoleExtension(format, role) => ExtensionTablesAreExact(0, format, role);
    case PreferredRequirementDegraded(f) => DegradedPreferenceRules(d.requirements, adapter.supported, f);
    case BackendSpecialization(_) =>
    case UnknownBackendReason =>
  }

  lemma DegradedPreferenceRules(
      requirements: Entries, supported: set<GpuCapabilityFeature>, f: GpuCapabilityFeature)
    ensures var preferred := EvaluationOf(requirements, supported).preferred;
            (exists i :: 0 <= i < |preferred| && preferred[i].feature == f
                         && !(preferred[i].available && preferred[i].enabled))
            <==> f in requirements && requirements[f].Preferred? && f !in supported
  {
    var enabled := RequestedEnabledFeatures(requirements, supported);
    var preferred := AvailabilitiesFrom(requirements, supported, enabled, 0);
    var keys := KeyOrderFrom(PreferredSet(requirements), 0);
    AvailabilitiesFollowKeyOrder(requirements, supported, enabled, 0);
    KeyOrderListsEachOnce(PreferredSet(requirements), 0);
    if f in requirements && requirements[f].Preferred? && f !in supported {
      assert f in PreferredSet(requirements) && f in keys;
      var i :| 0 <= i < |keys| && keys[i] == f;
      assert preferred[i].feature == f && !preferred[i].available;
    }
    if i :| 0 <= i < |preferred| && preferred[i].feature == f && !(preferred[i].available && preferred[i].enabled) {
      assert keys[i] == f && preferred[i].available == (f in supported) && preferred[i].enabled == (f in enabled);
    }
  }

  lemma ReasonsLeaveClass(d: GpuContextDescriptor, adapter: GpuAdapterFacts, reasons: set<GpuPortabilityReason>)
    requires adapter.backend != UnknownBackend
    requires forall reason :: reason in reasons <==> ReasonRule(d, adapter, reason)
    ensures ClassOf(adapter.backend, reasons) ==
            if exists only :: d.allowedBackends == {only} then BackendSpecialized
            else if !StaysPortable(d, adapter) then PortableWithDeclaredExtensions
            else PortableBaseline
  {
    if exists only :: d.allowedBackends == {only} {
      var only :| d.allowedBackends == {only};
      assert BackendSpecialization(only) in reasons;
    } else if !StaysPortable(d, adapter) {
      if f: GpuCapabilityFeature :| TakesEffect(d, adapter, f) && f !in PORTABLE_FEATURES {
        assert DeclaredExtension(f) in reasons;
      } else {
        var wanted :| wanted in d.formatRoles && !PortableRole(wanted.0, wanted.1);
        assert DeclaredFormatRoleExtension(wanted.0, wanted.1) in reasons;
      }
    }
  }
}
