/** How admission of a merged request bears on the requests that were merged. */
module AdmissionMonotone {
  import opened Common
  import opened Capability
  import opened Preference
  import opened Descriptor
  import opened MergeAlgebra
  import opened Admission

  /** The request `m` is the merge of `a` and `b`. */
  predicate MergedFrom(a: GpuContextDescriptor, b: GpuContextDescriptor, m: GpuContextDescriptor) {
    MergeDescriptors(a, b) == Ok(m)
  }

  lemma RequirementsGrow(a: Entries, b: Entries, supported: set<GpuCapabilityFeature>)
    requires Mergeable(a, b)
    ensures RequestedEnabledFeatures(a, supported) <= RequestedEnabledFeatures(Join(a, b), supported)
    ensures RequiredSupported(Join(a, b), supported) ==> RequiredSupported(a, supported)
  {
    JoinIsPointwise(a, b);
    forall f | f in a
      ensures f in Join(a, b)
      ensures Join(a, b)[f].Disabled? ==> a[f].Disabled?
      ensures a[f].Required? ==> Join(a, b)[f].Required?
    {
      assert Ok(Lookup(Join(a, b), f)) == Combine(Lookup(a, f), Lookup(b, f));
    }
  }

  lemma AllowlistShrinks<T>(left: set<T>, right: set<T>, x: T)
    requires MergeAllowlist(left, right).Ok?
    ensures AllowedBy(MergeAllowlist(left, right).value, x) ==> AllowedBy(left, x)
    ensures |left| == 1 ==> |MergeAllowlist(left, right).value| == 1
  {
    if |left| == 1 {
      var only :| only in left;
      SingletonSet(left, only);
      var merged := MergeAllowlist(left, right).value;
      assert merged == left by {
        if right != {} {
          assert left * right <= left;
        }
      }
    }
  }

  lemma CapsTighten(a: Alignments, b: Alignments, facts: GpuAlignmentFacts)
    ensures AlignmentsSatisfied(facts, JoinAlignments(a, b)) ==> AlignmentsSatisfied(facts, a)
  {
    CapOfJoin(a, b);
    if AlignmentsSatisfied(facts, JoinAlignments(a, b)) {
      forall k | k in a
        ensures AlignmentWithin(facts, k, a[k])
      {
        assert Cap(JoinAlignments(a, b), k) == JoinMaximum(Cap(a, k), Cap(b, k));
        assert k in JoinAlignments(a, b);
      }
    }
  }

  lemma BaselineGrows(few: set<GpuCapabilityFeature>, many: set<GpuCapabilityFeature>, k: GpuLimitKind)
    requires few <= many
    ensures LimitValue(BaselineLimits(few), k) <= LimitValue(BaselineLimits(many), k)
  {
  }

  /** The other side caps `k` below what `limits` alone would demand. */
  predicate CappedBelow(
      other: Limits, limits: Limits, enabled: set<GpuCapabilityFeature>, k: GpuLimitKind)
  {
    && Constraint(other, k).maximum.Some?
    && Constraint(other, k).maximum.value < EffectiveValue(limits, enabled, k)
  }

  /** Only a cap of the other side can make a merged request demand less of a limit. */
  lemma DemandGrowsUnlessCapped(
      a: Limits, b: Limits, few: set<GpuCapabilityFeature>, many: set<GpuCapabilityFeature>, k: GpuLimitKind)
    requires few <= many
    ensures CappedBelow(b, a, few, k) || EffectiveValue(a, few, k) <= EffectiveValue(JoinLimits(a, b), many, k)
  {
    BaselineGrows(few, many, k);
    ConstraintOfJoin(a, b);
    assert Constraint(JoinLimits(a, b), k) == JoinConstraint(Constraint(a, k), Constraint(b, k));
  }

  /** The adapter reaches every demand that the other side's caps had hidden. */
  predicate HiddenDemandsReached(
      adapter: GpuAdapterFacts, other: Limits, limits: Limits, enabled: set<GpuCapabilityFeature>)
  {
    forall k: GpuLimitKind | CappedBelow(other, limits, enabled, k) ::
      LimitValue(adapter.limits, k) >= EffectiveValue(limits, enabled, k)
  }

  /** A reached budget always fits its record, since the observed limits fit theirs. */
  lemma ReachedBudgetIsRepresentable(observed: GpuLimits, limits: Limits, enabled: set<GpuCapabilityFeature>)
    requires LimitsReach(observed, limits, enabled)
    ensures BudgetRepresentable(limits, enabled)
  {
  }

  /** Every check but the limits passes for an operand when it passes for the merge. */
  lemma OtherChecksAreInherited(
      a: GpuContextDescriptor, b: GpuContextDescriptor, m: GpuContextDescriptor,
      adapter: GpuAdapterFacts, environment: Environment, i: nat)
    requires MergedFrom(a, b, m) && i < CHECK_COUNT && i != 8 && i != 9
    requires Check(i, m, adapter, environment)
    ensures Check(i, a, adapter, environment)
  {
    RequirementsGrow(a.requirements, b.requirements, adapter.supported);
    AllowlistShrinks(a.allowedBackends, b.allowedBackends, adapter.backend);
    AllowlistShrinks(a.allowedAdapterClasses, b.allowedAdapterClasses, adapter.adapterClass);
    if i == 7 {
      CapsTighten(a.alignments, b.alignments, adapter.alignments);
    }
  }

  /**
   * An adapter admitted for a merge is admitted for an operand alone exactly when it also reaches
   * the demands of that operand which the other side had capped away.
   */
  lemma AdmissionIsInheritedIff(
      a: GpuContextDescriptor, b: GpuContextDescriptor, m: GpuContextDescriptor,
      adapter: GpuAdapterFacts, environment: Environment)
    requires MergedFrom(a, b, m)
    requires Admits(m, adapter, environment)
    ensures Admits(a, adapter, environment)
            <==> HiddenDemandsReached(
                   adapter, b.limits, a.limits, RequestedEnabledFeatures(a.requirements, adapter.supported))
  {
    var few := RequestedEnabledFeatures(a.requirements, adapter.supported);
    forall i | 0 <= i < CHECK_COUNT && i != 8 && i != 9
      ensures Check(i, a, adapter, environment)
    {
      OtherChecksAreInherited(a, b, m, adapter, environment, i);
    }
    if HiddenDemandsReached(adapter, b.limits, a.limits, few) {
      assert Check(9, m, adapter, environment);
      HiddenDemandsSuffice(a, b, m, adapter);
      ReachedBudgetIsRepresentable(adapter.limits, a.limits, few);
    }
    if Admits(a, adapter, environment) {
      assert Check(9, a, adapter, environment);
    }
  }

  lemma HiddenDemandsSuffice(
      a: GpuContextDescriptor, b: GpuContextDescriptor, m: GpuContextDescriptor, adapter: GpuAdapterFacts)
    requires MergedFrom(a, b, m)
    requires LimitsReach(adapter.limits, m.limits, RequestedEnabledFeatures(m.requirements, adapter.supported))
    requires HiddenDemandsReached(
               adapter, b.limits, a.limits, RequestedEnabledFeatures(a.requirements, adapter.supported))
    ensures LimitsReach(adapter.limits, a.limits, RequestedEnabledFeatures(a.requirements, adapter.supported))
  {
    var few := RequestedEnabledFeatures(a.requirements, adapter.supported);
    var many := RequestedEnabledFeatures(m.requirements, adapter.supported);
    RequirementsGrow(a.requirements, b.requirements, adapter.supported);
    forall k: GpuLimitKind
      ensures LimitValue(adapter.limits, k) >= EffectiveValue(a.limits, few, k)
    {
      DemandGrowsUnlessCapped(a.limits, b.limits, few, many, k);
      assert LimitValue(adapter.limits, k) >= EffectiveValue(m.limits, many, k);
    }
  }

  /** With no caps on the other side, an adapter good for the merge is good for the operand. */
  lemma AdmissionIsMonotoneWithoutCaps(
      a: GpuContextDescriptor, b: GpuContextDescriptor, m: GpuContextDescriptor,
      adapter: GpuAdapterFacts, environment: Environment)
    requires MergedFrom(a, b, m)
    requires Admits(m, adapter, environment)
    requires forall k | k in b.limits :: b.limits[k].maximum.None?
    ensures Admits(a, adapter, environment)
  {
    AdmissionIsInheritedIff(a, b, m, adapter, environment);
  }

  /** An adapter with every baseline limit except bind groups. */
  const SMALL_ADAPTER := GpuAdapterFacts(
    Vulkan, Discrete, Hardware, ConfirmedNotFallback, {}, map[], BaselineLimits({}).(maxBindGroups := 2),
    GpuAlignmentFacts(None, None, None, None, None), true)

  const BIND_GROUPS: GpuLimitKind := 6

  const CAPPED := PermitLimit(EMPTY, BIND_GROUPS, 2)

  lemma SmallAdapterMeetsCap()
    ensures LimitsReach(SMALL_ADAPTER.limits, CAPPED.limits, {})
  {
  }

  lemma CappedIsItsOwnMerge()
    ensures MergedFrom(EMPTY, CAPPED, CAPPED)
  {
    EmptyIsUnitIff(CAPPED);
  }

  lemma SmallAdapterMissesBaseline()
    ensures !HiddenDemandsReached(
              SMALL_ADAPTER, CAPPED.limits, EMPTY.limits,
              RequestedEnabledFeatures(EMPTY.requirements, SMALL_ADAPTER.supported))
  {
    assert RequestedEnabledFeatures(EMPTY.requirements, SMALL_ADAPTER.supported) == {};
    assert CappedBelow(CAPPED.limits, EMPTY.limits, {}, BIND_GROUPS);
  }

  lemma CappedPasses(environment: Environment)
    requires HostSatisfied(environment)
    requires LimitsReach(SMALL_ADAPTER.limits, CAPPED.limits, {})
    ensures Admits(CAPPED, SMALL_ADAPTER, environment)
  {
  }

  /** A cap can admit more: merging it in turns a rejected adapter into an admitted one. */
  lemma CapsAdmitMore(environment: Environment)
    requires HostSatisfied(environment)
    ensures MergedFrom(EMPTY, CAPPED, CAPPED)
    ensures Admits(CAPPED, SMALL_ADAPTER, environment)
    ensures !Admits(EMPTY, SMALL_ADAPTER, environment)
  {
    CappedIsItsOwnMerge();
    SmallAdapterMeetsCap();
    SmallAdapterMissesBaseline();
    CappedPasses(environment);
    AdmissionIsInheritedIff(EMPTY, CAPPED, CAPPED, SMALL_ADAPTER, environment);
  }
}
