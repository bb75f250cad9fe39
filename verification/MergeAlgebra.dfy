/** Merging context requests is a partial commutative join; where exactly it is a lawful one. */
module MergeAlgebra {
  import opened Common
  import opened Capability
  import opened Preference
  import opened Descriptor

  /** Every descriptor built through the builders records only kinds that carry a bound. */
  predicate WellFormed(d: GpuContextDescriptor) {
    forall k | k in d.limits :: d.limits[k] != UNCONSTRAINED
  }

  /** Requiring a minimum is joining with the request that only declares it. */
  lemma RequireLimitIsJoin(d: GpuContextDescriptor, kind: GpuLimitKind, bound: u64)
    requires WellFormed(d)
    ensures WellFormed(RequireLimit(d, kind, bound))
    ensures RequireLimit(d, kind, bound).limits
            == JoinLimits(d.limits, map[kind := GpuLimitConstraint(Some(bound), None)])
  {
    var single: Limits := map[kind := GpuLimitConstraint(Some(bound), None)];
    var limits := RequireLimit(d, kind, bound).limits;
    ConstraintOfJoin(d.limits, single);
    forall k: GpuLimitKind
      ensures Constraint(limits, k) == JoinConstraint(Constraint(d.limits, k), Constraint(single, k))
    {
    }
    SameConstraints(limits, JoinLimits(d.limits, single));
  }

  /** Permitting a maximum is joining with the request that only declares it. */
  lemma PermitLimitIsJoin(d: GpuContextDescriptor, kind: GpuLimitKind, bound: u64)
    requires WellFormed(d)
    ensures WellFormed(PermitLimit(d, kind, bound))
    ensures PermitLimit(d, kind, bound).limits
            == JoinLimits(d.limits, map[kind := GpuLimitConstraint(None, Some(bound))])
  {
    var single: Limits := map[kind := GpuLimitConstraint(None, Some(bound))];
    var limits := PermitLimit(d, kind, bound).limits;
    ConstraintOfJoin(d.limits, single);
    forall k: GpuLimitKind
      ensures Constraint(limits, k) == JoinConstraint(Constraint(d.limits, k), Constraint(single, k))
    {
    }
    SameConstraints(limits, JoinLimits(d.limits, single));
  }

  // ---------------------------------------------------------------------------------------------
  // Commutativity
  // ---------------------------------------------------------------------------------------------

  lemma LimitsCommute(a: Limits, b: Limits)
    ensures JoinLimits(a, b) == JoinLimits(b, a)
  {
    ConstraintOfJoin(a, b);
    ConstraintOfJoin(b, a);
    SameConstraints(JoinLimits(a, b), JoinLimits(b, a));
  }

  lemma AlignmentsCommute(a: Alignments, b: Alignments)
    ensures JoinAlignments(a, b) == JoinAlignments(b, a)
  {
    CapOfJoin(a, b);
    CapOfJoin(b, a);
    SameCaps(JoinAlignments(a, b), JoinAlignments(b, a));
  }

  lemma AllowlistsCommute<T>(a: set<T>, b: set<T>)
    ensures MergeAllowlist(a, b) == MergeAllowlist(b, a)
  {
    assert a * b == b * a;
  }

  lemma PreferencesCommute(a: Ranks, b: Ranks)
    ensures MergeBackendPreference(a, b) == MergeBackendPreference(b, a)
  {
  }

  lemma PoliciesCommute(a: GpuContextDescriptor, b: GpuContextDescriptor)
    ensures MergePowerPreference(a.powerPreference, b.powerPreference)
            == MergePowerPreference(b.powerPreference, a.powerPreference)
    ensures MergeFallbackPolicy(a.fallbackPolicy, b.fallbackPolicy)
            == MergeFallbackPolicy(b.fallbackPolicy, a.fallbackPolicy)
    ensures MergeExactCandidate(a.exactCandidate, b.exactCandidate)
            == MergeExactCandidate(b.exactCandidate, a.exactCandidate)
  {
  }

  lemma ConsistencyCommutes(a: GpuContextDescriptor, b: GpuContextDescriptor)
    ensures Consistent(a, b) <==> Consistent(b, a)
  {
    MergeablePointwise(a.requirements, b.requirements);
    PoliciesCommute(a, b);
    AllowlistsCommute(a.allowedBackends, b.allowedBackends);
    AllowlistsCommute(a.allowedAdapterClasses, b.allowedAdapterClasses);
    PreferencesCommute(a.backendPreference, b.backendPreference);
  }

  lemma CombinedCommutes(a: GpuContextDescriptor, b: GpuContextDescriptor)
    requires Consistent(a, b) && Consistent(b, a)
    ensures Combined(a, b) == Combined(b, a)
  {
    MergeablePointwise(a.requirements, b.requirements);
    PoliciesCommute(a, b);
    AllowlistsCommute(a.allowedBackends, b.allowedBackends);
    AllowlistsCommute(a.allowedAdapterClasses, b.allowedAdapterClasses);
    PreferencesCommute(a.backendPreference, b.backendPreference);
    LimitsCommute(a.limits, b.limits);
    AlignmentsCommute(a.alignments, b.alignments);
    assert a.formatRoles + b.formatRoles == b.formatRoles + a.formatRoles;
  }

  /** Merge is commutative on all descriptors: same request, or same refusal. */
  lemma MergeCommutes(a: GpuContextDescriptor, b: GpuContextDescriptor)
    ensures MergeDescriptors(a, b) == MergeDescriptors(b, a)
  {
    ConsistencyCommutes(a, b);
    if Consistent(a, b) {
      CombinedCommutes(a, b);
    }
  }

  // ---------------------------------------------------------------------------------------------
  // Unit and idempotence
  // ---------------------------------------------------------------------------------------------

  const EMPTY: GpuContextDescriptor := NewDescriptor(map[])

  lemma JoinsWithEmpty(d: GpuContextDescriptor)
    requires WellFormed(d)
    ensures Mergeable(d.requirements, map[]) && Join(d.requirements, map[]) == d.requirements
    ensures JoinLimits(d.limits, map[]) == d.limits
    ensures JoinAlignments(d.alignments, map[]) == d.alignments
  {
    JoinIsPointwise(d.requirements, map[]);
    SameLookups(Join(d.requirements, map[]), d.requirements);
    ConstraintOfJoin(d.limits, map[]);
    SameConstraints(JoinLimits(d.limits, map[]), d.limits);
    CapOfJoin(d.alignments, map[]);
    SameCaps(JoinAlignments(d.alignments, map[]), d.alignments);
  }

  lemma JoinsWithSelf(d: GpuContextDescriptor)
    requires WellFormed(d)
    ensures Mergeable(d.requirements, d.requirements) && Join(d.requirements, d.requirements) == d.requirements
    ensures JoinLimits(d.limits, d.limits) == d.limits
    ensures JoinAlignments(d.alignments, d.alignments) == d.alignments
  {
    JoinIsPointwise(d.requirements, d.requirements);
    SameLookups(Join(d.requirements, d.requirements), d.requirements);
    ConstraintOfJoin(d.limits, d.limits);
    SameConstraints(JoinLimits(d.limits, d.limits), d.limits);
    CapOfJoin(d.alignments, d.alignments);
    SameCaps(JoinAlignments(d.alignments, d.alignments), d.alignments);
  }

  lemma CombinedWithEmpty(d: GpuContextDescriptor)
    requires WellFormed(d)
    ensures Consistent(d, EMPTY)
    ensures Combined(d, EMPTY) == d.(backendPreference := Renumber(d.backendPreference))
  {
    JoinsWithEmpty(d);
    assert d.formatRoles + {} == d.formatRoles;
  }

  lemma CombinedWithSelf(d: GpuContextDescriptor)
    requires WellFormed(d)
    ensures Consistent(d, d)
    ensures Combined(d, d) == d.(backendPreference := Renumber(d.backendPreference))
  {
    JoinsWithSelf(d);
    assert d.allowedBackends * d.allowedBackends == d.allowedBackends;
    assert d.allowedAdapterClasses * d.allowedAdapterClasses == d.allowedAdapterClasses;
  }

  lemma RenumberKeepsValidity(d: GpuContextDescriptor)
    ensures Valid(d.(backendPreference := Renumber(d.backendPreference))) <==> Valid(d)
  {
    RenumberByPosition(d.backendPreference);
  }

  /** The empty request is a unit exactly for the valid requests whose preference has no gaps. */
  lemma EmptyIsUnitIff(d: GpuContextDescriptor)
    requires WellFormed(d)
    ensures MergeDescriptors(d, EMPTY) == Ok(d) <==> Valid(d) && Dense(d.backendPreference)
    ensures MergeDescriptors(EMPTY, d) == MergeDescriptors(d, EMPTY)
    ensures MergeDescriptors(d, EMPTY).Ok? <==> Valid(d)
  {
    CombinedWithEmpty(d);
    RenumberFixesExactlyDense(d.backendPreference);
    RenumberKeepsValidity(d);
    MergeCommutes(d, EMPTY);
  }

  /** Merging a request with itself gives it back under exactly the same condition. */
  lemma MergeIsIdempotentIff(d: GpuContextDescriptor)
    requires WellFormed(d)
    ensures MergeDescriptors(d, d) == Ok(d) <==> Valid(d) && Dense(d.backendPreference)
    ensures MergeDescriptors(d, d).Ok? <==> Valid(d)
  {
    CombinedWithSelf(d);
    RenumberFixesExactlyDense(d.backendPreference);
    RenumberKeepsValidity(d);
  }

  /** A repeated backend leaves a gap in the ranks, and such a request is not its own merge. */
  lemma GappedPreferenceIsNotIdempotent()
    ensures var d := EMPTY.(backendPreference := PreferenceOf([Vulkan, Vulkan, Metal]));
            && d.backendPreference == map[Vulkan := 0, Metal := 2]
            && MergeDescriptors(d, d).Ok? && MergeDescriptors(d, d) != Ok(d)
  {
    var list := [Vulkan, Vulkan, Metal];
    FirstIndexUnique(list, Vulkan, 0);
    FirstIndexUnique(list, Metal, 2);
    var d := EMPTY.(backendPreference := PreferenceOf(list));
    assert d.backendPreference == map[Vulkan := 0, Metal := 2];
    assert |d.backendPreference| == 2;
    assert Metal in d.backendPreference && d.backendPreference[Metal] == 2;
    MergeIsIdempotentIff(d);
  }

  // ---------------------------------------------------------------------------------------------
  // What a successful merge preserves
  // ---------------------------------------------------------------------------------------------

  /** The requests the associativity law is about. */
  predicate Lawful(d: GpuContextDescriptor) {
    WellFormed(d) && Valid(d) && Dense(d.backendPreference)
  }

  /** Each feature has exactly one valid fallback, so valid preferences never rival each other. */
  lemma ValidPreferencesAreNeverSqueezed(a: Entries, b: Entries, c: Entries)
    requires DegradationsValid(a) && DegradationsValid(b) && DegradationsValid(c)
    ensures forall f: GpuCapabilityFeature :: !SqueezedAt(a, b, c, f)
  {
  }

  lemma JoinKeepsDegradationsValid(a: Entries, b: Entries)
    requires Mergeable(a, b) && DegradationsValid(a) && DegradationsValid(b)
    ensures DegradationsValid(Join(a, b))
  {
  }

  lemma MergeIsLawful(a: GpuContextDescriptor, b: GpuContextDescriptor)
    ensures MergeDescriptors(a, b).Ok? ==> Lawful(MergeDescriptors(a, b).value)
  {
    if Consistent(a, b) {
      RenumberByPosition(MergeBackendPreference(a.backendPreference, b.backendPreference).value);
      ConstraintOfJoin(a.limits, b.limits);
    }
  }

  /** Merging valid requests is only ever refused as a contradiction. */
  lemma LawfulMergeFailsAsContradiction(a: GpuContextDescriptor, b: GpuContextDescriptor)
    requires Valid(a) && Valid(b)
    ensures MergeDescriptors(a, b).Err? ==> MergeDescriptors(a, b).error == ContradictoryRequest
  {
    if Consistent(a, b) {
      JoinKeepsDegradationsValid(a.requirements, b.requirements);
    }
  }

  // ---------------------------------------------------------------------------------------------
  // Associativity
  // ---------------------------------------------------------------------------------------------

  lemma LimitsAssociate(a: Limits, b: Limits, c: Limits)
    ensures JoinLimits(JoinLimits(a, b), c) == JoinLimits(a, JoinLimits(b, c))
  {
    ConstraintOfJoin(a, b);
    ConstraintOfJoin(b, c);
    ConstraintOfJoin(JoinLimits(a, b), c);
    ConstraintOfJoin(a, JoinLimits(b, c));
    forall k: GpuLimitKind
      ensures Constraint(JoinLimits(JoinLimits(a, b), c), k) == Constraint(JoinLimits(a, JoinLimits(b, c)), k)
    {
      ConstraintsAssociate(Constraint(a, k), Constraint(b, k), Constraint(c, k));
    }
    SameConstraints(JoinLimits(JoinLimits(a, b), c), JoinLimits(a, JoinLimits(b, c)));
  }

  lemma ConstraintsAssociate(x: GpuLimitConstraint, y: GpuLimitConstraint, z: GpuLimitConstraint)
    ensures JoinConstraint(JoinConstraint(x, y), z) == JoinConstraint(x, JoinConstraint(y, z))
  {
  }

  lemma AlignmentsAssociate(a: Alignments, b: Alignments, c: Alignments)
    ensures JoinAlignments(JoinAlignments(a, b), c) == JoinAlignments(a, JoinAlignments(b, c))
  {
    CapOfJoin(a, b);
    CapOfJoin(b, c);
    CapOfJoin(JoinAlignments(a, b), c);
    CapOfJoin(a, JoinAlignments(b, c));
    SameCaps(JoinAlignments(JoinAlignments(a, b), c), JoinAlignments(a, JoinAlignments(b, c)));
  }

  lemma AllowlistsAssociate<T>(a: set<T>, b: set<T>, c: set<T>)
    ensures var left := MergeAllowlist(a, b);
            var right := MergeAllowlist(b, c);
            (if left.Ok? then MergeAllowlist(left.value, c) else Err(ContradictoryRequest))
            == if right.Ok? then MergeAllowlist(a, right.value) else Err(ContradictoryRequest)
  {
    assert (a * b) * c == a * (b * c);
    assert a * b == {} ==> (a * b) * c == {};
    assert b * c == {} ==> a * (b * c) == {};
  }

  lemma DensePreferencesMergeUnchanged(a: Ranks, b: Ranks)
    requires Dense(a) && Dense(b) && MergeBackendPreference(a, b).Ok?
    ensures Renumber(MergeBackendPreference(a, b).value) == MergeBackendPreference(a, b).value
  {
    RenumberFixesExactlyDense(a);
    RenumberFixesExactlyDense(b);
  }

  lemma PreferencesAssociate(a: Ranks, b: Ranks, c: Ranks)
    ensures var left := MergeBackendPreference(a, b);
            var right := MergeBackendPreference(b, c);
            (if left.Ok? then MergeBackendPreference(left.value, c) else Err(ContradictoryRequest))
            == if right.Ok? then MergeBackendPreference(a, right.value) else Err(ContradictoryRequest)
  {
  }

  lemma IntermediatePreferences(a: GpuContextDescriptor, b: GpuContextDescriptor)
    requires Lawful(a) && Lawful(b) && Consistent(a, b)
    ensures Combined(a, b).backendPreference == MergeBackendPreference(a.backendPreference, b.backendPreference).value
  {
    DensePreferencesMergeUnchanged(a.backendPreference, b.backendPreference);
  }

  lemma PoliciesAssociate(a: GpuContextDescriptor, b: GpuContextDescriptor, c: GpuContextDescriptor)
    ensures var left := MergePowerPreference(a.powerPreference, b.powerPreference);
            var right := MergePowerPreference(b.powerPreference, c.powerPreference);
            (if left.Ok? then MergePowerPreference(left.value, c.powerPreference) else Err(ContradictoryRequest))
            == if right.Ok? then MergePowerPreference(a.powerPreference, right.value) else Err(ContradictoryRequest)
    ensures var left := MergeFallbackPolicy(a.fallbackPolicy, b.fallbackPolicy);
            var right := MergeFallbackPolicy(b.fallbackPolicy, c.fallbackPolicy);
            (if left.Ok? then MergeFallbackPolicy(left.value, c.fallbackPolicy) else Err(ContradictoryRequest))
            == if right.Ok? then MergeFallbackPolicy(a.fallbackPolicy, right.value) else Err(ContradictoryRequest)
    ensures var left := MergeExactCandidate(a.exactCandidate, b.exactCandidate);
            var right := MergeExactCandidate(b.exactCandidate, c.exactCandidate);
            (if left.Ok? then MergeExactCandidate(left.value, c.exactCandidate) else Err(ContradictoryRequest))
            == if right.Ok? then MergeExactCandidate(a.exactCandidate, right.value) else Err(ContradictoryRequest)
  {
  }

  lemma ConsistencyAssociates(a: GpuContextDescriptor, b: GpuContextDescriptor, c: GpuContextDescriptor)
    requires Lawful(a) && Lawful(b) && Lawful(c)
    ensures (Consistent(a, b) && Consistent(Combined(a, b), c)) <==> (Consistent(b, c) && Consistent(a, Combined(b, c)))
  {
    if Consistent(a, b) {
      IntermediatePreferences(a, b);
    }
    if Consistent(b, c) {
      IntermediatePreferences(b, c);
    }
    ValidPreferencesAreNeverSqueezed(a.requirements, b.requirements, c.requirements);
    MergeEntriesAssociates(a.requirements, b.requirements, c.requirements);
    PoliciesAssociate(a, b, c);
    AllowlistsAssociate(a.allowedBackends, b.allowedBackends, c.allowedBackends);
    AllowlistsAssociate(a.allowedAdapterClasses, b.allowedAdapterClasses, c.allowedAdapterClasses);
    PreferencesAssociate(a.backendPreference, b.backendPreference, c.backendPreference);
  }

  /** The fields whose merge can be refused, once both groupings are defined. */
  lemma PartialFieldsAssociate(a: GpuContextDescriptor, b: GpuContextDescriptor, c: GpuContextDescriptor)
    requires Lawful(a) && Lawful(b) && Lawful(c)
    requires Consistent(a, b) && Consistent(Combined(a, b), c) && Consistent(b, c) && Consistent(a, Combined(b, c))
    ensures var left := Combined(Combined(a, b), c);
            var right := Combined(a, Combined(b, c));
            && left.requirements == right.requirements
            && left.powerPreference == right.powerPreference
            && left.fallbackPolicy == right.fallbackPolicy
            && left.exactCandidate == right.exactCandidate
            && left.allowedBackends == right.allowedBackends
            && left.allowedAdapterClasses == right.allowedAdapterClasses
            && left.backendPreference == right.backendPreference
  {
    IntermediatePreferences(a, b);
    IntermediatePreferences(b, c);
    MergeEntriesAssociates(a.requirements, b.requirements, c.requirements);
    PoliciesAssociate(a, b, c);
    AllowlistsAssociate(a.allowedBackends, b.allowedBackends, c.allowedBackends);
    AllowlistsAssociate(a.allowedAdapterClasses, b.allowedAdapterClasses, c.allowedAdapterClasses);
    PreferencesAssociate(a.backendPreference, b.backendPreference, c.backendPreference);
  }

  lemma CombinedAssociates(a: GpuContextDescriptor, b: GpuContextDescriptor, c: GpuContextDescriptor)
    requires Lawful(a) && Lawful(b) && Lawful(c)
    requires Consistent(a, b) && Consistent(Combined(a, b), c)
    ensures Consistent(b, c) && Consistent(a, Combined(b, c))
    ensures Combined(Combined(a, b), c) == Combined(a, Combined(b, c))
  {
    ConsistencyAssociates(a, b, c);
    PartialFieldsAssociate(a, b, c);
    LimitsAssociate(a.limits, b.limits, c.limits);
    AlignmentsAssociate(a.alignments, b.alignments, c.alignments);
    assert (a.formatRoles + b.formatRoles) + c.formatRoles == a.formatRoles + (b.formatRoles + c.formatRoles);
  }

  /** An intermediate contradiction survives every further merge, so validating early loses nothing. */
  lemma ContradictionsPersist(a: GpuContextDescriptor, b: GpuContextDescriptor, c: GpuContextDescriptor)
    requires Lawful(a) && Lawful(b)
    requires Consistent(a, b) && Consistent(Combined(a, b), c)
    requires Valid(Combined(Combined(a, b), c))
    ensures Valid(Combined(a, b))
  {
    var ab := Combined(a, b);
    JoinKeepsDegradationsValid(a.requirements, b.requirements);
    LimitContradictionsPersist(a.limits, b.limits, c.limits);
    CapOfJoin(a.alignments, b.alignments);
    forall k | k in ab.alignments
      ensures ab.alignments[k] != 0
    {
      assert Cap(ab.alignments, k) == JoinMaximum(Cap(a.alignments, k), Cap(b.alignments, k));
    }
    PreferenceContradictionsPersist(ab, c);
  }

  lemma LimitContradictionsPersist(a: Limits, b: Limits, c: Limits)
    requires LimitsValid(a) && LimitsValid(b)
    requires LimitsValid(JoinLimits(JoinLimits(a, b), c))
    ensures LimitsValid(JoinLimits(a, b))
  {
    var ab := JoinLimits(a, b);
    ConstraintOfJoin(a, b);
    ConstraintOfJoin(ab, c);
    forall k | k in ab
      ensures ConstraintValid(ab[k])
    {
      assert Constraint(ab, k) == JoinConstraint(Constraint(a, k), Constraint(b, k));
      assert Constraint(JoinLimits(ab, c), k) == JoinConstraint(Constraint(ab, k), Constraint(c, k));
      assert ConstraintValid(Constraint(a, k)) && ConstraintValid(Constraint(b, k));
      assert ConstraintValid(Constraint(JoinLimits(ab, c), k));
    }
  }

  lemma PreferenceContradictionsPersist(x: GpuContextDescriptor, c: GpuContextDescriptor)
    requires Consistent(x, c)
    requires PreferenceAllowed(Combined(x, c).allowedBackends, Combined(x, c).backendPreference)
    ensures PreferenceAllowed(x.allowedBackends, x.backendPreference)
  {
    RenumberByPosition(MergeBackendPreference(x.backendPreference, c.backendPreference).value);
  }

  function ThenMerge(
      left: Result<GpuContextDescriptor, ContextErrorCategory>, right: GpuContextDescriptor):
      Result<GpuContextDescriptor, ContextErrorCategory>
  {
    match left
    case Ok(d) => MergeDescriptors(d, right)
    case Err(error) => Err(error)
  }

  lemma LeftGroupingFlattens(a: GpuContextDescriptor, b: GpuContextDescriptor, c: GpuContextDescriptor)
    requires Lawful(a) && Lawful(b) && Lawful(c)
    ensures ThenMerge(MergeDescriptors(a, b), c)
            == if Consistent(a, b) && Consistent(Combined(a, b), c) && Valid(Combined(Combined(a, b), c))
               then Ok(Combined(Combined(a, b), c)) else Err(ContradictoryRequest)
  {
    LawfulMergeFailsAsContradiction(a, b);
    if MergeDescriptors(a, b).Ok? {
      LawfulMergeFailsAsContradiction(MergeDescriptors(a, b).value, c);
    } else if Consistent(a, b) && Consistent(Combined(a, b), c) && Valid(Combined(Combined(a, b), c)) {
      ContradictionsPersist(a, b, c);
    }
  }

  /**
   * On valid requests with gap-free preferences merge is associative, definedness included: both
   * groupings give the same request or the same refusal.
   */
  lemma MergeAssociates(a: GpuContextDescriptor, b: GpuContextDescriptor, c: GpuContextDescriptor)
    requires Lawful(a) && Lawful(b) && Lawful(c)
    ensures ThenMerge(MergeDescriptors(a, b), c)
            == match MergeDescriptors(b, c)
               case Ok(bc) => MergeDescriptors(a, bc)
               case Err(error) => Err(error)
  {
    LeftGroupingFlattens(a, b, c);
    LeftGroupingFlattens(b, c, a);
    ConsistencyAssociates(a, b, c);
    if Consistent(a, b) && Consistent(Combined(a, b), c) {
      CombinedAssociates(a, b, c);
    }
    if Consistent(b, c) {
      ConsistencyCommutes(a, Combined(b, c));
      if Consistent(a, Combined(b, c)) {
        CombinedCommutes(a, Combined(b, c));
      }
    }
    if MergeDescriptors(b, c).Ok? {
      MergeCommutes(a, MergeDescriptors(b, c).value);
    }
  }
}
