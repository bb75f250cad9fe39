/** What a merge keeps of the two requests, and exactly which requests it refuses to merge. */
module MergeDeclarations {
  import opened Common
  import opened Capability
  import opened Preference
  import opened TextureFormat
  import opened Descriptor
  import opened MergeAlgebra

  // ---------------------------------------------------------------------------------------------
  // Which requests contradict each other
  // ---------------------------------------------------------------------------------------------

  /** Two declared choices of the same kind that differ. */
  predicate RivalChoices(a: GpuContextDescriptor, b: GpuContextDescriptor) {
    || {a.powerPreference, b.powerPreference} == {HighPerformance, LowPower}
    || {a.fallbackPolicy, b.fallbackPolicy} == {RequireFallback, ForbidFallback}
    || (a.exactCandidate.Some? && b.exactCandidate.Some? && a.exactCandidate != b.exactCandidate)
    || (a.backendPreference != map[] && b.backendPreference != map[] && a.backendPreference != b.backendPreference)
  }

  /** Two nonempty lists without a common member; an empty one lists everything. */
  predicate DisjointLists<T>(a: set<T>, b: set<T>) {
    a != {} && b != {} && forall x | x in a :: x !in b
  }

  /** A feature disabled by one side and wanted by the other, or preferred by both with different fallbacks. */
  predicate RivalRequirements(a: GpuContextDescriptor, b: GpuContextDescriptor) {
    exists f: GpuCapabilityFeature | f in a.requirements && f in b.requirements ::
      var left, right := a.requirements[f], b.requirements[f];
      || (left == Disabled(f) && right != Disabled(f))
      || (right == Disabled(f) && left != Disabled(f))
      || (left.Preferred? && right.Preferred? && left != right)
  }

  predicate Contradict(a: GpuContextDescriptor, b: GpuContextDescriptor) {
    || RivalChoices(a, b)
    || DisjointLists(a.allowedBackends, b.allowedBackends)
    || DisjointLists(a.allowedAdapterClasses, b.allowedAdapterClasses)
    || RivalRequirements(a, b)
  }

  lemma RivalRequirementsIff(a: GpuContextDescriptor, b: GpuContextDescriptor)
    ensures RivalRequirements(a, b) <==> !Mergeable(a.requirements, b.requirements)
  {
    forall f | f in a.requirements && f in b.requirements
      ensures Conflict(a.requirements, b.requirements, f) <==>
                var left, right := a.requirements[f], b.requirements[f];
                || (left == Disabled(f) && right != Disabled(f))
                || (right == Disabled(f) && left != Disabled(f))
                || (left.Preferred? && right.Preferred? && left != right)
    {
    }
  }

  lemma DisjointListsIff<T>(a: set<T>, b: set<T>)
    ensures DisjointLists(a, b) <==> MergeAllowlist(a, b).Err?
  {
    if forall x | x in a :: x !in b {
      assert a * b == {};
    } else {
      var x :| x in a && x in b;
      assert x in a * b;
    }
  }

  lemma RivalChoicesIff(a: GpuContextDescriptor, b: GpuContextDescriptor)
    ensures RivalChoices(a, b) <==>
              || MergePowerPreference(a.powerPreference, b.powerPreference).Err?
              || MergeFallbackPolicy(a.fallbackPolicy, b.fallbackPolicy).Err?
              || MergeExactCandidate(a.exactCandidate, b.exactCandidate).Err?
              || MergeBackendPreference(a.backendPreference, b.backendPreference).Err?
  {
    PairIs(a.powerPreference, b.powerPreference, HighPerformance, LowPower);
    PairIs(a.fallbackPolicy, b.fallbackPolicy, RequireFallback, ForbidFallback);
  }

  lemma PairIs<T>(a: T, b: T, x: T, y: T)
    ensures {a, b} == {x, y} <==> (a == x && b == y) || (a == y && b == x)
  {
    if {a, b} == {x, y} {
      assert a in {x, y} && b in {x, y} && x in {a, b} && y in {a, b};
    }
  }

  lemma ConsistentIff(a: GpuContextDescriptor, b: GpuContextDescriptor)
    ensures Consistent(a, b) <==> !Contradict(a, b)
  {
    RivalRequirementsIff(a, b);
    RivalChoicesIff(a, b);
    DisjointListsIff(a.allowedBackends, b.allowedBackends);
    DisjointListsIff(a.allowedAdapterClasses, b.allowedAdapterClasses);
  }

  // ---------------------------------------------------------------------------------------------
  // What the merged request says
  // ---------------------------------------------------------------------------------------------

  /** A declared choice is kept, whichever side declares it; `open` stands for no choice. */
  predicate Keeps<T(==)>(a: T, b: T, merged: T, open: T) {
    && (a != open ==> merged == a)
    && (b != open ==> merged == b)
    && (merged == open <==> a == open && b == open)
  }

  /** A family or class passes the merged list iff it passes both; only two open lists leave an open one. */
  ghost predicate BothAllow<T(!new)>(a: set<T>, b: set<T>, merged: set<T>) {
    && (merged == {} <==> a == {} && b == {})
    && forall x :: (merged == {} || x in merged) <==> (a == {} || x in a) && (b == {} || x in b)
  }

  /** The merged preference lists the same families in the same order, ties in key order, without gaps. */
  predicate KeepsPreference(declared: Ranks, merged: Ranks) {
    && merged.Keys == declared.Keys
    && (forall x | x in merged :: merged[x] < |merged|)
    && (forall x, y | x in declared && y in declared ::
          merged[x] < merged[y] <==> declared[x] < declared[y] || (declared[x] == declared[y] && x < y))
  }

  predicate KeepsPolicies(a: GpuContextDescriptor, b: GpuContextDescriptor, m: GpuContextDescriptor) {
    && Keeps(a.powerPreference, b.powerPreference, m.powerPreference, NoPreference)
    && Keeps(a.fallbackPolicy, b.fallbackPolicy, m.fallbackPolicy, AllowFallback)
    && Keeps(a.exactCandidate, b.exactCandidate, m.exactCandidate, None)
    && Keeps(a.adapterSelectionPolicy, b.adapterSelectionPolicy, m.adapterSelectionPolicy, Automatic)
    && Keeps(a.portabilityPolicy, b.portabilityPolicy, m.portabilityPolicy, AllowBackendSpecialized)
  }

  predicate KeepsPreferences(a: Ranks, b: Ranks, m: Ranks) {
    && (a != map[] ==> KeepsPreference(a, m))
    && (b != map[] ==> KeepsPreference(b, m))
    && (m == map[] <==> a == map[] && b == map[])
  }

  predicate KeepsChoices(a: GpuContextDescriptor, b: GpuContextDescriptor, m: GpuContextDescriptor) {
    KeepsPolicies(a, b, m) && KeepsPreferences(a.backendPreference, b.backendPreference, m.backendPreference)
  }

  predicate Says(entries: Entries, requirement: GpuCapabilityRequirement) {
    requirement.feature in entries && entries[requirement.feature] == requirement
  }

  /** Requirements win over preferences, and nothing is said that no side says. */
  predicate KeepsRequirements(a: Entries, b: Entries, m: Entries) {
    && m.Keys == a.Keys + b.Keys
    && forall f | f in m ::
         && (m[f].Required? <==> Says(a, Required(f)) || Says(b, Required(f)))
         && (m[f].Disabled? <==> Says(a, Disabled(f)) || Says(b, Disabled(f)))
         && (m[f].Preferred? ==> Says(a, m[f]) || Says(b, m[f]))
  }

  /** The greatest of the declared minimums. */
  predicate GreatestOf(a: Option<u64>, b: Option<u64>, m: Option<u64>) {
    && (m == a || m == b)
    && (a.Some? ==> m.Some? && a.value <= m.value)
    && (b.Some? ==> m.Some? && b.value <= m.value)
  }

  /** The least of the declared maximums. */
  predicate LeastOf(a: Option<u64>, b: Option<u64>, m: Option<u64>) {
    && (m == a || m == b)
    && (a.Some? ==> m.Some? && m.value <= a.value)
    && (b.Some? ==> m.Some? && m.value <= b.value)
  }

  function MinimumOf(limits: Limits, k: GpuLimitKind): Option<u64> {
    if k in limits then limits[k].minimum else None
  }

  function MaximumOf(limits: Limits, k: GpuLimitKind): Option<u64> {
    if k in limits then limits[k].maximum else None
  }

  /** Every kind keeps its tightest bounds, and a kind with none is not listed. */
  ghost predicate KeepsLimits(a: Limits, b: Limits, m: Limits) {
    forall k: GpuLimitKind ::
      && GreatestOf(MinimumOf(a, k), MinimumOf(b, k), MinimumOf(m, k))
      && LeastOf(MaximumOf(a, k), MaximumOf(b, k), MaximumOf(m, k))
      && (k in m <==> MinimumOf(m, k).Some? || MaximumOf(m, k).Some?)
  }

  predicate KeepsAlignments(a: Alignments, b: Alignments, m: Alignments) {
    && m.Keys == a.Keys + b.Keys
    && forall k | k in m ::
         && (k in a ==> m[k] <= a[k])
         && (k in b ==> m[k] <= b[k])
         && ((k in a && m[k] == a[k]) || (k in b && m[k] == b[k]))
  }

  /** The merged request declares what both sides declare together, and nothing else. */
  ghost predicate KeepsDeclarations(a: GpuContextDescriptor, b: GpuContextDescriptor, m: GpuContextDescriptor) {
    && KeepsChoices(a, b, m)
    && BothAllow(a.allowedBackends, b.allowedBackends, m.allowedBackends)
    && BothAllow(a.allowedAdapterClasses, b.allowedAdapterClasses, m.allowedAdapterClasses)
    && KeepsRequirements(a.requirements, b.requirements, m.requirements)
    && KeepsLimits(a.limits, b.limits, m.limits)
    && (forall wanted :: wanted in m.formatRoles <==> wanted in a.formatRoles || wanted in b.formatRoles)
    && KeepsAlignments(a.alignments, b.alignments, m.alignments)
  }

  // ---------------------------------------------------------------------------------------------
  // Validity
  // ---------------------------------------------------------------------------------------------

  /** Instrumentation is switched off, presentation is done without, anything else is worked around. */
  predicate FallbacksFit(d: GpuContextDescriptor) {
    forall f | f in d.requirements && d.requirements[f].Preferred? ::
      var fallback := d.requirements[f].fallback;
      && (f == TimestampQuery <==> fallback == DisableInstrumentation)
      && (f == Presentation <==> fallback == ContinueWithoutFeature)
  }

  /** No bound is zero, no minimum exceeds its maximum, and only allowed families are preferred. */
  predicate BoundsFit(d: GpuContextDescriptor) {
    && (forall k | k in d.limits ::
          && (d.limits[k].minimum.Some? ==> 0 < d.limits[k].minimum.value)
          && (d.limits[k].maximum.Some? ==> 0 < d.limits[k].maximum.value)
          && (d.limits[k].minimum.Some? && d.limits[k].maximum.Some? ==>
                d.limits[k].minimum.value <= d.limits[k].maximum.value))
    && (forall k | k in d.alignments :: 0 < d.alignments[k])
    && (forall x | x in d.backendPreference :: d.allowedBackends == {} || x in d.allowedBackends)
  }

  /** Validation refuses an unfit fallback before anything else, and every other misfit as a contradiction. */
  lemma ValidationRules(d: GpuContextDescriptor)
    ensures ValidationError(d) ==
            if !FallbacksFit(d) then Some(InvalidDegradation)
            else if !BoundsFit(d) then Some(ContradictoryRequest)
            else None
    ensures Valid(d) <==> FallbacksFit(d) && BoundsFit(d)
  {
    forall f | f in d.requirements && d.requirements[f].Preferred?
      ensures PreferredDegradationIsValid(f, d.requirements[f].fallback) <==>
                && (f == TimestampQuery <==> d.requirements[f].fallback == DisableInstrumentation)
                && (f == Presentation <==> d.requirements[f].fallback == ContinueWithoutFeature)
    {
    }
  }

  // ---------------------------------------------------------------------------------------------
  // The merge
  // ---------------------------------------------------------------------------------------------

  lemma ListsBothAllow<T(!new)>(a: set<T>, b: set<T>)
    requires !DisjointLists(a, b)
    ensures MergeAllowlist(a, b).Ok? && BothAllow(a, b, MergeAllowlist(a, b).value)
  {
    DisjointListsIff(a, b);
  }

  lemma PreferenceIsKept(declared: Ranks)
    ensures KeepsPreference(declared, Renumber(declared))
  {
    RenumberByPosition(declared);
    forall x, y | x in declared && y in declared
      ensures Renumber(declared)[x] < Renumber(declared)[y] <==>
                declared[x] < declared[y] || (declared[x] == declared[y] && x < y)
    {
      RenumberKeepsOrder(declared, x, y);
    }
  }

  lemma PreferencesAreKept(a: Ranks, b: Ranks)
    requires MergeBackendPreference(a, b).Ok?
    ensures KeepsPreferences(a, b, Renumber(MergeBackendPreference(a, b).value))
  {
    var preference := MergeBackendPreference(a, b).value;
    PreferenceIsKept(preference);
    SameKeysSameEmptiness(preference, Renumber(preference));
  }

  lemma SameKeysSameEmptiness(one: Ranks, other: Ranks)
    requires one.Keys == other.Keys
    ensures one == map[] <==> other == map[]
  {
    assert one == map[] <==> one.Keys == {};
    assert other == map[] <==> other.Keys == {};
  }

  lemma PowerIsKept(a: GpuPowerPreference, b: GpuPowerPreference)
    requires MergePowerPreference(a, b).Ok?
    ensures Keeps(a, b, MergePowerPreference(a, b).value, NoPreference)
  {
  }

  lemma FallbackIsKept(a: GpuSoftwareFallbackPolicy, b: GpuSoftwareFallbackPolicy)
    requires MergeFallbackPolicy(a, b).Ok?
    ensures Keeps(a, b, MergeFallbackPolicy(a, b).value, AllowFallback)
  {
  }

  lemma CandidateIsKept(a: Option<nat>, b: Option<nat>)
    requires MergeExactCandidate(a, b).Ok?
    ensures Keeps(a, b, MergeExactCandidate(a, b).value, None)
  {
  }

  lemma SelectionIsKept(a: GpuAdapterSelectionPolicy, b: GpuAdapterSelectionPolicy)
    ensures Keeps(a, b, MergeSelectionPolicy(a, b), Automatic)
  {
  }

  lemma PortabilityIsKept(a: GpuPortabilityPolicy, b: GpuPortabilityPolicy)
    ensures Keeps(a, b, MergePortabilityPolicy(a, b), AllowBackendSpecialized)
  {
  }

  lemma CombinedKeepsPolicies(a: GpuContextDescriptor, b: GpuContextDescriptor)
    requires Consistent(a, b)
    ensures KeepsPolicies(a, b, Combined(a, b))
  {
    PowerIsKept(a.powerPreference, b.powerPreference);
    FallbackIsKept(a.fallbackPolicy, b.fallbackPolicy);
    CandidateIsKept(a.exactCandidate, b.exactCandidate);
    SelectionIsKept(a.adapterSelectionPolicy, b.adapterSelectionPolicy);
    PortabilityIsKept(a.portabilityPolicy, b.portabilityPolicy);
  }

  lemma CombinedKeepsChoices(a: GpuContextDescriptor, b: GpuContextDescriptor)
    requires Consistent(a, b)
    ensures KeepsChoices(a, b, Combined(a, b))
  {
    CombinedKeepsPolicies(a, b);
    PreferencesAreKept(a.backendPreference, b.backendPreference);
  }

  lemma CombinedKeepsRequirements(a: Entries, b: Entries)
    requires Mergeable(a, b)
    ensures KeepsRequirements(a, b, Join(a, b))
  {
    JoinIsPointwise(a, b);
    forall f | f in Join(a, b)
      ensures var m := Join(a, b);
              && (m[f].Required? <==> Says(a, Required(f)) || Says(b, Required(f)))
              && (m[f].Disabled? <==> Says(a, Disabled(f)) || Says(b, Disabled(f)))
              && (m[f].Preferred? ==> Says(a, m[f]) || Says(b, m[f]))
    {
      assert Ok(Lookup(Join(a, b), f)) == Combine(Lookup(a, f), Lookup(b, f));
    }
  }

  lemma CombinedKeepsLimits(a: Limits, b: Limits)
    ensures KeepsLimits(a, b, JoinLimits(a, b))
  {
    ConstraintOfJoin(a, b);
    forall k: GpuLimitKind
      ensures MinimumOf(JoinLimits(a, b), k) == JoinMinimum(MinimumOf(a, k), MinimumOf(b, k))
      ensures MaximumOf(JoinLimits(a, b), k) == JoinMaximum(MaximumOf(a, k), MaximumOf(b, k))
    {
      assert Constraint(JoinLimits(a, b), k) == JoinConstraint(Constraint(a, k), Constraint(b, k));
    }
  }

  lemma CombinedKeepsAlignments(a: Alignments, b: Alignments)
    ensures KeepsAlignments(a, b, JoinAlignments(a, b))
  {
  }

  lemma CombinedKeepsDeclarations(a: GpuContextDescriptor, b: GpuContextDescriptor)
    requires Consistent(a, b)
    ensures KeepsDeclarations(a, b, Combined(a, b))
  {
    ConsistentIff(a, b);
    CombinedKeepsChoices(a, b);
    ListsBothAllow(a.allowedBackends, b.allowedBackends);
    ListsBothAllow(a.allowedAdapterClasses, b.allowedAdapterClasses);
    CombinedKeepsRequirements(a.requirements, b.requirements);
    CombinedKeepsLimits(a.limits, b.limits);
    CombinedKeepsAlignments(a.alignments, b.alignments);
  }

  predicate SameOrder(one: Ranks, other: Ranks) {
    one.Keys == other.Keys && forall x, y | x in one && y in one :: one[x] < one[y] <==> other[x] < other[y]
  }

  /** Families listed so that each has its position for rank. */
  predicate RankedByPosition(list: seq<GpuBackendFamily>, ranks: Ranks) {
    && |list| == |ranks|
    && (forall k | 0 <= k < |list| :: list[k] in ranks && ranks[list[k]] == k)
    && forall x | x in ranks :: x in list
  }

  lemma RenumberingListsFamilies(declared: Ranks)
    ensures RankedByPosition(Ordered(declared), Renumber(declared))
  {
    OrderedListsKeys(declared);
    OrderedLength(declared);
    RenumberByPosition(declared);
    assert |declared.Keys| == |declared| && |Renumber(declared).Keys| == |Renumber(declared)|;
  }

  /** Order and the absence of gaps fix every rank. */
  lemma OrderFixesRanks(list: seq<GpuBackendFamily>, positions: Ranks, merged: Ranks)
    requires RankedByPosition(list, positions) && SameOrder(positions, merged)
    requires forall x | x in merged :: merged[x] < |merged|
    ensures merged == positions
  {
    assert |positions.Keys| == |positions| && |merged.Keys| == |merged|;
    AscendingRanksArePositions(list, merged);
    forall x | x in merged
      ensures merged[x] == positions[x]
    {
      var i :| 0 <= i < |list| && list[i] == x;
    }
  }

  lemma PreferenceIsFixed(declared: Ranks, merged: Ranks)
    requires KeepsPreference(declared, merged)
    ensures merged == Renumber(declared)
  {
    PreferenceIsKept(declared);
    RenumberingListsFamilies(declared);
    OrderFixesRanks(Ordered(declared), Renumber(declared), merged);
  }

  lemma AscendingRanksArePositions(list: seq<GpuBackendFamily>, ranks: Ranks)
    requires |list| == |ranks| && forall k | 0 <= k < |list| :: list[k] in ranks
    requires forall x | x in ranks :: ranks[x] < |ranks|
    requires forall p, q | 0 <= p < q < |list| :: ranks[list[p]] < ranks[list[q]]
    ensures forall i | 0 <= i < |list| :: ranks[list[i]] == i
  {
    var values: seq<nat> := seq(|list|, k requires 0 <= k < |list| => ranks[list[k]]);
    forall i | 0 <= i < |list|
      ensures ranks[list[i]] == i
    {
      FillsInitialSegment(values, i);
    }
  }

  lemma ChoicesAreFixed(a: GpuContextDescriptor, b: GpuContextDescriptor, m: GpuContextDescriptor)
    requires Consistent(a, b) && KeepsChoices(a, b, m)
    ensures var c := Combined(a, b);
            && m.powerPreference == c.powerPreference && m.fallbackPolicy == c.fallbackPolicy
            && m.exactCandidate == c.exactCandidate && m.adapterSelectionPolicy == c.adapterSelectionPolicy
            && m.portabilityPolicy == c.portabilityPolicy && m.backendPreference == c.backendPreference
  {
    CombinedKeepsChoices(a, b);
    if a.backendPreference != map[] {
      PreferenceIsFixed(a.backendPreference, m.backendPreference);
    } else if b.backendPreference != map[] {
      PreferenceIsFixed(b.backendPreference, m.backendPreference);
    }
  }

  lemma ListIsFixed<T(!new)>(a: set<T>, b: set<T>, m: set<T>, n: set<T>)
    requires BothAllow(a, b, m) && BothAllow(a, b, n)
    ensures m == n
  {
    if m != {} {
      forall x
        ensures x in m <==> x in n
      {
      }
    }
  }

  lemma RequirementsAreFixed(a: Entries, b: Entries, m: Entries, n: Entries)
    requires Mergeable(a, b) && KeepsRequirements(a, b, m) && KeepsRequirements(a, b, n)
    ensures m == n
  {
    forall f | f in m
      ensures f in n && m[f] == n[f]
    {
      assert !Conflict(a, b, f);
    }
  }

  lemma TightestIsUnique(a: Option<u64>, b: Option<u64>, m: Option<u64>, n: Option<u64>)
    ensures GreatestOf(a, b, m) && GreatestOf(a, b, n) ==> m == n
    ensures LeastOf(a, b, m) && LeastOf(a, b, n) ==> m == n
  {
  }

  lemma SameBounds(m: Limits, n: Limits)
    requires forall k: GpuLimitKind ::
               && MinimumOf(m, k) == MinimumOf(n, k) && MaximumOf(m, k) == MaximumOf(n, k)
               && (k in m <==> k in n)
    ensures m == n
  {
    forall k: GpuLimitKind | k in m
      ensures k in n && m[k] == n[k]
    {
      assert MinimumOf(m, k) == MinimumOf(n, k);
    }
    forall k: GpuLimitKind | k in n
      ensures k in m
    {
      assert MinimumOf(m, k) == MinimumOf(n, k);
    }
  }

  lemma LimitsAreFixed(a: Limits, b: Limits, m: Limits, n: Limits)
    requires KeepsLimits(a, b, m) && KeepsLimits(a, b, n)
    ensures m == n
  {
    forall k: GpuLimitKind
      ensures MinimumOf(m, k) == MinimumOf(n, k) && MaximumOf(m, k) == MaximumOf(n, k)
      ensures k in m <==> k in n
    {
      TightestIsUnique(MinimumOf(a, k), MinimumOf(b, k), MinimumOf(m, k), MinimumOf(n, k));
      TightestIsUnique(MaximumOf(a, k), MaximumOf(b, k), MaximumOf(m, k), MaximumOf(n, k));
    }
    SameBounds(m, n);
  }

  lemma AlignmentsAreFixed(a: Alignments, b: Alignments, m: Alignments, n: Alignments)
    requires KeepsAlignments(a, b, m) && KeepsAlignments(a, b, n)
    ensures m == n
  {
  }

  /** Both sides' declarations leave one merged request. */
  lemma DeclarationsFixTheMerge(a: GpuContextDescriptor, b: GpuContextDescriptor, m: GpuContextDescriptor)
    requires Consistent(a, b) && KeepsDeclarations(a, b, m)
    ensures m == Combined(a, b)
  {
    var c := Combined(a, b);
    CombinedKeepsDeclarations(a, b);
    ChoicesAreFixed(a, b, m);
    ListIsFixed(a.allowedBackends, b.allowedBackends, m.allowedBackends, c.allowedBackends);
    ListIsFixed(
      a.allowedAdapterClasses, b.allowedAdapterClasses, m.allowedAdapterClasses, c.allowedAdapterClasses);
    RequirementsAreFixed(a.requirements, b.requirements, m.requirements, c.requirements);
    LimitsAreFixed(a.limits, b.limits, m.limits, c.limits);
    AlignmentsAreFixed(a.alignments, b.alignments, m.alignments, c.alignments);
    assert m.formatRoles == c.formatRoles;
  }

  /**
   * Two requests merge into the one request that declares what both declare, iff they do not
   * contradict each other and that request is valid.
   */
  lemma MergesIff(a: GpuContextDescriptor, b: GpuContextDescriptor, m: GpuContextDescriptor)
    ensures MergeDescriptors(a, b) == Ok(m) <==>
              !Contradict(a, b) && KeepsDeclarations(a, b, m) && FallbacksFit(m) && BoundsFit(m)
  {
    ConsistentIff(a, b);
    ValidationRules(m);
    if Consistent(a, b) {
      CombinedKeepsDeclarations(a, b);
      if KeepsDeclarations(a, b, m) {
        DeclarationsFixTheMerge(a, b, m);
      }
    }
  }

  /** A merge is refused for a contradiction, unless an unfit fallback is all that stands in its way first. */
  lemma MergeRefusals(a: GpuContextDescriptor, b: GpuContextDescriptor, m: GpuContextDescriptor)
    requires KeepsDeclarations(a, b, m)
    ensures MergeDescriptors(a, b) ==
            if Contradict(a, b) then Err(ContradictoryRequest)
            else if !FallbacksFit(m) then Err(InvalidDegradation)
            else if !BoundsFit(m) then Err(ContradictoryRequest)
            else Ok(m)
  {
    ConsistentIff(a, b);
    if Consistent(a, b) {
      DeclarationsFixTheMerge(a, b, m);
      ValidationRules(m);
    }
  }

  /** With nothing else declared, two choices merge iff they are equal. */
  lemma RivalChoicesNeverMerge(
      power: GpuPowerPreference, rival: GpuPowerPreference, policy: GpuSoftwareFallbackPolicy,
      opposite: GpuSoftwareFallbackPolicy, candidate: nat, other: nat, first: Ranks, second: Ranks)
    requires power != NoPreference && rival != NoPreference
    requires policy != AllowFallback && opposite != AllowFallback
    requires first != map[] && second != map[]
    ensures MergeDescriptors(EMPTY.(powerPreference := power), EMPTY.(powerPreference := rival)).Ok?
            <==> power == rival
    ensures MergeDescriptors(EMPTY.(fallbackPolicy := policy), EMPTY.(fallbackPolicy := opposite)).Ok?
            <==> policy == opposite
    ensures MergeDescriptors(EMPTY.(exactCandidate := Some(candidate)), EMPTY.(exactCandidate := Some(other))).Ok?
            <==> candidate == other
    ensures MergeDescriptors(EMPTY.(backendPreference := first), EMPTY.(backendPreference := second)).Ok?
            <==> first == second
  {
    OnlyRivalsAreRefused(EMPTY.(powerPreference := power), EMPTY.(powerPreference := rival));
    OnlyRivalsAreRefused(EMPTY.(fallbackPolicy := policy), EMPTY.(fallbackPolicy := opposite));
    OnlyRivalsAreRefused(EMPTY.(exactCandidate := Some(candidate)), EMPTY.(exactCandidate := Some(other)));
    OnlyRivalsAreRefused(EMPTY.(backendPreference := first), EMPTY.(backendPreference := second));
    PairIs(power, rival, HighPerformance, LowPower);
    PairIs(policy, opposite, RequireFallback, ForbidFallback);
  }

  /** Requests that declare choices and nothing else merge unless two choices are rivals. */
  lemma OnlyRivalsAreRefused(a: GpuContextDescriptor, b: GpuContextDescriptor)
    requires a.requirements == b.requirements == map[] && a.limits == b.limits == map[]
    requires a.allowedBackends == b.allowedBackends == {} && a.allowedAdapterClasses == b.allowedAdapterClasses == {}
    requires a.formatRoles == b.formatRoles == {} && a.alignments == b.alignments == map[]
    ensures MergeDescriptors(a, b).Ok? <==> !RivalChoices(a, b)
  {
    ConsistentIff(a, b);
    if Consistent(a, b) {
      CombinedKeepsDeclarations(a, b);
      ValidationRules(Combined(a, b));
    }
  }
}
