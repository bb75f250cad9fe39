/** Capability requirements, their merge, and their admission against supported features. */
module Capability {
  import opened Common

  const FEATURE_COUNT: nat := 24

  /**
   * A feature is its position in the declaration order of the source enumeration, which is also its
   * key order in the ordered maps and sets that hold features.
   */
  type GpuCapabilityFeature = f: nat | f < 24

  const Compute: GpuCapabilityFeature := 0
  const RenderPipeline: GpuCapabilityFeature := 1
  const Copy: GpuCapabilityFeature := 2
  const IndirectExecution: GpuCapabilityFeature := 3
  const IndirectFirstInstance: GpuCapabilityFeature := 4
  const StorageTexture: GpuCapabilityFeature := 5
  const TextureBindingArray: GpuCapabilityFeature := 6
  const BufferBindingArray: GpuCapabilityFeature := 7
  const StorageResourceBindingArray: GpuCapabilityFeature := 8
  const UniformBufferBindingArray: GpuCapabilityFeature := 9
  const TextureBindingArrayNonUniformIndexing: GpuCapabilityFeature := 10
  const StorageBufferBindingArrayNonUniformIndexing: GpuCapabilityFeature := 11
  const StorageTextureBindingArrayNonUniformIndexing: GpuCapabilityFeature := 12
  const DepthAttachment: GpuCapabilityFeature := 13
  const DepthBiasClamp: GpuCapabilityFeature := 14
  const DepthClipControl: GpuCapabilityFeature := 15
  const DualSourceBlending: GpuCapabilityFeature := 16
  const MultisampleArray: GpuCapabilityFeature := 17
  const Multiview: GpuCapabilityFeature := 18
  const ClipDistances: GpuCapabilityFeature := 19
  const PrimitiveIndex: GpuCapabilityFeature := 20
  const ShaderF16: GpuCapabilityFeature := 21
  const TimestampQuery: GpuCapabilityFeature := 22
  const Presentation: GpuCapabilityFeature := 23

  datatype GpuPreferredFallback = ContinueWithoutFeature | DisableInstrumentation | SelectAlternativeWork

  datatype GpuCapabilityRequirement =
    | Required(feature: GpuCapabilityFeature)
    | Preferred(feature: GpuCapabilityFeature, fallback: GpuPreferredFallback)
    | Disabled(feature: GpuCapabilityFeature)

  datatype RequirementCause = AmbiguousPreferredFallback | ConflictingStrength

  datatype RequirementError = RequirementError(feature: GpuCapabilityFeature, cause: RequirementCause)

  function MergeRequirement(
      left: GpuCapabilityRequirement, right: GpuCapabilityRequirement):
      Result<GpuCapabilityRequirement, RequirementCause>
  {
    match (left, right)
    case (Required(feature), Required(_)) => Ok(Required(feature))
    case (Required(feature), Preferred(_, _)) => Ok(Required(feature))
    case (Preferred(feature, _), Required(_)) => Ok(Required(feature))
    case (Preferred(feature, l), Preferred(_, r)) =>
      if l == r then Ok(Preferred(feature, l)) else Err(AmbiguousPreferredFallback)
    case (Disabled(feature), Disabled(_)) => Ok(Disabled(feature))
    case (Required(_), Disabled(_)) => Err(ConflictingStrength)
    case (Disabled(_), Required(_)) => Err(ConflictingStrength)
    case (Preferred(_, _), Disabled(_)) => Err(ConflictingStrength)
    case (Disabled(_), Preferred(_, _)) => Err(ConflictingStrength)
  }

  // ---------------------------------------------------------------------------------------------
  // Requirement maps
  // ---------------------------------------------------------------------------------------------

  /** Entries are stored under the feature they speak about. */
  type Entries = e: map<GpuCapabilityFeature, GpuCapabilityRequirement> |
    forall f | f in e :: e[f].feature == f

  function InsertEntry(entries: Entries, requirement: GpuCapabilityRequirement): Result<Entries, RequirementError> {
    var feature := requirement.feature;
    if feature !in entries then Ok(entries[feature := requirement])
    else
      match MergeRequirement(entries[feature], requirement)
      case Ok(merged) => Ok(entries[feature := merged])
      case Err(cause) => Err(RequirementError(feature, cause))
  }

  function Lookup(entries: Entries, feature: GpuCapabilityFeature): Option<GpuCapabilityRequirement> {
    if feature in entries then Some(entries[feature]) else None
  }

  /** The merge at one feature, where either side may be silent. */
  function Combine(left: Option<GpuCapabilityRequirement>, right: Option<GpuCapabilityRequirement>):
    Result<Option<GpuCapabilityRequirement>, RequirementCause>
  {
    match (left, right)
    case (None, _) => Ok(right)
    case (_, None) => Ok(left)
    case (Some(l), Some(r)) =>
      match MergeRequirement(l, r)
      case Ok(merged) => Ok(Some(merged))
      case Err(cause) => Err(cause)
  }

  predicate Conflict(a: Entries, b: Entries, feature: GpuCapabilityFeature) {
    Combine(Lookup(a, feature), Lookup(b, feature)).Err?
  }

  /** The first conflicting feature at or after position `i` of the key order. */
  function FirstConflict(a: Entries, b: Entries, i: nat): Option<GpuCapabilityFeature>
    requires i <= FEATURE_COUNT
    decreases FEATURE_COUNT - i
  {
    if i == FEATURE_COUNT then None
    else if Conflict(a, b, i) then Some(i)
    else FirstConflict(a, b, i + 1)
  }

  lemma {:induction false} FirstConflictIsFirst(a: Entries, b: Entries, i: nat)
    requires i <= FEATURE_COUNT
    ensures FirstConflict(a, b, i).None? <==> forall f: GpuCapabilityFeature | f >= i :: !Conflict(a, b, f)
    ensures FirstConflict(a, b, i).Some? ==>
              && Conflict(a, b, FirstConflict(a, b, i).value)
              && FirstConflict(a, b, i).value >= i
              && forall f: GpuCapabilityFeature | i <= f < FirstConflict(a, b, i).value :: !Conflict(a, b, f)
    decreases FEATURE_COUNT - i
  {
    if i < FEATURE_COUNT {
      FirstConflictIsFirst(a, b, i + 1);
    }
  }

  predicate Mergeable(a: Entries, b: Entries) {
    forall f | f in a :: !Conflict(a, b, f)
  }

  function Join(a: Entries, b: Entries): Entries
    requires Mergeable(a, b)
  {
    map f | f in a.Keys + b.Keys :: Combine(Lookup(a, f), Lookup(b, f)).value.value
  }

  lemma JoinIsPointwise(a: Entries, b: Entries)
    requires Mergeable(a, b)
    ensures forall f: GpuCapabilityFeature :: Ok(Lookup(Join(a, b), f)) == Combine(Lookup(a, f), Lookup(b, f))
  {
  }

  /** The pointwise merge, failing on the first conflicting feature in key order. */
  function MergeEntries(a: Entries, b: Entries): Result<Entries, RequirementError> {
    FirstConflictIsFirst(a, b, 0);
    match FirstConflict(a, b, 0)
    case Some(f) => Err(RequirementError(f, Combine(Lookup(a, f), Lookup(b, f)).error))
    case None => Ok(Join(a, b))
  }

  /** `GpuCapabilityRequirements`: a map updated in place by `Insert`. */
  class GpuCapabilityRequirements {
    var entries: Entries

    constructor ()
      ensures entries == map[]
    {
      entries := map[];
    }

    method Insert(requirement: GpuCapabilityRequirement) returns (r: Result<(), RequirementError>)
      modifies this
      ensures match InsertEntry(old(entries), requirement)
              case Ok(next) => r == Ok(()) && entries == next
              case Err(error) => r == Err(error) && entries == old(entries)
    {
      var feature := requirement.feature;
      if feature !in entries {
        entries := entries[feature := requirement];
        return Ok(());
      }
      var merged := MergeRequirement(entries[feature], requirement);
      if merged.Err? {
        return Err(RequirementError(feature, merged.error));
      }
      entries := entries[feature := merged.value];
      return Ok(());
    }

    /** Clone `this`, then insert the entries of `other` in key order. */
    method Merge(other: GpuCapabilityRequirements) returns (r: Result<GpuCapabilityRequirements, RequirementError>)
      ensures unchanged(this) && unchanged(other)
      ensures match MergeEntries(entries, other.entries)
              case Ok(joined) => r.Ok? && fresh(r.value) && r.value.entries == joined
              case Err(error) => r == Err(error)
    {
      var merged := new GpuCapabilityRequirements();
      merged.entries := entries;
      for feature := 0 to FEATURE_COUNT
        invariant fresh(merged)
        invariant forall f: GpuCapabilityFeature | f < feature :: !Conflict(entries, other.entries, f)
        invariant MergedBelow(merged.entries, entries, other.entries, feature)
      {
        MergeStep(merged.entries, entries, other.entries, feature);
        if feature in other.entries {
          var inserted := merged.Insert(other.entries[feature]);
          if inserted.Err? {
            FirstConflictIsFirst(entries, other.entries, 0);
            return Err(inserted.error);
          }
        }
      }
      FirstConflictIsFirst(entries, other.entries, 0);
      JoinIsPointwise(entries, other.entries);
      SameLookups(merged.entries, Join(entries, other.entries));
      return Ok(merged);
    }
  }

  /** `merged` already holds the join below `i` and still holds `a` from there on. */
  predicate MergedBelow(merged: Entries, a: Entries, b: Entries, i: nat) {
    forall f: GpuCapabilityFeature ::
      if f < i then Ok(Lookup(merged, f)) == Combine(Lookup(a, f), Lookup(b, f))
      else Lookup(merged, f) == Lookup(a, f)
  }

  lemma MergeStep(merged: Entries, a: Entries, b: Entries, i: GpuCapabilityFeature)
    requires MergedBelow(merged, a, b, i)
    ensures i !in b ==> MergedBelow(merged, a, b, i + 1) && !Conflict(a, b, i)
    ensures i in b ==>
              match InsertEntry(merged, b[i])
              case Ok(next) => MergedBelow(next, a, b, i + 1) && !Conflict(a, b, i)
              case Err(error) =>
                Conflict(a, b, i) && error == RequirementError(i, Combine(Lookup(a, i), Lookup(b, i)).error)
  {
  }

  lemma SameLookups(a: Entries, b: Entries)
    requires forall f: GpuCapabilityFeature :: Lookup(a, f) == Lookup(b, f)
    ensures a == b
  {
    forall f: GpuCapabilityFeature
      ensures f in a <==> f in b
      ensures f in a ==> a[f] == b[f]
    {
      assert Lookup(a, f) == Lookup(b, f);
    }
  }

  // ---------------------------------------------------------------------------------------------
  // Algebra of the merge
  // ---------------------------------------------------------------------------------------------

  lemma CombineCommutes(a: Entries, b: Entries, f: GpuCapabilityFeature)
    ensures Combine(Lookup(a, f), Lookup(b, f)) == Combine(Lookup(b, f), Lookup(a, f))
  {
  }

  lemma {:induction false} FirstConflictCommutes(a: Entries, b: Entries, i: nat)
    requires i <= FEATURE_COUNT
    ensures FirstConflict(a, b, i) == FirstConflict(b, a, i)
    decreases FEATURE_COUNT - i
  {
    if i < FEATURE_COUNT {
      CombineCommutes(a, b, i);
      FirstConflictCommutes(a, b, i + 1);
    }
  }

  lemma JoinCommutes(a: Entries, b: Entries)
    requires Mergeable(a, b) && Mergeable(b, a)
    ensures Join(a, b) == Join(b, a)
  {
    JoinIsPointwise(a, b);
    JoinIsPointwise(b, a);
    forall f: GpuCapabilityFeature
      ensures Lookup(Join(a, b), f) == Lookup(Join(b, a), f)
    {
      CombineCommutes(a, b, f);
      assert Combine(Lookup(a, f), Lookup(b, f)) == Combine(Lookup(b, f), Lookup(a, f));
    }
    SameLookups(Join(a, b), Join(b, a));
  }

  /** Merge is commutative down to the feature and cause it reports. */
  lemma MergeEntriesCommutes(a: Entries, b: Entries)
    ensures MergeEntries(a, b) == MergeEntries(b, a)
  {
    FirstConflictCommutes(a, b, 0);
    MergeEntriesOkIffMergeable(a, b);
    MergeEntriesOkIffMergeable(b, a);
    if MergeEntries(a, b).Ok? {
      JoinCommutes(a, b);
    } else {
      CombineCommutes(a, b, FirstConflict(a, b, 0).value);
    }
  }

  lemma MergeEntriesOkIffMergeable(a: Entries, b: Entries)
    ensures MergeEntries(a, b).Ok? <==> Mergeable(a, b)
  {
    FirstConflictIsFirst(a, b, 0);
  }

  function AndThenMerge(
      left: Result<GpuCapabilityRequirement, RequirementCause>, right: GpuCapabilityRequirement):
      Result<GpuCapabilityRequirement, RequirementCause>
  {
    match left
    case Ok(merged) => MergeRequirement(merged, right)
    case Err(cause) => Err(cause)
  }

  /** `b` is a preference squeezed between a hard requirement and a rival preference. */
  predicate Squeezed(a: GpuCapabilityRequirement, b: GpuCapabilityRequirement, c: GpuCapabilityRequirement) {
    && b.Preferred?
    && ((a.Required? && c.Preferred? && c.fallback != b.fallback)
        || (c.Required? && a.Preferred? && a.fallback != b.fallback))
  }

  /**
   * Raw requirements do not merge associatively, and this is exactly when: both groupings agree
   * unless a preference sits between a hard requirement and a rival preference.
   */
  lemma RequirementMergeAssociatesIff(
      a: GpuCapabilityRequirement, b: GpuCapabilityRequirement, c: GpuCapabilityRequirement)
    requires a.feature == b.feature == c.feature
    ensures var left := AndThenMerge(MergeRequirement(a, b), c);
            var right := AndThenMerge(MergeRequirement(b, c), a);
            && (left.Ok? && right.Ok? ==> left == right)
            && ((left.Ok? <==> right.Ok?) <==> !Squeezed(a, b, c))
  {
  }

  /** The witness: one grouping of these three succeeds, the other is refused. */
  lemma RequirementMergeIsNotAssociative()
    ensures var (r, x, y) := (Required(Compute), Preferred(Compute, ContinueWithoutFeature),
                              Preferred(Compute, DisableInstrumentation));
            && AndThenMerge(MergeRequirement(r, x), y) == Ok(r)
            && AndThenMerge(MergeRequirement(x, y), r) == Err(AmbiguousPreferredFallback)
  {
  }

  function AndThenCombine(
      left: Result<Option<GpuCapabilityRequirement>, RequirementCause>, right: Option<GpuCapabilityRequirement>):
      Result<Option<GpuCapabilityRequirement>, RequirementCause>
  {
    match left
    case Ok(merged) => Combine(merged, right)
    case Err(cause) => Err(cause)
  }

  predicate SqueezedAt(a: Entries, b: Entries, c: Entries, feature: GpuCapabilityFeature) {
    feature in a && feature in b && feature in c && Squeezed(a[feature], b[feature], c[feature])
  }

  /** What the three sets say about one feature. */
  function StatedAt(a: Entries, b: Entries, c: Entries, f: GpuCapabilityFeature): set<GpuCapabilityRequirement> {
    (if f in a then {a[f]} else {}) + (if f in b then {b[f]} else {}) + if f in c then {c[f]} else {}
  }

  /** Disabled against anything else, or rival preferences with no hard requirement to overrule them. */
  predicate RefusedAt(a: Entries, b: Entries, c: Entries, f: GpuCapabilityFeature) {
    var stated := StatedAt(a, b, c, f);
    || (exists p, q | p in stated && q in stated :: p.Disabled? && !q.Disabled?)
    || (Required(f) !in stated && exists p, q | p in stated && q in stated :: p.Preferred? && q.Preferred? && p != q)
  }

  /**
   * At one feature: a refusal fails both groupings, a squeezed preference exactly the one that leaves
   * it to its rival.
   */
  lemma GroupingsAt(a: Entries, b: Entries, c: Entries, f: GpuCapabilityFeature)
    ensures var left := AndThenCombine(Combine(Lookup(a, f), Lookup(b, f)), Lookup(c, f));
            var right := AndThenCombine(Combine(Lookup(b, f), Lookup(c, f)), Lookup(a, f));
            && (left.Err? <==> RefusedAt(a, b, c, f) || (SqueezedAt(a, b, c, f) && c[f].Required?))
            && (right.Err? <==> RefusedAt(a, b, c, f) || (SqueezedAt(a, b, c, f) && a[f].Required?))
  {
    var stated := StatedAt(a, b, c, f);
    if f in a {
      assert a[f] in stated;
    }
    if f in b {
      assert b[f] in stated;
    }
    if f in c {
      assert c[f] in stated;
    }
  }

  lemma CombineAssociatesAt(a: Entries, b: Entries, c: Entries, f: GpuCapabilityFeature)
    ensures var left := AndThenCombine(Combine(Lookup(a, f), Lookup(b, f)), Lookup(c, f));
            var right := AndThenCombine(Combine(Lookup(b, f), Lookup(c, f)), Lookup(a, f));
            && (left.Ok? && right.Ok? ==> left == right)
            && ((left.Ok? <==> right.Ok?) <==> !SqueezedAt(a, b, c, f))
            && Combine(Lookup(b, f), Lookup(a, f)).Ok? == Combine(Lookup(a, f), Lookup(b, f)).Ok?
  {
  }

  /** Both groupings of three requirement sets, with definedness. */
  predicate LeftGroups(a: Entries, b: Entries, c: Entries) {
    Mergeable(a, b) && Mergeable(Join(a, b), c)
  }

  predicate RightGroups(a: Entries, b: Entries, c: Entries) {
    Mergeable(b, c) && Mergeable(a, Join(b, c))
  }

  lemma LeftGroupsPointwise(a: Entries, b: Entries, c: Entries)
    ensures LeftGroups(a, b, c)
            <==> forall f: GpuCapabilityFeature ::
                   AndThenCombine(Combine(Lookup(a, f), Lookup(b, f)), Lookup(c, f)).Ok?
    ensures LeftGroups(a, b, c) ==>
              forall f: GpuCapabilityFeature ::
                Ok(Lookup(Join(Join(a, b), c), f))
                == AndThenCombine(Combine(Lookup(a, f), Lookup(b, f)), Lookup(c, f))
  {
    if forall f: GpuCapabilityFeature :: AndThenCombine(Combine(Lookup(a, f), Lookup(b, f)), Lookup(c, f)).Ok? {
      forall f: GpuCapabilityFeature
        ensures !Conflict(a, b, f)
      {
        assert AndThenCombine(Combine(Lookup(a, f), Lookup(b, f)), Lookup(c, f)).Ok?;
      }
    }
    if Mergeable(a, b) {
      JoinIsPointwise(a, b);
      forall f: GpuCapabilityFeature
        ensures AndThenCombine(Combine(Lookup(a, f), Lookup(b, f)), Lookup(c, f))
                == Combine(Lookup(Join(a, b), f), Lookup(c, f))
      {
        assert Ok(Lookup(Join(a, b), f)) == Combine(Lookup(a, f), Lookup(b, f));
      }
      MergeablePointwise(Join(a, b), c);
      if Mergeable(Join(a, b), c) {
        JoinIsPointwise(Join(a, b), c);
      }
    }
  }

  lemma MergeablePointwise(a: Entries, b: Entries)
    ensures Mergeable(a, b) <==> forall f: GpuCapabilityFeature :: Combine(Lookup(a, f), Lookup(b, f)).Ok?
    ensures Mergeable(a, b) <==> Mergeable(b, a)
    ensures Mergeable(a, b) ==> Join(a, b) == Join(b, a)
  {
    MergeEntriesCommutes(a, b);
    MergeEntriesOkIffMergeable(a, b);
    MergeEntriesOkIffMergeable(b, a);
    if forall f: GpuCapabilityFeature :: Combine(Lookup(a, f), Lookup(b, f)).Ok? {
      forall f | f in a
        ensures !Conflict(a, b, f)
      {
        assert Combine(Lookup(a, f), Lookup(b, f)).Ok?;
      }
    }
  }

  lemma RightGroupsMirror(a: Entries, b: Entries, c: Entries)
    ensures RightGroups(a, b, c) <==> LeftGroups(b, c, a)
    ensures RightGroups(a, b, c) ==> Join(a, Join(b, c)) == Join(Join(b, c), a)
  {
    if Mergeable(b, c) {
      MergeablePointwise(a, Join(b, c));
    }
  }

  predicate SqueezedFromLeft(a: Entries, b: Entries, c: Entries, f: GpuCapabilityFeature) {
    SqueezedAt(a, b, c, f) && a[f].Required?
  }

  predicate SqueezedFromRight(a: Entries, b: Entries, c: Entries, f: GpuCapabilityFeature) {
    SqueezedAt(a, b, c, f) && c[f].Required?
  }

  lemma LeftGroupsIff(a: Entries, b: Entries, c: Entries)
    ensures LeftGroups(a, b, c)
            <==> forall f: GpuCapabilityFeature :: !RefusedAt(a, b, c, f) && !SqueezedFromRight(a, b, c, f)
  {
    LeftGroupsPointwise(a, b, c);
    forall f: GpuCapabilityFeature
      ensures AndThenCombine(Combine(Lookup(a, f), Lookup(b, f)), Lookup(c, f)).Ok?
              <==> !RefusedAt(a, b, c, f) && !SqueezedFromRight(a, b, c, f)
    {
      GroupingsAt(a, b, c, f);
    }
  }

  lemma RightGroupsIff(a: Entries, b: Entries, c: Entries)
    ensures RightGroups(a, b, c)
            <==> forall f: GpuCapabilityFeature :: !RefusedAt(a, b, c, f) && !SqueezedFromLeft(a, b, c, f)
  {
    RightGroupsMirror(a, b, c);
    LeftGroupsPointwise(b, c, a);
    forall f: GpuCapabilityFeature
      ensures AndThenCombine(Combine(Lookup(b, f), Lookup(c, f)), Lookup(a, f)).Ok?
              <==> !RefusedAt(a, b, c, f) && !SqueezedFromLeft(a, b, c, f)
    {
      GroupingsAt(a, b, c, f);
    }
  }

  lemma GroupingsThatSucceedAgree(a: Entries, b: Entries, c: Entries)
    requires LeftGroups(a, b, c) && RightGroups(a, b, c)
    ensures Join(Join(a, b), c) == Join(a, Join(b, c))
  {
    LeftGroupsPointwise(a, b, c);
    RightGroupsMirror(a, b, c);
    LeftGroupsPointwise(b, c, a);
    forall f: GpuCapabilityFeature
      ensures Lookup(Join(Join(a, b), c), f) == Lookup(Join(Join(b, c), a), f)
    {
      CombineAssociatesAt(a, b, c, f);
    }
    SameLookups(Join(Join(a, b), c), Join(Join(b, c), a));
  }

  /**
   * Whole sets: groupings that both succeed agree; and one succeeds exactly when the other does iff
   * some feature is refused outright, or preferences are squeezed by a hard requirement on the left
   * and by one on the right, or by neither.
   */
  lemma MergeEntriesAssociates(a: Entries, b: Entries, c: Entries)
    ensures LeftGroups(a, b, c) && RightGroups(a, b, c) ==> Join(Join(a, b), c) == Join(a, Join(b, c))
    ensures (LeftGroups(a, b, c) <==> RightGroups(a, b, c))
            <==> || (exists f: GpuCapabilityFeature :: RefusedAt(a, b, c, f))
                 || ((exists f: GpuCapabilityFeature :: SqueezedFromLeft(a, b, c, f))
                     <==> exists f: GpuCapabilityFeature :: SqueezedFromRight(a, b, c, f))
  {
    LeftGroupsIff(a, b, c);
    RightGroupsIff(a, b, c);
    if LeftGroups(a, b, c) && RightGroups(a, b, c) {
      GroupingsThatSucceedAgree(a, b, c);
    }
  }

  // ---------------------------------------------------------------------------------------------
  // Inserting a list
  // ---------------------------------------------------------------------------------------------

  function InsertAll(list: seq<GpuCapabilityRequirement>): Result<Entries, RequirementError> {
    if list == [] then Ok(map[])
    else
      match InsertAll(list[..|list| - 1])
      case Err(error) => Err(error)
      case Ok(entries) => InsertEntry(entries, list[|list| - 1])
  }

  function Elements(list: seq<GpuCapabilityRequirement>): set<GpuCapabilityRequirement> {
    set q | q in list
  }

  /** Preferences about one feature name one fallback. */
  predicate PreferencesAgree(all: set<GpuCapabilityRequirement>) {
    forall p, q | p in all && q in all && p.Preferred? && q.Preferred? && p.feature == q.feature :: p == q
  }

  /** No feature is disabled here and wanted there. */
  predicate StrengthsAgree(all: set<GpuCapabilityRequirement>) {
    forall p, q | p in all && q in all && p.feature == q.feature :: p.Disabled? == q.Disabled?
  }

  /** What the entries of a conflict-free collection must be, said without any order. */
  predicate Summarizes(entries: Entries, all: set<GpuCapabilityRequirement>) {
    && (forall q | q in all :: q.feature in entries && (q.Required? ==> entries[q.feature].Required?))
    && (forall f | f in entries :: entries[f] in all)
  }

  lemma InsertSummarizes(entries: Entries, all: set<GpuCapabilityRequirement>, last: GpuCapabilityRequirement)
    requires PreferencesAgree(all + {last}) && StrengthsAgree(all) && Summarizes(entries, all)
    ensures InsertEntry(entries, last).Ok? <==> StrengthsAgree(all + {last})
    ensures InsertEntry(entries, last).Ok? ==> Summarizes(InsertEntry(entries, last).value, all + {last})
  {
    if last.feature in entries {
      var held := entries[last.feature];
      assert held in all && held.feature == last.feature;
      assert last in all + {last} && held in all + {last};
      assert InsertEntry(entries, last).Ok? <==> held.Disabled? == last.Disabled?;
      if held.Disabled? == last.Disabled? {
        forall q | q in all && q.feature == last.feature
          ensures q.Disabled? == last.Disabled?
        {
        }
      }
    } else {
      forall q | q in all
        ensures q.feature != last.feature
      {
      }
    }
  }

  lemma {:induction false} InsertAllSummarizes(list: seq<GpuCapabilityRequirement>)
    requires PreferencesAgree(Elements(list))
    ensures InsertAll(list).Ok? <==> StrengthsAgree(Elements(list))
    ensures InsertAll(list).Ok? ==> Summarizes(InsertAll(list).value, Elements(list))
  {
    if list != [] {
      var front, last := list[..|list| - 1], list[|list| - 1];
      assert list == front + [last];
      assert Elements(list) == Elements(front) + {last};
      InsertAllSummarizes(front);
      if InsertAll(front).Ok? {
        InsertSummarizes(InsertAll(front).value, Elements(front), last);
      }
    }
  }

  lemma SummaryIsUnique(e: Entries, g: Entries, all: set<GpuCapabilityRequirement>)
    requires PreferencesAgree(all) && StrengthsAgree(all)
    requires Summarizes(e, all) && Summarizes(g, all)
    ensures e == g
  {
  }

  /**
   * Inserting a list in any order, with any repetitions, gives the same outcome as long as its
   * preferences agree: the verdict and the entries depend only on which requirements occur.
   */
  lemma InsertOrderIsIrrelevant(one: seq<GpuCapabilityRequirement>, other: seq<GpuCapabilityRequirement>)
    requires PreferencesAgree(Elements(one))
    requires Elements(one) == Elements(other)
    ensures InsertAll(one).Ok? <==> InsertAll(other).Ok?
    ensures InsertAll(one).Ok? ==> InsertAll(one) == InsertAll(other)
  {
    InsertAllSummarizes(one);
    InsertAllSummarizes(other);
    if InsertAll(one).Ok? {
      SummaryIsUnique(InsertAll(one).value, InsertAll(other).value, Elements(one));
    }
  }

  // ---------------------------------------------------------------------------------------------
  // Admission
  // ---------------------------------------------------------------------------------------------

  datatype AdmissionCause = EnabledUnavailable | RequiredUnavailable | RequiredNotEnabled | DisabledEnabled

  datatype AdmissionError = AdmissionError(feature: GpuCapabilityFeature, cause: AdmissionCause)

  datatype GpuPreferredAvailability = GpuPreferredAvailability(
    feature: GpuCapabilityFeature, available: bool, enabled: bool, fallback: GpuPreferredFallback)

  datatype GpuCapabilityAdmission = GpuCapabilityAdmission(
    grantedRequired: seq<GpuCapabilityFeature>,
    preferred: seq<GpuPreferredAvailability>,
    verifiedDisabled: seq<GpuCapabilityFeature>)

  function Violation(
      requirement: GpuCapabilityRequirement, supported: set<GpuCapabilityFeature>, enabled: set<GpuCapabilityFeature>):
      Option<AdmissionCause>
  {
    match requirement
    case Required(f) =>
      if f !in supported then Some(RequiredUnavailable)
      else if f !in enabled then Some(RequiredNotEnabled)
      else None
    case Preferred(_, _) => None
    case Disabled(f) => if f in enabled then Some(DisabledEnabled) else None
  }

  predicate Violates(
      entries: Entries, supported: set<GpuCapabilityFeature>, enabled: set<GpuCapabilityFeature>,
      feature: GpuCapabilityFeature)
  {
    feature in entries && Violation(entries[feature], supported, enabled).Some?
  }

  /** The members of a feature set listed in key order, from position `i` on. */
  function KeyOrderFrom(features: set<GpuCapabilityFeature>, i: nat): seq<GpuCapabilityFeature>
    requires i <= FEATURE_COUNT
    decreases FEATURE_COUNT - i
  {
    if i == FEATURE_COUNT then []
    else if i in features then [i] + KeyOrderFrom(features, i + 1)
    else KeyOrderFrom(features, i + 1)
  }

  lemma {:induction false} KeyOrderListsEachOnce(features: set<GpuCapabilityFeature>, i: nat)
    requires i <= FEATURE_COUNT
    ensures forall f: GpuCapabilityFeature :: f in KeyOrderFrom(features, i) <==> f in features && f >= i
    ensures forall p, q | 0 <= p < q < |KeyOrderFrom(features, i)| ::
              KeyOrderFrom(features, i)[p] < KeyOrderFrom(features, i)[q]
    decreases FEATURE_COUNT - i
  {
    if i < FEATURE_COUNT {
      KeyOrderListsEachOnce(features, i + 1);
      var tail := KeyOrderFrom(features, i + 1);
      assert forall q | 0 <= q < |tail| :: tail[q] in tail;
    }
  }

  function RequiredSet(entries: Entries): set<GpuCapabilityFeature> {
    set f | f in entries && entries[f].Required?
  }

  function PreferredSet(entries: Entries): set<GpuCapabilityFeature> {
    set f | f in entries && entries[f].Preferred?
  }

  function DisabledSet(entries: Entries): set<GpuCapabilityFeature> {
    set f | f in entries && entries[f].Disabled?
  }

  function AvailabilitiesFrom(
      entries: Entries, supported: set<GpuCapabilityFeature>, enabled: set<GpuCapabilityFeature>, i: nat):
      seq<GpuPreferredAvailability>
    requires i <= FEATURE_COUNT
    decreases FEATURE_COUNT - i
  {
    if i == FEATURE_COUNT then []
    else
      var f := i;
      if f in entries && entries[f].Preferred? then
        [GpuPreferredAvailability(f, f in supported, f in enabled, entries[f].fallback)]
        + AvailabilitiesFrom(entries, supported, enabled, i + 1)
      else AvailabilitiesFrom(entries, supported, enabled, i + 1)
  }

  lemma {:induction false} AvailabilitiesFollowKeyOrder(
      entries: Entries, supported: set<GpuCapabilityFeature>, enabled: set<GpuCapabilityFeature>, i: nat)
    requires i <= FEATURE_COUNT
    ensures var list := AvailabilitiesFrom(entries, supported, enabled, i);
            var keys := KeyOrderFrom(PreferredSet(entries), i);
            && |list| == |keys|
            && forall k | 0 <= k < |keys| ::
                 && keys[k] in entries && entries[keys[k]].Preferred?
                 && list[k] == GpuPreferredAvailability(
                                 keys[k], keys[k] in supported, keys[k] in enabled, entries[keys[k]].fallback)
    decreases FEATURE_COUNT - i
  {
    if i < FEATURE_COUNT {
      AvailabilitiesFollowKeyOrder(entries, supported, enabled, i + 1);
    }
  }

  /**
   * Features can be enabled iff the adapter has them, every requirement is among them and nothing
   * disabled is; a feature that breaks the rule says how.
   */
  lemma EvaluationRules(
      entries: Entries, supported: set<GpuCapabilityFeature>, enabled: set<GpuCapabilityFeature>,
      f: GpuCapabilityFeature)
    requires enabled <= supported
    ensures (forall g: GpuCapabilityFeature :: !Violates(entries, supported, enabled, g)) <==>
              && (forall g | g in entries && entries[g] == Required(g) :: g in enabled)
              && (forall g | g in entries && entries[g] == Disabled(g) :: g !in enabled)
    ensures Violates(entries, supported, enabled, f) ==>
              Violation(entries[f], supported, enabled) ==
              Some(if f in enabled then DisabledEnabled
                   else if f in supported then RequiredNotEnabled
                   else RequiredUnavailable)
  {
    forall g: GpuCapabilityFeature
      ensures Violates(entries, supported, enabled, g) <==>
                && g in entries
                && ((entries[g] == Required(g) && g !in enabled) || (entries[g] == Disabled(g) && g in enabled))
    {
    }
  }

  method Evaluate(entries: Entries, supported: set<GpuCapabilityFeature>, enabled: set<GpuCapabilityFeature>)
    returns (r: Result<GpuCapabilityAdmission, AdmissionError>)
    ensures r.Ok? <==>
              enabled <= supported && forall f: GpuCapabilityFeature :: !Violates(entries, supported, enabled, f)
    ensures r.Ok? ==> r.value == GpuCapabilityAdmission(
                                   KeyOrderFrom(RequiredSet(entries), 0),
                                   AvailabilitiesFrom(entries, supported, enabled, 0),
                                   KeyOrderFrom(DisabledSet(entries), 0))
    ensures r.Err? && r.error.cause == EnabledUnavailable ==>
              && r.error.feature in enabled - supported
              && forall f | f in enabled - supported :: r.error.feature <= f
    ensures r.Err? && r.error.cause != EnabledUnavailable ==>
              && enabled <= supported
              && r.error.feature in entries
              && Violation(entries[r.error.feature], supported, enabled) == Some(r.error.cause)
              && forall f: GpuCapabilityFeature | Violates(entries, supported, enabled, f) :: r.error.feature <= f
  {
    for i := 0 to FEATURE_COUNT
      invariant forall f: GpuCapabilityFeature | f in enabled && f < i :: f in supported
    {
      var feature := i;
      if feature in enabled && feature !in supported {
        return Err(AdmissionError(feature, EnabledUnavailable));
      }
    }

    var granted, disabled := [], [];
    var preferred := [];
    for i := 0 to FEATURE_COUNT
      invariant forall f: GpuCapabilityFeature | f < i :: !Violates(entries, supported, enabled, f)
      invariant granted + KeyOrderFrom(RequiredSet(entries), i) == KeyOrderFrom(RequiredSet(entries), 0)
      invariant preferred + AvailabilitiesFrom(entries, supported, enabled, i)
                == AvailabilitiesFrom(entries, supported, enabled, 0)
      invariant disabled + KeyOrderFrom(DisabledSet(entries), i) == KeyOrderFrom(DisabledSet(entries), 0)
    {
      var feature := i;
      if feature in entries {
        match entries[feature]
        case Required(f) =>
          if f !in supported {
            assert Violates(entries, supported, enabled, f);
            return Err(AdmissionError(f, RequiredUnavailable));
          }
          if f !in enabled {
            assert Violates(entries, supported, enabled, f);
            return Err(AdmissionError(f, RequiredNotEnabled));
          }
          granted := granted + [f];
        case Preferred(f, fallback) =>
          preferred := preferred + [GpuPreferredAvailability(f, f in supported, f in enabled, fallback)];
        case Disabled(f) =>
          if f in enabled {
            assert Violates(entries, supported, enabled, f);
            return Err(AdmissionError(f, DisabledEnabled));
          }
          disabled := disabled + [f];
      }
    }
    return Ok(GpuCapabilityAdmission(granted, preferred, disabled));
  }
}
