/** Exactly when the two groupings of a three-way merge of valid requests agree. */
module MergeGrouping {
  import opened Common
  import opened Preference
  import opened Descriptor
  import opened MergeAlgebra

  // ---------------------------------------------------------------------------------------------
  // Preferences and the rest of a request merge independently
  // ---------------------------------------------------------------------------------------------

  /** The request without its backend preference, the only component a merge renumbers. */
  function Unranked(d: GpuContextDescriptor): GpuContextDescriptor {
    d.(backendPreference := map[])
  }

  lemma UnrankedIsLawful(d: GpuContextDescriptor)
    requires WellFormed(d) && Valid(d)
    ensures Lawful(Unranked(d))
  {
  }

  lemma RenumberIsIdempotent(ranks: Ranks)
    ensures Renumber(Renumber(ranks)) == Renumber(ranks)
    ensures Renumber(ranks).Keys == ranks.Keys
    ensures Renumber(ranks) == map[] <==> ranks == map[]
  {
    RenumberByPosition(ranks);
    RenumberFixesExactlyDense(Renumber(ranks));
    assert ranks == map[] <==> ranks.Keys == {};
    assert Renumber(ranks) == map[] <==> Renumber(ranks).Keys == {};
  }

  /** A merged request put back together from its unranked part and the merged preference. */
  function WithPreference(
      base: Result<GpuContextDescriptor, ContextErrorCategory>, preference: Result<Ranks, ContextErrorCategory>):
      Result<GpuContextDescriptor, ContextErrorCategory>
  {
    if base.Err? || preference.Err? then Err(ContradictoryRequest)
    else if !PreferenceAllowed(base.value.allowedBackends, preference.value) then Err(ContradictoryRequest)
    else Ok(base.value.(backendPreference := Renumber(preference.value)))
  }

  lemma CombinedFactors(a: GpuContextDescriptor, b: GpuContextDescriptor)
    ensures Consistent(a, b)
            <==> Consistent(Unranked(a), Unranked(b))
                 && MergeBackendPreference(a.backendPreference, b.backendPreference).Ok?
    ensures Consistent(a, b) ==>
              && Combined(Unranked(a), Unranked(b)).backendPreference == map[]
              && Combined(a, b)
                 == var merged := MergeBackendPreference(a.backendPreference, b.backendPreference).value;
                    Combined(Unranked(a), Unranked(b)).(backendPreference := Renumber(merged))
  {
    RenumberIsIdempotent(map[]);
  }

  lemma ValidityFactors(d: GpuContextDescriptor, ranks: Ranks)
    requires d.backendPreference == map[]
    ensures Valid(d.(backendPreference := Renumber(ranks))) <==> Valid(d) && PreferenceAllowed(d.allowedBackends, ranks)
  {
    RenumberIsIdempotent(ranks);
  }

  lemma MergeFactors(a: GpuContextDescriptor, b: GpuContextDescriptor)
    requires Valid(a) && Valid(b)
    ensures MergeDescriptors(a, b)
            == WithPreference(MergeDescriptors(Unranked(a), Unranked(b)),
                              MergeBackendPreference(a.backendPreference, b.backendPreference))
    ensures MergeDescriptors(Unranked(a), Unranked(b)).Ok? ==>
              MergeDescriptors(Unranked(a), Unranked(b)).value.backendPreference == map[]
  {
    LawfulMergeFailsAsContradiction(a, b);
    RenumberIsIdempotent(map[]);
    CombinedFactors(a, b);
    if Consistent(a, b) {
      ValidityFactors(
        Combined(Unranked(a), Unranked(b)), MergeBackendPreference(a.backendPreference, b.backendPreference).value);
    }
  }

  // ---------------------------------------------------------------------------------------------
  // Grouping preferences
  // ---------------------------------------------------------------------------------------------

  /** Merging two preferences, renumbering, and merging the third. */
  function GroupPreferences(first: Ranks, second: Ranks, third: Ranks): Result<Ranks, ContextErrorCategory> {
    match MergeBackendPreference(first, second)
    case Ok(merged) => MergeBackendPreference(Renumber(merged), third)
    case Err(error) => Err(error)
  }

  /** A grouped preference names the backends of every stated one. */
  lemma GroupedKeys(x: Ranks, y: Ranks, z: Ranks)
    requires GroupPreferences(x, y, z).Ok?
    ensures var merged := GroupPreferences(x, y, z).value;
            && (x == map[] || x.Keys == merged.Keys)
            && (y == map[] || y.Keys == merged.Keys)
            && (z == map[] || z.Keys == merged.Keys)
            && (merged == map[] || merged.Keys == x.Keys || merged.Keys == y.Keys || merged.Keys == z.Keys)
  {
    RenumberIsIdempotent(MergeBackendPreference(x, y).value);
  }

  /** What grouping `x`, `y`, `z` leaves after renumbering, where `rx` renumbers `x` and so on; none for a refusal. */
  function Grouped<T(==)>(none: T, x: T, y: T, z: T, rx: T, ry: T, rz: T): Option<T> {
    if x == none && y == none then Some(rz)
    else if x == none then if z == none || ry == z then Some(ry) else None
    else if y != none && x != y then None
    else if z == none || rx == z then Some(rx)
    else None
  }

  lemma FirstMerge(x: Ranks, y: Ranks)
    ensures MergeBackendPreference(x, y)
            == if x == map[] then Ok(y) else if y == map[] || x == y then Ok(x) else Err(ContradictoryRequest)
  {
  }

  lemma SecondMerge(merged: Ranks, z: Ranks)
    ensures var r := MergeBackendPreference(Renumber(merged), z);
            && (r.Ok? <==> merged == map[] || z == map[] || Renumber(merged) == z)
            && (r.Ok? ==> Renumber(r.value) == if merged == map[] then Renumber(z) else Renumber(merged))
  {
    RenumberIsIdempotent(merged);
    FirstMerge(Renumber(merged), z);
  }

  lemma GroupPreferencesIsGrouped(x: Ranks, y: Ranks, z: Ranks)
    ensures var grouped := Grouped(map[], x, y, z, Renumber(x), Renumber(y), Renumber(z));
            && (GroupPreferences(x, y, z).Ok? <==> grouped.Some?)
            && (grouped.Some? ==> Renumber(GroupPreferences(x, y, z).value) == grouped.value)
  {
    FirstMerge(x, y);
    if x == map[] {
      SecondMerge(y, z);
    } else if y == map[] || x == y {
      SecondMerge(x, z);
    }
  }

  /**
   * What decides whether preferences group alike. Where at most one is stated they do; where two are
   * stated, being equal must coincide with one being the renumbering of the other, and which one is
   * decided by where the silent request stands; where all three are stated, likewise for the outer
   * pair of each grouping.
   */
  predicate GroupAlike<T(==)>(none: T, x: T, y: T, z: T, rx: T, ry: T, rz: T) {
    if x == none then y == none || z == none || (y == z <==> ry == z)
    else if y == none then z == none || (rx == z <==> x == rz)
    else if z == none then x == y <==> x == ry
    else x == y && rx == z <==> y == z && x == ry
  }

  predicate RanksGroupAlike(x: Ranks, y: Ranks, z: Ranks) {
    GroupAlike(map[], x, y, z, Renumber(x), Renumber(y), Renumber(z))
  }

  /** `rx` renumbers `x` and `ry` renumbers `y`, as far as the groupings can tell. */
  predicate Renumbers<T(==)>(none: T, x: T, rx: T, y: T, ry: T) {
    && (rx == none <==> x == none)
    && (x == y || x == ry || rx == y ==> rx == ry)
  }

  lemma GroupedAlike<T>(none: T, x: T, y: T, z: T, rx: T, ry: T, rz: T)
    requires Renumbers(none, x, rx, y, ry) && Renumbers(none, y, ry, z, rz) && Renumbers(none, z, rz, x, rx)
    ensures var left, right := Grouped(none, x, y, z, rx, ry, rz), Grouped(none, y, z, x, ry, rz, rx);
            && (GroupAlike(none, x, y, z, rx, ry, rz) <==> (left.Some? <==> right.Some?))
            && (left.Some? && right.Some? ==> left == right)
  {
  }

  lemma RenumberRenumbers(x: Ranks, y: Ranks)
    ensures Renumbers(map[], x, Renumber(x), y, Renumber(y))
  {
    RenumberIsIdempotent(x);
    RenumberIsIdempotent(y);
  }

  lemma GroupingsOfPreferences(x: Ranks, y: Ranks, z: Ranks)
    ensures RanksGroupAlike(x, y, z) <==> (GroupPreferences(x, y, z).Ok? <==> GroupPreferences(y, z, x).Ok?)
    ensures GroupPreferences(x, y, z).Ok? && GroupPreferences(y, z, x).Ok? ==>
              Renumber(GroupPreferences(x, y, z).value) == Renumber(GroupPreferences(y, z, x).value)
  {
    GroupPreferencesIsGrouped(x, y, z);
    GroupPreferencesIsGrouped(y, z, x);
    RenumberRenumbers(x, y);
    RenumberRenumbers(y, z);
    RenumberRenumbers(z, x);
    GroupedAlike(map[], x, y, z, Renumber(x), Renumber(y), Renumber(z));
  }

  // ---------------------------------------------------------------------------------------------
  // Grouping requests
  // ---------------------------------------------------------------------------------------------

  /** The three requests merged from the left with their preferences set aside. */
  function UnrankedMerge(a: GpuContextDescriptor, b: GpuContextDescriptor, c: GpuContextDescriptor):
    Result<GpuContextDescriptor, ContextErrorCategory>
  {
    ThenMerge(MergeDescriptors(Unranked(a), Unranked(b)), Unranked(c))
  }

  /** A preference outside an intermediate allowlist is outside every later one. */
  lemma EscapesPersist(
      s: GpuContextDescriptor, c: GpuContextDescriptor, t: GpuContextDescriptor, ranks: Ranks, third: Ranks)
    requires MergeDescriptors(s, c) == Ok(t) && !PreferenceAllowed(s.allowedBackends, ranks)
    requires MergeBackendPreference(Renumber(ranks), third).Ok?
    ensures !PreferenceAllowed(t.allowedBackends, MergeBackendPreference(Renumber(ranks), third).value)
  {
    RenumberIsIdempotent(ranks);
    AllowlistsShrink(s, c, t);
  }

  lemma AllowlistsShrink(s: GpuContextDescriptor, c: GpuContextDescriptor, t: GpuContextDescriptor)
    requires MergeDescriptors(s, c) == Ok(t) && s.allowedBackends != {}
    ensures t.allowedBackends <= s.allowedBackends && t.allowedBackends != {}
  {
  }

  lemma LeftFactors(a: GpuContextDescriptor, b: GpuContextDescriptor, c: GpuContextDescriptor)
    requires Valid(a) && Valid(b) && Valid(c)
    ensures ThenMerge(MergeDescriptors(a, b), c)
            == WithPreference(
                 UnrankedMerge(a, b, c),
                 GroupPreferences(a.backendPreference, b.backendPreference, c.backendPreference))
  {
    MergeFactors(a, b);
    var base := MergeDescriptors(Unranked(a), Unranked(b));
    var merged := MergeBackendPreference(a.backendPreference, b.backendPreference);
    if base.Ok? && merged.Ok? {
      if PreferenceAllowed(base.value.allowedBackends, merged.value) {
        MergeIsLawful(a, b);
        var d := MergeDescriptors(a, b).value;
        MergeFactors(d, c);
        assert Unranked(d) == base.value;
      } else if UnrankedMerge(a, b, c).Ok? && MergeBackendPreference(Renumber(merged.value), c.backendPreference).Ok? {
        EscapesPersist(base.value, Unranked(c), UnrankedMerge(a, b, c).value, merged.value, c.backendPreference);
      }
    }
  }

  /** Set aside the preferences, and both groupings are one. */
  lemma UnrankedGroupingsAgree(a: GpuContextDescriptor, b: GpuContextDescriptor, c: GpuContextDescriptor)
    requires WellFormed(a) && WellFormed(b) && WellFormed(c) && Valid(a) && Valid(b) && Valid(c)
    ensures UnrankedMerge(b, c, a) == UnrankedMerge(a, b, c)
  {
    UnrankedIsLawful(a);
    UnrankedIsLawful(b);
    UnrankedIsLawful(c);
    MergeAssociates(Unranked(a), Unranked(b), Unranked(c));
    if MergeDescriptors(Unranked(b), Unranked(c)).Ok? {
      MergeCommutes(Unranked(a), MergeDescriptors(Unranked(b), Unranked(c)).value);
    }
  }

  /** The grouping to the right. */
  function MergeThen(
      left: GpuContextDescriptor, right: Result<GpuContextDescriptor, ContextErrorCategory>):
      Result<GpuContextDescriptor, ContextErrorCategory>
  {
    match right
    case Ok(d) => MergeDescriptors(left, d)
    case Err(error) => Err(error)
  }

  lemma RightFactors(a: GpuContextDescriptor, b: GpuContextDescriptor, c: GpuContextDescriptor)
    requires WellFormed(a) && WellFormed(b) && WellFormed(c) && Valid(a) && Valid(b) && Valid(c)
    ensures MergeThen(a, MergeDescriptors(b, c))
            == WithPreference(
                 UnrankedMerge(a, b, c),
                 GroupPreferences(b.backendPreference, c.backendPreference, a.backendPreference))
  {
    if MergeDescriptors(b, c).Ok? {
      MergeCommutes(a, MergeDescriptors(b, c).value);
    }
    assert MergeThen(a, MergeDescriptors(b, c)) == ThenMerge(MergeDescriptors(b, c), a);
    LeftFactors(b, c, a);
    UnrankedGroupingsAgree(a, b, c);
  }

  /** Every stated preference stays inside the allowlist. */
  predicate PreferencesAllowed(allowed: set<GpuBackendFamily>, x: Ranks, y: Ranks, z: Ranks) {
    PreferenceAllowed(allowed, x) && PreferenceAllowed(allowed, y) && PreferenceAllowed(allowed, z)
  }

  /** A grouped preference is allowed exactly if every stated one is. */
  lemma GroupedAllowed(allowed: set<GpuBackendFamily>, x: Ranks, y: Ranks, z: Ranks)
    requires GroupPreferences(x, y, z).Ok?
    ensures PreferenceAllowed(allowed, GroupPreferences(x, y, z).value) <==> PreferencesAllowed(allowed, x, y, z)
  {
    GroupedKeys(x, y, z);
  }

  lemma RegroupedPreferenceAgreesIff(base: GpuContextDescriptor, x: Ranks, y: Ranks, z: Ranks)
    ensures WithPreference(Ok(base), GroupPreferences(x, y, z)) == WithPreference(Ok(base), GroupPreferences(y, z, x))
            <==> !PreferencesAllowed(base.allowedBackends, x, y, z) || RanksGroupAlike(x, y, z)
  {
    GroupingsOfPreferences(x, y, z);
    if GroupPreferences(x, y, z).Ok? {
      GroupedAllowed(base.allowedBackends, x, y, z);
    }
    if GroupPreferences(y, z, x).Ok? {
      GroupedAllowed(base.allowedBackends, y, z, x);
    }
  }

  /**
   * The groupings of three valid requests agree exactly if the requests contradict each other
   * already without their preferences, or a preference falls outside the common allowlist, or the
   * three preferences group alike.
   */
  lemma MergeAssociatesIff(a: GpuContextDescriptor, b: GpuContextDescriptor, c: GpuContextDescriptor)
    requires WellFormed(a) && WellFormed(b) && WellFormed(c) && Valid(a) && Valid(b) && Valid(c)
    ensures var base, (x, y, z) :=
              UnrankedMerge(a, b, c), (a.backendPreference, b.backendPreference, c.backendPreference);
            ThenMerge(MergeDescriptors(a, b), c) == MergeThen(a, MergeDescriptors(b, c))
            <==> base.Err? || !PreferencesAllowed(base.value.allowedBackends, x, y, z) || RanksGroupAlike(x, y, z)
  {
    LeftFactors(a, b, c);
    RightFactors(a, b, c);
    var base := UnrankedMerge(a, b, c);
    if base.Ok? {
      RegroupedPreferenceAgreesIff(base.value, a.backendPreference, b.backendPreference, c.backendPreference);
    }
  }

  lemma RankedTwiceGroupsAlikeIffDense(ranks: Ranks)
    ensures RanksGroupAlike(map[], ranks, ranks) <==> Dense(ranks)
  {
    RenumberFixesExactlyDense(ranks);
    RenumberIsIdempotent(ranks);
  }

  lemma UnrankedSelfMerge(d: GpuContextDescriptor)
    requires WellFormed(d) && Valid(d)
    ensures UnrankedMerge(EMPTY, d, d) == Ok(Unranked(d))
  {
    var u := Unranked(d);
    UnrankedIsLawful(d);
    assert Unranked(EMPTY) == EMPTY;
    EmptyIsUnitIff(u);
    MergeIsIdempotentIff(u);
  }

  /** Against the empty request and itself, a valid request groups alike exactly if its ranks have no gaps. */
  lemma SelfGroupingIffDense(d: GpuContextDescriptor)
    requires WellFormed(d) && Valid(d)
    ensures ThenMerge(MergeDescriptors(EMPTY, d), d) == MergeThen(EMPTY, MergeDescriptors(d, d))
            <==> Dense(d.backendPreference)
  {
    UnrankedSelfMerge(d);
    MergeAssociatesIff(EMPTY, d, d);
    RankedTwiceGroupsAlikeIffDense(d.backendPreference);
  }

  /** So a repeated backend, whose second mention leaves a gap, breaks associativity. */
  lemma GappedPreferenceBreaksAssociativity()
    ensures var d := EMPTY.(backendPreference := PreferenceOf([Vulkan, Vulkan, Metal]));
            && Valid(d)
            && ThenMerge(MergeDescriptors(EMPTY, d), d) != MergeThen(EMPTY, MergeDescriptors(d, d))
  {
    GappedPreferenceIsNotIdempotent();
    var d := EMPTY.(backendPreference := PreferenceOf([Vulkan, Vulkan, Metal]));
    MergeIsIdempotentIff(d);
    SelfGroupingIffDense(d);
  }
}
