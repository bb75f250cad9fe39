/** Ranked backend preferences and the dense renumbering a merge performs. */
module Preference {
  import opened Common
  import opened Lists
  import opened Sorting

  /**
   * A backend family is its position in the declaration order of the source enumeration, which is
   * also its key order.
   */
  type GpuBackendFamily = b: nat | b < 6

  const Vulkan: GpuBackendFamily := 0
  const Metal: GpuBackendFamily := 1
  const Direct3D12: GpuBackendFamily := 2
  const OpenGl: GpuBackendFamily := 3
  const BrowserWebGpu: GpuBackendFamily := 4
  const UnknownBackend: GpuBackendFamily := 5

  type Ranks = map<GpuBackendFamily, u8>

  /** `u8::try_from(priority).unwrap_or(u8::MAX)`. */
  function SaturatedRank(priority: nat): u8 {
    Min(priority, U8_MAX)
  }

  function FirstIndex<T(==)>(list: seq<T>, x: T): (i: nat)
    requires x in list
    ensures i < |list| && list[i] == x && forall k | 0 <= k < i :: list[k] != x
  {
    if list[0] == x then 0 else 1 + FirstIndex(list[1..], x)
  }

  /** Each listed backend keeps the rank of its first mention. */
  function PreferenceOf(list: seq<GpuBackendFamily>): Ranks {
    map b | b in list :: SaturatedRank(FirstIndex(list, b))
  }

  method RankBackends(list: seq<GpuBackendFamily>) returns (ranks: Ranks)
    ensures ranks == PreferenceOf(list)
  {
    ranks := map[];
    for priority := 0 to |list|
      invariant ranks == PreferenceOf(list[..priority])
    {
      PreferenceOfNext(list, priority);
      if list[priority] !in ranks {
        ranks := ranks[list[priority] := SaturatedRank(priority)];
      }
    }
    assert list[..|list|] == list;
  }

  /** One more mention changes nothing unless the backend is new. */
  lemma PreferenceOfNext(list: seq<GpuBackendFamily>, i: nat)
    requires i < |list|
    ensures var before := PreferenceOf(list[..i]);
            PreferenceOf(list[..i + 1])
            == if list[i] in before then before else before[list[i] := SaturatedRank(i)]
  {
    var seen := list[..i];
    assert list[..i + 1] == seen + [list[i]];
    forall b | b in seen
      ensures FirstIndex(seen + [list[i]], b) == FirstIndex(seen, b)
    {
      FirstIndexExtends(seen, list[i], b);
    }
    if list[i] !in seen {
      FirstIndexUnique(seen + [list[i]], list[i], i);
    }
  }

  lemma FirstIndexUnique<T>(list: seq<T>, x: T, i: nat)
    requires i < |list| && list[i] == x && forall k | 0 <= k < i :: list[k] != x
    ensures FirstIndex(list, x) == i
  {
  }

  lemma FirstIndexExtends<T>(list: seq<T>, last: T, x: T)
    requires x in list
    ensures FirstIndex(list + [last], x) == FirstIndex(list, x)
  {
    FirstIndexUnique(list + [last], x, FirstIndex(list, x));
  }

  /** A mention counts where it comes first, and positions past 255 all rank last. */
  lemma FirstMentionRanks(list: seq<GpuBackendFamily>, b: GpuBackendFamily, i: nat)
    ensures b in PreferenceOf(list) <==> b in list
    ensures i < |list| && list[i] == b && b !in list[..i] ==>
              PreferenceOf(list)[b] == if i > 255 then 255 else i
  {
    if i < |list| && list[i] == b && b !in list[..i] {
      forall k | 0 <= k < i
        ensures list[k] != b
      {
        assert list[k] in list[..i];
      }
      FirstIndexUnique(list, b, i);
    }
  }

  // ---------------------------------------------------------------------------------------------
  // Renumbering
  // ---------------------------------------------------------------------------------------------

  function KeysFrom(ranks: Ranks, i: nat): seq<GpuBackendFamily>
    requires i <= 6
    decreases 6 - i
  {
    if i == 6 then []
    else if i in ranks then [i] + KeysFrom(ranks, i + 1)
    else KeysFrom(ranks, i + 1)
  }

  function RankIn(ranks: Ranks): GpuBackendFamily -> nat {
    b => if b in ranks then ranks[b] else 0
  }

  /** Entries collected in key order, then stably sorted by rank. */
  function Ordered(ranks: Ranks): seq<GpuBackendFamily> {
    SortByKey(RankIn(ranks), KeysFrom(ranks, 0))
  }

  /** What a merge makes of a preference: the same order, ranked without gaps. */
  function Renumber(ranks: Ranks): Ranks {
    PreferenceOf(Ordered(ranks))
  }

  /** Ranks without gaps or ties. */
  predicate Dense(ranks: Ranks) {
    && (forall b | b in ranks :: ranks[b] < |ranks|)
    && (forall b, c | b in ranks && c in ranks && ranks[b] == ranks[c] :: b == c)
  }

  lemma {:induction false} KeysFromListsKeys(ranks: Ranks, i: nat)
    requires i <= 6
    ensures forall b: GpuBackendFamily :: b in KeysFrom(ranks, i) <==> b in ranks && b >= i
    ensures NoDuplicates(KeysFrom(ranks, i))
    decreases 6 - i
  {
    if i < 6 {
      KeysFromListsKeys(ranks, i + 1);
      var tail := KeysFrom(ranks, i + 1);
      assert forall j | 0 <= j < |tail| :: tail[j] in tail;
    }
  }

  lemma OrderedListsKeys(ranks: Ranks)
    ensures forall b: GpuBackendFamily :: b in Ordered(ranks) <==> b in ranks
    ensures NoDuplicates(Ordered(ranks))
  {
    var keys, list := KeysFrom(ranks, 0), Ordered(ranks);
    KeysFromListsKeys(ranks, 0);
    SortByKeySorts(RankIn(ranks), keys);
    forall b: GpuBackendFamily
      ensures b in list <==> b in ranks
    {
      assert b in multiset(list) <==> b in multiset(keys);
    }
    DuplicatesAreInMultiset(keys, list);
  }

  lemma OrderedAscends(ranks: Ranks, i: nat, j: nat)
    requires i < j < |Ordered(ranks)|
    ensures Ordered(ranks)[i] in ranks && Ordered(ranks)[j] in ranks
    ensures ranks[Ordered(ranks)[i]] <= ranks[Ordered(ranks)[j]]
  {
    OrderedListsKeys(ranks);
    SortByKeySorts(RankIn(ranks), KeysFrom(ranks, 0));
    assert RankIn(ranks)(Ordered(ranks)[i]) <= RankIn(ranks)(Ordered(ranks)[j]);
  }

  lemma {:induction false} KeysFromLength(ranks: Ranks, i: nat)
    requires i <= 6
    ensures |KeysFrom(ranks, i)| <= 6 - i
    decreases 6 - i
  {
    if i < 6 {
      KeysFromLength(ranks, i + 1);
    }
  }

  lemma SameMultisetSameLength<T>(one: seq<T>, other: seq<T>)
    requires multiset(one) == multiset(other)
    ensures |one| == |other|
  {
    assert |multiset(one)| == |one| && |multiset(other)| == |other|;
  }

  lemma OrderedLength(ranks: Ranks)
    ensures |Ordered(ranks)| == |ranks|
    ensures |ranks| <= 6
  {
    var list := Ordered(ranks);
    assert |list| <= 6 by {
      KeysFromLength(ranks, 0);
      SortByKeySorts(RankIn(ranks), KeysFrom(ranks, 0));
      SameMultisetSameLength(list, KeysFrom(ranks, 0));
    }
    assert |list| == |ranks| by {
      OrderedListsKeys(ranks);
      KeyListLength(list, ranks);
    }
  }

  lemma KeyListLength(list: seq<GpuBackendFamily>, ranks: Ranks)
    requires NoDuplicates(list)
    requires forall b: GpuBackendFamily :: b in list <==> b in ranks
    ensures |list| == |ranks|
  {
    DistinctCardinality(list);
    var members: set<GpuBackendFamily> := set b: GpuBackendFamily | b in list;
    assert members == ranks.Keys;
    assert |ranks.Keys| == |ranks|;
  }

  /** Ranking a short list without repetitions gives each backend its own position. */
  lemma DistinctListRanksByPosition(list: seq<GpuBackendFamily>)
    requires NoDuplicates(list) && |list| <= 6
    ensures forall i | 0 <= i < |list| :: list[i] in PreferenceOf(list) && PreferenceOf(list)[list[i]] == i
    ensures |PreferenceOf(list)| == |list|
    ensures Dense(PreferenceOf(list))
  {
    forall i | 0 <= i < |list|
      ensures PreferenceOf(list)[list[i]] == i
    {
      FirstIndexUnique(list, list[i], i);
    }
    DistinctCardinality(list);
    assert PreferenceOf(list).Keys == set x | x in list;
    forall b | b in PreferenceOf(list)
      ensures PreferenceOf(list)[b] < |list|
      ensures list[PreferenceOf(list)[b]] == b
    {
      var i :| 0 <= i < |list| && list[i] == b;
    }
  }

  /** Strictly increasing naturals below their own number count up from zero. */
  lemma {:induction false} FillsInitialSegment(s: seq<nat>, i: nat)
    requires forall p, q | 0 <= p < q < |s| :: s[p] < s[q]
    requires i < |s|
    ensures s[i] >= i
    ensures (forall p | 0 <= p < |s| :: s[p] < |s|) ==> s[i] == i
    decreases i
  {
    if i > 0 {
      FillsInitialSegment(s, i - 1);
    }
    if forall p | 0 <= p < |s| :: s[p] < |s| {
      StaysBelowFromTop(s, i);
    }
  }

  lemma {:induction false} StaysBelowFromTop(s: seq<nat>, i: nat)
    requires forall p, q | 0 <= p < q < |s| :: s[p] < s[q]
    requires forall p | 0 <= p < |s| :: s[p] < |s|
    requires i < |s|
    ensures s[i] <= i
    decreases |s| - i
  {
    if i + 1 < |s| {
      StaysBelowFromTop(s, i + 1);
    }
  }

  lemma RenumberByPosition(ranks: Ranks)
    ensures forall i | 0 <= i < |Ordered(ranks)| ::
              Ordered(ranks)[i] in Renumber(ranks) && Renumber(ranks)[Ordered(ranks)[i]] == i
    ensures Dense(Renumber(ranks)) && Renumber(ranks).Keys == ranks.Keys
  {
    OrderedListsKeys(ranks);
    OrderedLength(ranks);
    DistinctListRanksByPosition(Ordered(ranks));
  }

  /** The order a renumbering keeps: lower ranks first, and equal ranks in key order. */
  predicate Precedes(ranks: Ranks, b: GpuBackendFamily, c: GpuBackendFamily)
    requires b in ranks && c in ranks
  {
    ranks[b] < ranks[c] || (ranks[b] == ranks[c] && b < c)
  }

  predicate InOrder(ranks: Ranks, list: seq<GpuBackendFamily>) {
    && (forall i | 0 <= i < |list| :: list[i] in ranks)
    && forall i, j | 0 <= i < j < |list| :: Precedes(ranks, list[i], list[j])
  }

  /** A family above all others in key order goes in after those of its rank. */
  lemma {:induction false} InsertKeepsTies(ranks: Ranks, x: GpuBackendFamily, sorted: seq<GpuBackendFamily>)
    requires InOrder(ranks, sorted) && x in ranks && forall y | y in sorted :: y < x
    ensures InOrder(ranks, InsertByKey(RankIn(ranks), x, sorted))
    ensures forall y | y in InsertByKey(RankIn(ranks), x, sorted) :: y == x || y in sorted
  {
    if sorted != [] && RankIn(ranks)(x) >= RankIn(ranks)(sorted[0]) {
      forall y | y in sorted[1..]
        ensures y in sorted && Precedes(ranks, sorted[0], y)
      {
        var k :| 0 < k < |sorted| && sorted[k] == y;
      }
      InsertKeepsTies(ranks, x, sorted[1..]);
      var tail := InsertByKey(RankIn(ranks), x, sorted[1..]);
      assert sorted[0] in sorted && Precedes(ranks, sorted[0], x);
      forall j | 0 <= j < |tail|
        ensures Precedes(ranks, sorted[0], tail[j])
      {
        assert tail[j] in tail;
      }
    }
  }

  lemma {:induction false} SortKeepsTies(ranks: Ranks, keys: seq<GpuBackendFamily>)
    requires forall i | 0 <= i < |keys| :: keys[i] in ranks
    requires forall i, j | 0 <= i < j < |keys| :: keys[i] < keys[j]
    ensures InOrder(ranks, SortByKey(RankIn(ranks), keys))
    ensures forall y | y in SortByKey(RankIn(ranks), keys) :: y in keys
  {
    if keys != [] {
      var front := keys[..|keys| - 1];
      SortKeepsTies(ranks, front);
      assert forall y | y in front :: y < keys[|keys| - 1];
      InsertKeepsTies(ranks, keys[|keys| - 1], SortByKey(RankIn(ranks), front));
    }
  }

  lemma {:induction false} KeysFromAscend(ranks: Ranks, i: nat)
    requires i <= 6
    ensures forall p, q | 0 <= p < q < |KeysFrom(ranks, i)| :: KeysFrom(ranks, i)[p] < KeysFrom(ranks, i)[q]
    decreases 6 - i
  {
    if i < 6 {
      KeysFromAscend(ranks, i + 1);
      KeysFromListsKeys(ranks, i + 1);
      var tail := KeysFrom(ranks, i + 1);
      assert forall j | 0 <= j < |tail| :: tail[j] in tail;
    }
  }

  /** Renumbering keeps the order of the ranks it replaces, and puts ties in key order. */
  lemma RenumberKeepsOrder(ranks: Ranks, b: GpuBackendFamily, c: GpuBackendFamily)
    requires b in ranks && c in ranks
    ensures b in Renumber(ranks) && c in Renumber(ranks)
    ensures Renumber(ranks)[b] < Renumber(ranks)[c] <==> Precedes(ranks, b, c)
  {
    var list := Ordered(ranks);
    OrderedListsKeys(ranks);
    KeysFromListsKeys(ranks, 0);
    KeysFromAscend(ranks, 0);
    var keys := KeysFrom(ranks, 0);
    assert forall k | 0 <= k < |keys| :: keys[k] in keys;
    SortKeepsTies(ranks, keys);
    var i, j := FirstIndex(list, b), FirstIndex(list, c);
    RenumberByPosition(ranks);
    assert Renumber(ranks)[list[i]] == i && Renumber(ranks)[list[j]] == j;
    if i < j {
      assert Precedes(ranks, list[i], list[j]);
    } else if j < i {
      assert Precedes(ranks, list[j], list[i]);
    }
  }

  lemma DenseRanksArePositions(ranks: Ranks, i: nat)
    requires Dense(ranks) && i < |Ordered(ranks)|
    ensures Ordered(ranks)[i] in ranks && ranks[Ordered(ranks)[i]] == i
  {
    var list := Ordered(ranks);
    OrderedListsKeys(ranks);
    OrderedLength(ranks);
    assert forall k | 0 <= k < |list| :: list[k] in list;
    var values: seq<nat> := seq(|list|, k requires 0 <= k < |list| => ranks[list[k]]);
    forall p, q | 0 <= p < q < |values|
      ensures values[p] < values[q]
    {
      OrderedAscends(ranks, p, q);
      assert list[p] != list[q];
    }
    FillsInitialSegment(values, i);
  }

  /** A preference is a fixed point of renumbering exactly when it is dense. */
  lemma RenumberFixesExactlyDense(ranks: Ranks)
    ensures Renumber(ranks) == ranks <==> Dense(ranks)
  {
    RenumberByPosition(ranks);
    if Dense(ranks) {
      forall b | b in ranks
        ensures Renumber(ranks)[b] == ranks[b]
      {
        RenumberFixesDenseAt(ranks, b);
      }
    }
  }

  lemma RenumberFixesDenseAt(ranks: Ranks, b: GpuBackendFamily)
    requires Dense(ranks) && b in ranks
    ensures b in Renumber(ranks) && Renumber(ranks)[b] == ranks[b]
  {
    OrderedListsKeys(ranks);
    RenumberByPosition(ranks);
    DenseRanksArePositions(ranks, FirstIndex(Ordered(ranks), b));
  }
}
