/**
 * Two-level resource identities: a process-wide scope counter advanced by an atomic retry loop, and
 * any number of local allocators that take their scope from it on first use.
 */
module ResourceId {
  import opened Common

  datatype GpuWorkResourceId = GpuWorkResourceId(ownerScope: u64, local: u64)

  datatype AllocationError = Exhausted

  /** The counter's update: zero is the terminal value and is never advanced. */
  function Advance(current: u64): Option<u64> {
    if current == 0 then None else Some(if current == U64_MAX then 0 else current + 1)
  }

  /** The local sequence ends after its last representable value. */
  function NextLocal(local: u64): Option<u64> {
    CheckedAdd64(local, 1)
  }

  // ---------------------------------------------------------------------------------------------
  // The objects, used by one thread
  // ---------------------------------------------------------------------------------------------

  class OwnerScopeAllocator {
    var next: u64

    constructor (first: u64)
      requires first != 0
      ensures next == first
    {
      next := first;
    }

    method Allocate() returns (r: Result<u64, AllocationError>)
      modifies this
      ensures match Advance(old(next))
              case Some(following) => r == Ok(old(next)) && next == following && old(next) != 0
              case None => r == Err(Exhausted) && next == old(next)
    {
      var following := Advance(next);
      if following.None? {
        return Err(Exhausted);
      }
      r := Ok(next);
      next := following.value;
    }
  }

  datatype Allocation = Allocation(
    result: Result<GpuWorkResourceId, AllocationError>, scope: Option<u64>, nextLocal: Option<u64>, counter: u64)

  /** One whole allocation, from the allocator's state and the counter. */
  function Allocated(scope: Option<u64>, nextLocal: Option<u64>, counter: u64): Allocation {
    if nextLocal.None? then Allocation(Err(Exhausted), scope, nextLocal, counter)
    else if scope.Some? then
      Allocation(Ok(GpuWorkResourceId(scope.value, nextLocal.value)), scope, NextLocal(nextLocal.value), counter)
    else
      match Advance(counter)
      case Some(following) =>
        Allocation(
          Ok(GpuWorkResourceId(counter, nextLocal.value)), Some(counter), NextLocal(nextLocal.value), following)
      case None => Allocation(Err(Exhausted), scope, nextLocal, counter)
  }

  class GpuWorkResourceIdAllocator {
    var ownerScope: Option<u64>
    var nextLocal: Option<u64>

    constructor ()
      ensures ownerScope == None && nextLocal == Some(1)
    {
      ownerScope, nextLocal := None, Some(1);
    }

    method Allocate(scopes: OwnerScopeAllocator) returns (r: Result<GpuWorkResourceId, AllocationError>)
      modifies this, scopes
      ensures Allocation(r, ownerScope, nextLocal, scopes.next)
              == Allocated(old(ownerScope), old(nextLocal), old(scopes.next))
    {
      if nextLocal.None? {
        return Err(Exhausted);
      }
      var local := nextLocal.value;
      var scope: u64;
      if ownerScope.Some? {
        scope := ownerScope.value;
      } else {
        var acquired := scopes.Allocate();
        if acquired.Err? {
          return Err(Exhausted);
        }
        scope := acquired.value;
      }
      ownerScope := Some(scope);
      nextLocal := NextLocal(local);
      return Ok(GpuWorkResourceId(scope, local));
    }
  }

  // ---------------------------------------------------------------------------------------------
  // Any number of allocators at once
  // ---------------------------------------------------------------------------------------------

  /** Where an allocation in progress stands inside the counter's retry loop. */
  datatype Phase = Idle | Loaded(current: u64) | Won(scope: u64)

  datatype Allocator = Allocator(scope: Option<u64>, nextLocal: Option<u64>, phase: Phase) {

    /** The scope this allocator has taken from the counter, stored or about to be. */
    const held: Option<u64> := if scope.Some? then scope else if phase.Won? then Some(phase.scope) else None
  }

  datatype Issue = Issue(owner: nat, id: GpuWorkResourceId)

  /** `granted` and `issued` record, in order, who won a scope and which identities were returned. */
  datatype World = World(counter: u64, allocators: seq<Allocator>, granted: seq<nat>, issued: seq<Issue>)

  datatype Event =
    | Create
    | Begin(i: nat)
    | Exchange(i: nat, spurious: bool)
    | Commit(i: nat)

  const FRESH: Allocator := Allocator(None, Some(1), Idle)

  function Put(w: World, i: nat, a: Allocator): World
    requires i < |w.allocators|
  {
    w.(allocators := w.allocators[i := a])
  }

  /** Store the scope and return the identity. */
  function Return(w: World, i: nat, scope: u64): World
    requires i < |w.allocators| && w.allocators[i].nextLocal.Some?
  {
    var local := w.allocators[i].nextLocal.value;
    Put(w, i, Allocator(Some(scope), NextLocal(local), Idle)).(
      issued := w.issued + [Issue(i, GpuWorkResourceId(scope, local))])
  }

  /** One atomic step of some thread, or none where that thread is not at that point. */
  function Step(w: World, e: Event): Option<World> {
    match e
    case Create => Some(w.(allocators := w.allocators + [FRESH]))
    case Begin(i) =>
      if i >= |w.allocators| || !w.allocators[i].phase.Idle? then None
      else
        var a := w.allocators[i];
        if a.nextLocal.None? then Some(w)
        else if a.scope.Some? then Some(Return(w, i, a.scope.value))
        else if Advance(w.counter).None? then Some(w)
        else Some(Put(w, i, a.(phase := Loaded(w.counter))))
    case Exchange(i, spurious) =>
      if i >= |w.allocators| || !w.allocators[i].phase.Loaded? then None
      else
        var a := w.allocators[i];
        if w.counter == a.phase.current && !spurious && Advance(w.counter).Some? then
          Some(Put(w, i, a.(phase := Won(w.counter))).(
                 counter := Advance(w.counter).value, granted := w.granted + [i]))
        else if Advance(w.counter).None? then Some(Put(w, i, a.(phase := Idle)))
        else Some(Put(w, i, a.(phase := Loaded(w.counter))))
    case Commit(i) =>
      if i >= |w.allocators| || !w.allocators[i].phase.Won? || w.allocators[i].nextLocal.None? then None
      else Some(Return(w, i, w.allocators[i].phase.scope))
  }

  /** The step that ends an allocation with the exhaustion error. */
  predicate Fails(w: World, e: Event) {
    match e
    case Begin(i) =>
      && i < |w.allocators| && w.allocators[i].phase.Idle?
      && (w.allocators[i].nextLocal.None? || (w.allocators[i].scope.None? && w.counter == 0))
    case Exchange(i, _) => i < |w.allocators| && w.allocators[i].phase.Loaded? && w.counter == 0
    case _ => false
  }

  predicate Run(first: u64, trace: seq<World>, events: seq<Event>) {
    && first != 0
    && |trace| == |events| + 1
    && trace[0] == World(first, [], [], [])
    && forall k | 0 <= k < |events| :: Step(trace[k], events[k]) == Some(trace[k + 1])
  }

  // ---------------------------------------------------------------------------------------------
  // The invariant
  // ---------------------------------------------------------------------------------------------

  function IssuedBy(issued: seq<Issue>, owner: nat): nat {
    if issued == [] then 0
    else IssuedBy(issued[..|issued| - 1], owner) + if issued[|issued| - 1].owner == owner then 1 else 0
  }

  /** The counter stands just past the scopes granted, or at zero when none are left. */
  predicate CounterFollowsGrants(first: u64, w: World) {
    && first + |w.granted| <= U64_MAX + 1
    && w.counter == if first + |w.granted| == U64_MAX + 1 then 0 else first + |w.granted|
  }

  /** Grant `k` gave scope `first + k` to one allocator, which still holds it; nobody else holds any. */
  predicate GrantsAreHeld(first: u64, w: World) {
    && (forall k | 0 <= k < |w.granted| ::
          w.granted[k] < |w.allocators| && w.allocators[w.granted[k]].held == Some(first + k))
    && (forall i | 0 <= i < |w.allocators| && w.allocators[i].held.Some? :: i in w.granted)
  }

  /** A scope is stored before the first identity is returned, and never while the loop runs. */
  predicate PhasesFit(w: World) {
    forall i | 0 <= i < |w.allocators| :: !w.allocators[i].phase.Idle? ==> w.allocators[i].scope.None?
  }

  /** An allocator that has returned `n` identities is about to return local `n + 1`. */
  predicate LocalsFollowIssues(w: World) {
    forall i | 0 <= i < |w.allocators| ::
      && IssuedBy(w.issued, i) <= U64_MAX
      && w.allocators[i].nextLocal == NextLocal(IssuedBy(w.issued, i))
      && (w.allocators[i].scope.None? ==> IssuedBy(w.issued, i) == 0)
  }

  predicate IssueFits(w: World, k: nat)
    requires k < |w.issued|
  {
    var issue := w.issued[k];
    && issue.owner < |w.allocators|
    && w.allocators[issue.owner].scope == Some(issue.id.ownerScope)
    && issue.id.local == IssuedBy(w.issued[..k], issue.owner) + 1
  }

  ghost predicate IssuesFit(w: World) {
    && (forall k | 0 <= k < |w.issued| :: IssueFits(w, k))
    && (forall i | i >= |w.allocators| :: IssuedBy(w.issued, i) == 0)
  }

  ghost predicate Invariant(first: u64, w: World) {
    && first != 0
    && CounterFollowsGrants(first, w)
    && GrantsAreHeld(first, w)
    && PhasesFit(w)
    && LocalsFollowIssues(w)
    && IssuesFit(w)
  }

  lemma IssuedByAppend(issued: seq<Issue>, issue: Issue, owner: nat)
    ensures IssuedBy(issued + [issue], owner) == IssuedBy(issued, owner) + if issue.owner == owner then 1 else 0
  {
  }

  lemma CreateKeepsInvariant(first: u64, w: World)
    requires Invariant(first, w)
    ensures Invariant(first, w.(allocators := w.allocators + [FRESH]))
  {
    var next := w.(allocators := w.allocators + [FRESH]);
    forall k | 0 <= k < |w.issued|
      ensures IssueFits(next, k)
    {
      assert IssueFits(w, k);
    }
  }

  /** Entering, retrying or leaving the loop empty-handed changes nothing that is shared. */
  lemma LoopStepKeepsInvariant(first: u64, w: World, i: nat, phase: Phase)
    requires Invariant(first, w) && i < |w.allocators|
    requires w.allocators[i].scope.None? && !w.allocators[i].phase.Won? && !phase.Won?
    ensures Invariant(first, Put(w, i, w.allocators[i].(phase := phase)))
  {
    var next := Put(w, i, w.allocators[i].(phase := phase));
    forall k | 0 <= k < |w.issued|
      ensures IssueFits(next, k)
    {
      assert IssueFits(w, k);
    }
  }

  /** Winning the exchange takes the scope the counter names and moves the counter past it. */
  lemma WinKeepsInvariant(first: u64, w: World, i: nat)
    requires Invariant(first, w) && i < |w.allocators|
    requires w.allocators[i].phase.Loaded? && w.counter != 0
    ensures Invariant(first, Put(w, i, w.allocators[i].(phase := Won(w.counter))).(
                               counter := Advance(w.counter).value, granted := w.granted + [i]))
  {
    var next := Put(w, i, w.allocators[i].(phase := Won(w.counter))).(
      counter := Advance(w.counter).value, granted := w.granted + [i]);
    forall k | 0 <= k < |next.granted|
      ensures next.granted[k] < |next.allocators| && next.allocators[next.granted[k]].held == Some(first + k)
    {
      if k < |w.granted| {
        assert w.allocators[w.granted[k]].held == Some(first + k);
      }
    }
    forall k | 0 <= k < |w.issued|
      ensures IssueFits(next, k)
    {
      assert IssueFits(w, k);
    }
  }

  /** Returning an identity under the scope the allocator holds. */
  lemma ReturnKeepsInvariant(first: u64, w: World, i: nat, scope: u64)
    requires Invariant(first, w) && i < |w.allocators|
    requires w.allocators[i].nextLocal.Some? && w.allocators[i].held == Some(scope)
    ensures Invariant(first, Return(w, i, scope))
  {
    var next := Return(w, i, scope);
    var issue := Issue(i, GpuWorkResourceId(scope, w.allocators[i].nextLocal.value));
    forall j: nat {
      IssuedByAppend(w.issued, issue, j);
    }
    forall k | 0 <= k < |next.issued|
      ensures IssueFits(next, k)
    {
      if k < |w.issued| {
        assert IssueFits(w, k);
        assert next.issued[..k] == w.issued[..k];
      } else {
        assert next.issued[..k] == w.issued;
      }
    }
    forall k | 0 <= k < |next.granted|
      ensures next.granted[k] < |next.allocators| && next.allocators[next.granted[k]].held == Some(first + k)
    {
      assert w.allocators[w.granted[k]].held == Some(first + k);
    }
  }

  /** A winner about to return holds the scope it won, for it has stored none yet. */
  lemma CommitKeepsInvariant(first: u64, w: World, i: nat)
    requires Invariant(first, w) && Step(w, Commit(i)).Some?
    ensures Invariant(first, Step(w, Commit(i)).value)
  {
    var a := w.allocators[i];
    assert a.scope.None? && a.held == Some(a.phase.scope);
    ReturnKeepsInvariant(first, w, i, a.phase.scope);
  }

  lemma ExchangeKeepsInvariant(first: u64, w: World, i: nat, spurious: bool)
    requires Invariant(first, w) && Step(w, Exchange(i, spurious)).Some?
    ensures Invariant(first, Step(w, Exchange(i, spurious)).value)
  {
    var a := w.allocators[i];
    assert a.scope.None?;
    if w.counter == a.phase.current && !spurious && w.counter != 0 {
      WinKeepsInvariant(first, w, i);
    } else {
      LoopStepKeepsInvariant(first, w, i, if w.counter == 0 then Idle else Loaded(w.counter));
    }
  }

  lemma BeginKeepsInvariant(first: u64, w: World, i: nat)
    requires Invariant(first, w) && Step(w, Begin(i)).Some?
    ensures Invariant(first, Step(w, Begin(i)).value)
  {
    var a := w.allocators[i];
    if a.nextLocal.Some? && a.scope.Some? {
      ReturnKeepsInvariant(first, w, i, a.scope.value);
    } else if a.nextLocal.Some? && w.counter != 0 {
      LoopStepKeepsInvariant(first, w, i, Loaded(w.counter));
    }
  }

  lemma StepKeepsInvariant(first: u64, w: World, e: Event)
    requires Invariant(first, w) && Step(w, e).Some?
    ensures Invariant(first, Step(w, e).value)
  {
    match e
    case Create => CreateKeepsInvariant(first, w);
    case Begin(i) => BeginKeepsInvariant(first, w, i);
    case Exchange(i, spurious) => ExchangeKeepsInvariant(first, w, i, spurious);
    case Commit(i) => CommitKeepsInvariant(first, w, i);
  }

  lemma {:induction false} InvariantHolds(first: u64, trace: seq<World>, events: seq<Event>, n: nat)
    requires Run(first, trace, events) && n < |trace|
    ensures Invariant(first, trace[n])
  {
    if n > 0 {
      InvariantHolds(first, trace, events, n - 1);
      assert Step(trace[n - 1], events[n - 1]) == Some(trace[n]);
      StepKeepsInvariant(first, trace[n - 1], events[n - 1]);
    }
  }

  // ---------------------------------------------------------------------------------------------
  // What every run guarantees
  // ---------------------------------------------------------------------------------------------

  lemma {:induction false} IssuedByGrows(issued: seq<Issue>, owner: nat, k: nat, l: nat)
    requires k <= l <= |issued|
    ensures IssuedBy(issued[..k], owner) <= IssuedBy(issued[..l], owner)
    decreases l
  {
    if k < l {
      IssuedByGrows(issued, owner, k, l - 1);
      assert issued[..l][..l - 1] == issued[..l - 1];
    }
  }

  /** Holding the same scope means being the same allocator. */
  lemma ScopesAreDistinct(first: u64, w: World, i: nat, j: nat)
    requires Invariant(first, w) && i < |w.allocators| && j < |w.allocators|
    requires w.allocators[i].held.Some? && w.allocators[i].held == w.allocators[j].held
    ensures i == j
  {
    var k :| 0 <= k < |w.granted| && w.granted[k] == i;
    var l :| 0 <= l < |w.granted| && w.granted[l] == j;
    assert w.allocators[w.granted[k]].held == Some(first + k);
    assert w.allocators[w.granted[l]].held == Some(first + l);
  }

  lemma HeldScopeIsNonzero(first: u64, w: World, i: nat)
    requires Invariant(first, w) && i < |w.allocators| && w.allocators[i].held.Some?
    ensures w.allocators[i].held.value != 0
  {
  }

  /**
   * In every interleaving, identities are nonzero and pairwise distinct; two of them share a scope
   * exactly if one allocator returned both, and then the later one has the larger local.
   */
  lemma IssuedIdentitiesAreUnique(
      first: u64, trace: seq<World>, events: seq<Event>, n: nat, k: nat, l: nat)
    requires Run(first, trace, events) && n < |trace|
    requires k < l < |trace[n].issued|
    ensures var earlier, later := trace[n].issued[k], trace[n].issued[l];
            && earlier.id.ownerScope != 0 && earlier.id.local != 0
            && earlier.id != later.id
            && (earlier.id.ownerScope == later.id.ownerScope <==> earlier.owner == later.owner)
            && (earlier.owner == later.owner ==> earlier.id.local < later.id.local)
  {
    var w := trace[n];
    InvariantHolds(first, trace, events, n);
    var earlier, later := w.issued[k], w.issued[l];
    assert IssueFits(w, k) && IssueFits(w, l);
    HeldScopeIsNonzero(first, w, earlier.owner);
    if earlier.id.ownerScope == later.id.ownerScope {
      ScopesAreDistinct(first, w, earlier.owner, later.owner);
    }
    if earlier.owner == later.owner {
      IssuedByGrows(w.issued, later.owner, k + 1, l);
      assert w.issued[..k + 1] == w.issued[..k] + [earlier];
      IssuedByAppend(w.issued[..k], earlier, later.owner);
    }
  }

  /** Scopes are granted consecutively from the first, however the retry loops interleave. */
  lemma ScopesAreConsecutive(first: u64, trace: seq<World>, events: seq<Event>, n: nat)
    requires Run(first, trace, events) && n < |trace|
    ensures var w := trace[n];
            && (forall k | 0 <= k < |w.granted| ::
                  w.granted[k] < |w.allocators| && w.allocators[w.granted[k]].held == Some(first + k))
            && (w.counter == 0 <==> |w.granted| == U64_MAX - first + 1)
            && (w.counter != 0 ==> w.counter == first + |w.granted|)
  {
    InvariantHolds(first, trace, events, n);
  }

  /** The owner's `m`-th identity carries local `m`, with no gaps left by failures or retries. */
  lemma LocalsAreConsecutive(first: u64, trace: seq<World>, events: seq<Event>, n: nat, k: nat)
    requires Run(first, trace, events) && n < |trace| && k < |trace[n].issued|
    ensures trace[n].issued[k].id.local == IssuedBy(trace[n].issued[..k], trace[n].issued[k].owner) + 1
  {
    InvariantHolds(first, trace, events, n);
    assert IssueFits(trace[n], k);
  }

  /** The allocator whose thread makes the step, if any. */
  predicate Concerns(e: Event, i: nat) {
    match e
    case Create => false
    case Begin(j) => j == i
    case Exchange(j, _) => j == i
    case Commit(j) => j == i
  }

  /** The step that fails changes nothing but the position of its own thread. */
  lemma FailureChangesNothing(w: World, e: Event)
    requires Step(w, e).Some? && Fails(w, e)
    ensures var next := Step(w, e).value;
            && next.counter == w.counter && next.granted == w.granted && next.issued == w.issued
            && |next.allocators| == |w.allocators|
            && forall i | 0 <= i < |w.allocators| ::
                 next.allocators[i].scope == w.allocators[i].scope
                 && next.allocators[i].nextLocal == w.allocators[i].nextLocal
  {
  }

  /** A thread's step fails exactly if it ends the allocation without returning an identity. */
  lemma FailureEndsEmptyHanded(w: World, e: Event, i: nat)
    requires Step(w, e).Some? && i < |w.allocators| && Concerns(e, i)
    ensures Fails(w, e) <==> Step(w, e).value.allocators[i].phase.Idle? && Step(w, e).value.issued == w.issued
  {
    assert forall issue :: |w.issued + [issue]| != |w.issued|;
  }

  lemma StepSparesOthers(w: World, e: Event, i: nat)
    requires Step(w, e).Some? && i < |w.allocators| && !Concerns(e, i)
    ensures i < |Step(w, e).value.allocators| && Step(w, e).value.allocators[i] == w.allocators[i]
  {
  }

  /** While a thread is still retrying, its allocator is as it was when the allocation began. */
  lemma {:induction false} RetryingAllocatorIsUnchanged(
      first: u64, trace: seq<World>, events: seq<Event>, begin: nat, k: nat, i: nat)
    requires Run(first, trace, events) && begin < k <= |events|
    requires events[begin] == Begin(i) && forall m | begin < m < k :: events[m] != Begin(i)
    ensures i < |trace[k].allocators| && i < |trace[begin].allocators|
    ensures trace[k].allocators[i].phase.Loaded? ==>
              trace[k].allocators[i].(phase := Idle) == trace[begin].allocators[i]
    decreases k
  {
    var w, e := trace[k - 1], events[k - 1];
    assert Step(w, e) == Some(trace[k]);
    if k - 1 > begin {
      RetryingAllocatorIsUnchanged(first, trace, events, begin, k - 1, i);
      if !Concerns(e, i) {
        StepSparesOthers(w, e, i);
      }
    }
  }

  /**
   * A failed allocation leaves its allocator as it was when the allocation began, however many
   * retries and other threads' steps lie between; and its last step takes nothing from the counter.
   */
  lemma FailedAllocationChangesNothing(
      first: u64, trace: seq<World>, events: seq<Event>, begin: nat, end: nat, i: nat)
    requires Run(first, trace, events) && begin <= end < |events|
    requires events[begin] == Begin(i) && forall m | begin < m <= end :: events[m] != Begin(i)
    requires Concerns(events[end], i) && Fails(trace[end], events[end])
    ensures i < |trace[begin].allocators| && i < |trace[end + 1].allocators|
    ensures trace[end + 1].allocators[i] == trace[begin].allocators[i]
    ensures trace[end + 1].counter == trace[end].counter && trace[end + 1].granted == trace[end].granted
    ensures trace[end + 1].issued == trace[end].issued
  {
    assert Step(trace[end], events[end]) == Some(trace[end + 1]);
    FailureChangesNothing(trace[end], events[end]);
    if begin < end {
      RetryingAllocatorIsUnchanged(first, trace, events, begin, end, i);
    }
  }

  /** Returned identities are never taken back, and the order of returns is never rewritten. */
  lemma {:induction false} HistoryGrows(first: u64, trace: seq<World>, events: seq<Event>, i: nat, j: nat)
    requires Run(first, trace, events) && i <= j < |trace|
    ensures trace[i].issued <= trace[j].issued && trace[i].granted <= trace[j].granted
    ensures |trace[i].allocators| <= |trace[j].allocators|
    decreases j
  {
    if i < j {
      HistoryGrows(first, trace, events, i, j - 1);
      assert Step(trace[j - 1], events[j - 1]) == Some(trace[j]);
    }
  }

  /** Once the counter is exhausted no scope is granted any more. */
  lemma {:induction false} ScopeExhaustionIsFinal(first: u64, trace: seq<World>, events: seq<Event>, i: nat, j: nat)
    requires Run(first, trace, events) && i <= j < |trace|
    requires trace[i].counter == 0
    ensures trace[j].counter == 0 && trace[j].granted == trace[i].granted
    decreases j
  {
    if i < j {
      ScopeExhaustionIsFinal(first, trace, events, i, j - 1);
      assert Step(trace[j - 1], events[j - 1]) == Some(trace[j]);
    }
  }

  /** One step either returns nothing, or returns one identity of an allocator that had locals left. */
  lemma StepIssuesAtMostOne(w: World, e: Event)
    requires Step(w, e).Some?
    ensures var next := Step(w, e).value;
            || next.issued == w.issued
            || exists issue: Issue ::
                 && next.issued == w.issued + [issue]
                 && issue.owner < |w.allocators| && w.allocators[issue.owner].nextLocal.Some?
  {
    match e
    case Create =>
    case Exchange(_, _) =>
    case Begin(i) =>
      if w.allocators[i].nextLocal.Some? && w.allocators[i].scope.Some? {
        ReturnIssuesOne(w, i, w.allocators[i].scope.value);
      }
    case Commit(i) => ReturnIssuesOne(w, i, w.allocators[i].phase.scope);
  }

  lemma ReturnIssuesOne(w: World, i: nat, scope: u64)
    requires i < |w.allocators| && w.allocators[i].nextLocal.Some?
    ensures Return(w, i, scope).issued
            == w.issued + [Issue(i, GpuWorkResourceId(scope, w.allocators[i].nextLocal.value))]
  {
  }

  lemma ExhaustedStaysExhausted(w: World, e: Event, owner: nat)
    requires Step(w, e).Some? && owner < |w.allocators| && w.allocators[owner].nextLocal.None?
    ensures var next := Step(w, e).value; owner < |next.allocators| && next.allocators[owner].nextLocal.None?
  {
    if !Concerns(e, owner) {
      StepSparesOthers(w, e, owner);
    }
  }

  /** An allocator whose locals are exhausted returns nothing any more. */
  lemma {:induction false} LocalExhaustionIsFinal(
      first: u64, trace: seq<World>, events: seq<Event>, i: nat, j: nat, owner: nat)
    requires Run(first, trace, events) && i <= j < |trace|
    requires owner < |trace[i].allocators| && trace[i].allocators[owner].nextLocal.None?
    ensures owner < |trace[j].allocators| && trace[j].allocators[owner].nextLocal.None?
    ensures IssuedBy(trace[j].issued, owner) == IssuedBy(trace[i].issued, owner)
    decreases j
  {
    if i < j {
      LocalExhaustionIsFinal(first, trace, events, i, j - 1, owner);
      var w, e := trace[j - 1], events[j - 1];
      assert Step(w, e) == Some(trace[j]);
      ExhaustedStaysExhausted(w, e, owner);
      StepIssuesAtMostOne(w, e);
      if trace[j].issued != w.issued {
        var issue: Issue :| trace[j].issued == w.issued + [issue] && issue.owner < |w.allocators|
                            && w.allocators[issue.owner].nextLocal.Some?;
        IssuedByAppend(w.issued, issue, owner);
      }
    }
  }

  /** A genuine failure of the exchange means that somebody else has won a scope since the load. */
  lemma ExchangeLosesOnlyToAWinner(
      first: u64, trace: seq<World>, events: seq<Event>, load: nat, attempt: nat, current: u64)
    requires Run(first, trace, events) && load <= attempt < |trace|
    requires trace[load].counter == current != trace[attempt].counter
    ensures |trace[load].granted| < |trace[attempt].granted|
  {
    InvariantHolds(first, trace, events, load);
    InvariantHolds(first, trace, events, attempt);
    HistoryGrows(first, trace, events, load, attempt);
  }

  /** A thread can always make the step its position calls for, and no other step of its own. */
  lemma ThreadsAreNeverStuck(first: u64, w: World, i: nat, spurious: bool)
    requires Invariant(first, w)
    ensures Step(w, Begin(i)).Some? <==> i < |w.allocators| && w.allocators[i].phase.Idle?
    ensures Step(w, Exchange(i, spurious)).Some? <==> i < |w.allocators| && w.allocators[i].phase.Loaded?
    ensures Step(w, Commit(i)).Some? <==> i < |w.allocators| && w.allocators[i].phase.Won?
  {
    if i < |w.allocators| && w.allocators[i].phase.Won? {
      assert w.allocators[i].scope.None? && w.allocators[i].nextLocal == NextLocal(0);
    }
  }

  /**
   * While scopes are left, an exchange wins the scope the counter names exactly if it is genuine and
   * has loaded that value; a lost one changes nothing but its own load, and wins if it is repeated at
   * once.
   */
  lemma LostExchangeCanBeRepeated(first: u64, w: World, i: nat, spurious: bool)
    requires Invariant(first, w) && w.counter != 0
    requires i < |w.allocators| && w.allocators[i].phase.Loaded?
    ensures var next := Step(w, Exchange(i, spurious)).value;
            && (next.granted == w.granted + [i] <==> !spurious && w.allocators[i].phase.current == w.counter)
            && (next.granted == w.granted + [i] ==> next.allocators[i].phase == Won(w.counter))
            && (next.granted != w.granted + [i] ==>
                  && next == w.(allocators := w.allocators[i := w.allocators[i].(phase := Loaded(w.counter))])
                  && Step(next, Exchange(i, false)).value.granted == w.granted + [i])
  {
    assert w.granted != w.granted + [i] by {
      assert |w.granted| != |w.granted + [i]|;
    }
  }

  /** A winner returns the scope it won, with the first local. */
  lemma WinnerReturnsItsScope(first: u64, w: World, i: nat)
    requires Invariant(first, w) && i < |w.allocators| && w.allocators[i].phase.Won?
    ensures var next := Step(w, Commit(i)).value;
            && Step(w, Commit(i)).Some?
            && next.issued == w.issued + [Issue(i, GpuWorkResourceId(w.allocators[i].phase.scope, 1))]
            && next.allocators[i].phase == Idle
  {
    ThreadsAreNeverStuck(first, w, i, false);
    assert w.allocators[i].scope.None? && w.allocators[i].nextLocal == NextLocal(0);
  }

  // ---------------------------------------------------------------------------------------------
  // Refinement of the sequential allocation
  // ---------------------------------------------------------------------------------------------

  /** The steps of one allocation that nobody disturbs. */
  function Undisturbed(w: World, i: nat): World
    requires i < |w.allocators| && w.allocators[i].phase.Idle?
  {
    var begun := Step(w, Begin(i)).value;
    if !begun.allocators[i].phase.Loaded? then begun
    else
      var exchanged := Step(begun, Exchange(i, false)).value;
      if !exchanged.allocators[i].phase.Won? then exchanged
      else Step(exchanged, Commit(i)).value
  }

  /** Undisturbed steps compute the sequential allocation, and touch nothing but one allocator. */
  lemma UndisturbedIsSequential(w: World, i: nat)
    requires i < |w.allocators| && w.allocators[i].phase.Idle?
    ensures var before, after := w.allocators[i], Undisturbed(w, i);
            var outcome := Allocated(before.scope, before.nextLocal, w.counter);
            && after.counter == outcome.counter
            && after.allocators == w.allocators[i := Allocator(outcome.scope, outcome.nextLocal, Idle)]
            && after.issued == w.issued + if outcome.result.Ok? then [Issue(i, outcome.result.value)] else []
  {
  }
}
