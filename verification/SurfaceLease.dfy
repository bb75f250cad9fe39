/**
 * The lifecycle of one acquired surface image: a disposition changed only by compare-and-exchange, a
 * counted owner whose last drop runs in separate steps, and a releaser held weakly.
 */
module SurfaceLease {
  import opened Common

  datatype Disposition = Active | Abandoned | Presented {

    const code: u8 := match this case Active => 0 case Abandoned => 1 case Presented => 2

    function OnAbandon(): Disposition {
      if Active? then Abandoned else this
    }

    function OnPresent(): Disposition {
      if Active? then Presented else this
    }
  }

  predicate IsCode(value: u8) {
    value <= 2
  }

  function FromCode(value: u8): (d: Disposition)
    requires IsCode(value)
    ensures d.code == value
  {
    if value == 0 then Active else if value == 1 then Abandoned else Presented
  }

  // ---------------------------------------------------------------------------------------------
  // The objects
  // ---------------------------------------------------------------------------------------------

  class GpuSurfaceLeaseState {
    var disposition: u8

    predicate Valid()
      reads this
    {
      IsCode(disposition)
    }

    function Current(): Disposition
      requires Valid()
      reads this
    {
      FromCode(disposition)
    }

    constructor ()
      ensures Valid() && Current() == Active
    {
      disposition := Active.code;
    }

    /** The one atomic instruction: its result is the value it found. */
    method CompareExchange(expected: u8, replacement: u8) returns (found: Result<u8, u8>)
      modifies this
      ensures found == if old(disposition) == expected then Ok(old(disposition)) else Err(old(disposition))
      ensures disposition == if old(disposition) == expected then replacement else old(disposition)
    {
      if disposition == expected {
        found := Ok(disposition);
        disposition := replacement;
      } else {
        found := Err(disposition);
      }
    }

    method Abandon()
      requires Valid()
      modifies this
      ensures Valid() && Current() == old(Current()).OnAbandon()
    {
      var _ := CompareExchange(Active.code, Abandoned.code);
    }

    /** Succeeds exactly on an active lease, and otherwise reports what the lease became. */
    method Present() returns (r: Result<(), Disposition>)
      requires Valid()
      modifies this
      ensures Valid() && Current() == old(Current()).OnPresent()
      ensures r == if old(Current()).Active? then Ok(()) else Err(Current())
    {
      var found := CompareExchange(Active.code, Presented.code);
      match found
      case Ok(_) => return Ok(());
      case Err(value) => return Err(FromCode(value));
    }
  }

  /** A releaser, seen only through the dispositions its calls observe. */
  class GpuSurfaceLeaseReleaser {
    var calls: seq<Disposition>

    constructor ()
      ensures calls == []
    {
      calls := [];
    }

    method Release(lease: GpuSurfaceLeaseState)
      requires lease.Valid()
      modifies this
      ensures calls == old(calls) + [lease.Current()]
    {
      calls := calls + [lease.Current()];
    }
  }

  class GpuSurfaceLeaseOwner {
    const lease: GpuSurfaceLeaseState
    const releaser: GpuSurfaceLeaseReleaser

    constructor (lease: GpuSurfaceLeaseState, releaser: GpuSurfaceLeaseReleaser)
      ensures this.lease == lease && this.releaser == releaser
    {
      this.lease, this.releaser := lease, releaser;
    }

    /** The last owner's drop, undisturbed; `upgraded` is the outcome of upgrading the weak reference. */
    method Drop(upgraded: bool)
      requires lease.Valid()
      modifies lease, releaser
      ensures lease.Valid() && lease.Current() == old(lease.Current()).OnAbandon() != Active
      ensures releaser.calls == if upgraded then old(releaser.calls) + [lease.Current()] else old(releaser.calls)
    {
      lease.Abandon();
      if upgraded {
        releaser.Release(lease);
      }
    }
  }

  // ---------------------------------------------------------------------------------------------
  // The interleaved protocol
  // ---------------------------------------------------------------------------------------------

  /** Where the drop of the last owner stands. */
  datatype DropPhase = NotStarted | Marking | Upgrading | Releasing | Finished {

    const rank: nat :=
      match this case NotStarted => 0 case Marking => 1 case Upgrading => 2 case Releasing => 3 case Finished => 4
  }

  datatype Lease = Lease(disposition: Disposition, owners: nat, phase: DropPhase, releasers: nat) {

    /** Strong references to the releaser other than the one the drop itself holds. */
    const othersHold: bool := releasers > if phase == Releasing then 1 else 0
  }

  /** One atomic step of some thread. */
  datatype Event =
    | Present
    | Abandon
    | CloneOwner
    | UpgradeOwner
    | DropOwner
    | DropMarks
    | DropUpgrades
    | DropReleases
    | CloneReleaser
    | DropReleaser

  predicate Initial(s: Lease) {
    s.disposition == Active && s.owners == 1 && s.phase == NotStarted
  }

  /** The state after a step, or none where the step cannot happen. */
  function Step(s: Lease, e: Event): Option<Lease> {
    match e
    case Present => Some(s.(disposition := s.disposition.OnPresent()))
    case Abandon => Some(s.(disposition := s.disposition.OnAbandon()))
    case CloneOwner => if s.owners > 0 then Some(s.(owners := s.owners + 1)) else None
    case UpgradeOwner => Some(if s.owners > 0 then s.(owners := s.owners + 1) else s)
    case DropOwner =>
      if s.owners == 0 then None
      else Some(s.(owners := s.owners - 1, phase := if s.owners == 1 then Marking else s.phase))
    case DropMarks =>
      if s.phase == Marking then Some(s.(disposition := s.disposition.OnAbandon(), phase := Upgrading)) else None
    case DropUpgrades =>
      if s.phase != Upgrading then None
      else Some(if s.releasers > 0 then s.(releasers := s.releasers + 1, phase := Releasing) else s.(phase := Finished))
    case DropReleases =>
      if s.phase == Releasing && s.releasers > 0 then Some(s.(releasers := s.releasers - 1, phase := Finished))
      else None
    case CloneReleaser => if s.othersHold then Some(s.(releasers := s.releasers + 1)) else None
    case DropReleaser => if s.othersHold then Some(s.(releasers := s.releasers - 1)) else None
  }

  /** `events` are the steps of all threads in the order they took effect. */
  predicate Run(trace: seq<Lease>, events: seq<Event>) {
    && |trace| == |events| + 1
    && Initial(trace[0])
    && forall i | 0 <= i < |events| :: Step(trace[i], events[i]) == Some(trace[i + 1])
  }

  predicate Invariant(s: Lease) {
    && (s.owners > 0 <==> s.phase == NotStarted)
    && (s.phase.rank >= Upgrading.rank ==> s.disposition != Active)
    && (s.phase == Releasing ==> s.releasers > 0)
  }

  lemma {:induction false} InvariantHolds(trace: seq<Lease>, events: seq<Event>, i: nat)
    requires Run(trace, events) && i < |trace|
    ensures Invariant(trace[i])
  {
    if i > 0 {
      InvariantHolds(trace, events, i - 1);
      assert Step(trace[i - 1], events[i - 1]) == Some(trace[i]);
    }
  }

  /** Whoever holds an owner can share or drop it, and whoever holds the releaser likewise. */
  lemma StepsAreEnabledExactly(s: Lease, e: Event)
    requires Invariant(s)
    ensures Step(s, e).None? <==>
              || (e in {CloneOwner, DropOwner} && s.phase != NotStarted)
              || (e == DropMarks && s.phase != Marking)
              || (e == DropUpgrades && s.phase != Upgrading)
              || (e == DropReleases && s.phase != Releasing)
              || (e in {CloneReleaser, DropReleaser} && s.releasers == if s.phase == Releasing then 1 else 0)
  {
  }

  // ---------------------------------------------------------------------------------------------
  // Disposition
  // ---------------------------------------------------------------------------------------------

  /** Whatever ends an active lease is final. */
  lemma {:induction false} SettledDispositionStays(trace: seq<Lease>, events: seq<Event>, i: nat, j: nat)
    requires Run(trace, events) && i <= j < |trace|
    requires trace[i].disposition != Active
    ensures trace[j].disposition == trace[i].disposition
    decreases j
  {
    if i < j {
      SettledDispositionStays(trace, events, i, j - 1);
      assert Step(trace[j - 1], events[j - 1]) == Some(trace[j]);
    }
  }

  /** Abandoning settles the lease, as does the last drop; neither takes back a presentation. */
  lemma AbandoningSettles(trace: seq<Lease>, events: seq<Event>, i: nat, j: nat)
    requires Run(trace, events) && i < |events| && events[i] in {Abandon, DropMarks}
    requires i < j < |trace|
    ensures trace[j].disposition == if trace[i].disposition == Presented then Presented else Abandoned
  {
    assert Step(trace[i], events[i]) == Some(trace[i + 1]);
    SettledDispositionStays(trace, events, i + 1, j);
  }

  predicate Changes(trace: seq<Lease>, i: nat)
    requires i + 1 < |trace|
  {
    trace[i].disposition != trace[i + 1].disposition
  }

  lemma DispositionChangesAtMostOnce(trace: seq<Lease>, events: seq<Event>, i: nat, j: nat)
    requires Run(trace, events) && i < |events| && j < |events|
    requires Changes(trace, i) && Changes(trace, j)
    ensures i == j
    ensures trace[i].disposition == Active
  {
    assert Step(trace[i], events[i]) == Some(trace[i + 1]);
    assert Step(trace[j], events[j]) == Some(trace[j + 1]);
    if i < j {
      SettledDispositionStays(trace, events, i + 1, j);
    } else if j < i {
      SettledDispositionStays(trace, events, j + 1, i);
    }
  }

  predicate PresentSucceeds(trace: seq<Lease>, events: seq<Event>, i: nat)
    requires i < |events| < |trace|
  {
    events[i] == Present && trace[i].disposition == Active
  }

  lemma AtMostOnePresentSucceeds(trace: seq<Lease>, events: seq<Event>, i: nat, j: nat)
    requires Run(trace, events) && i < |events| && j < |events|
    requires PresentSucceeds(trace, events, i) && PresentSucceeds(trace, events, j)
    ensures i == j
  {
    assert Step(trace[i], events[i]) == Some(trace[i + 1]);
    assert Step(trace[j], events[j]) == Some(trace[j + 1]);
    DispositionChangesAtMostOnce(trace, events, i, j);
  }

  /** A lease reads as presented exactly when some present succeeded before; nothing overwrites it. */
  lemma {:induction false} PresentedIffAPresentSucceeded(trace: seq<Lease>, events: seq<Event>, n: nat)
    requires Run(trace, events) && n < |trace|
    ensures trace[n].disposition == Presented <==> exists i :: 0 <= i < n && PresentSucceeds(trace, events, i)
  {
    if n > 0 {
      PresentedIffAPresentSucceeded(trace, events, n - 1);
      assert Step(trace[n - 1], events[n - 1]) == Some(trace[n]);
      if trace[n].disposition == Presented && trace[n - 1].disposition != Presented {
        assert PresentSucceeds(trace, events, n - 1);
      }
    }
  }

  // ---------------------------------------------------------------------------------------------
  // Owners
  // ---------------------------------------------------------------------------------------------

  /** New owner references granted during the first `n` steps. */
  function Granted(trace: seq<Lease>, events: seq<Event>, n: nat): nat
    requires n <= |events| < |trace|
  {
    if n == 0 then 0
    else
      Granted(trace, events, n - 1)
      + if events[n - 1] == CloneOwner || (events[n - 1] == UpgradeOwner && trace[n - 1].owners > 0) then 1 else 0
  }

  function Surrendered(events: seq<Event>, n: nat): nat
    requires n <= |events|
  {
    if n == 0 then 0 else Surrendered(events, n - 1) + if events[n - 1] == DropOwner then 1 else 0
  }

  /** References are conserved, and the drop starts exactly when the last one is surrendered. */
  lemma {:induction false} OwnersAreConserved(trace: seq<Lease>, events: seq<Event>, n: nat)
    requires Run(trace, events) && n <= |events|
    ensures trace[n].owners + Surrendered(events, n) == 1 + Granted(trace, events, n)
    ensures trace[n].phase != NotStarted <==> Surrendered(events, n) == 1 + Granted(trace, events, n)
  {
    InvariantHolds(trace, events, n);
    if n > 0 {
      OwnersAreConserved(trace, events, n - 1);
      assert Step(trace[n - 1], events[n - 1]) == Some(trace[n]);
    }
  }

  /** Strong references to the releaser taken during the first `n` steps, the drop's own upgrade included. */
  function Retained(trace: seq<Lease>, events: seq<Event>, n: nat): nat
    requires n <= |events| < |trace|
  {
    if n == 0 then 0
    else
      Retained(trace, events, n - 1)
      + if events[n - 1] == CloneReleaser || (events[n - 1] == DropUpgrades && trace[n - 1].releasers > 0) then 1
        else 0
  }

  function Returned(events: seq<Event>, n: nat): nat
    requires n <= |events|
  {
    if n == 0 then 0
    else Returned(events, n - 1) + if events[n - 1] in {DropReleaser, DropReleases} then 1 else 0
  }

  /** References to the releaser are conserved: the drop gives back what it took. */
  lemma {:induction false} ReleasersAreConserved(trace: seq<Lease>, events: seq<Event>, n: nat)
    requires Run(trace, events) && n <= |events|
    ensures trace[n].releasers + Returned(events, n) == trace[0].releasers + Retained(trace, events, n)
  {
    if n > 0 {
      ReleasersAreConserved(trace, events, n - 1);
      assert Step(trace[n - 1], events[n - 1]) == Some(trace[n]);
    }
  }

  /** A dead owner is never brought back by upgrading a weak reference. */
  lemma {:induction false} NoResurrection(trace: seq<Lease>, events: seq<Event>, i: nat, j: nat)
    requires Run(trace, events) && i <= j < |trace|
    requires trace[i].owners == 0
    ensures trace[j].owners == 0
    decreases j
  {
    if i < j {
      NoResurrection(trace, events, i, j - 1);
      assert Step(trace[j - 1], events[j - 1]) == Some(trace[j]);
    }
  }

  // ---------------------------------------------------------------------------------------------
  // Release
  // ---------------------------------------------------------------------------------------------

  lemma {:induction false} PhaseNeverGoesBack(trace: seq<Lease>, events: seq<Event>, i: nat, j: nat)
    requires Run(trace, events) && i <= j < |trace|
    ensures trace[i].phase.rank <= trace[j].phase.rank
    decreases j
  {
    if i < j {
      PhaseNeverGoesBack(trace, events, i, j - 1);
      InvariantHolds(trace, events, j - 1);
      assert Step(trace[j - 1], events[j - 1]) == Some(trace[j]);
    }
  }

  predicate IsDropStep(e: Event) {
    e == DropMarks || e == DropUpgrades || e == DropReleases
  }

  /** Each step of the drop, the release among them, happens at most once in a run. */
  lemma DropStepsHappenOnce(trace: seq<Lease>, events: seq<Event>, i: nat, j: nat)
    requires Run(trace, events) && i < |events| && j < |events|
    requires IsDropStep(events[i]) && events[i] == events[j]
    ensures i == j
  {
    assert Step(trace[i], events[i]) == Some(trace[i + 1]);
    assert Step(trace[j], events[j]) == Some(trace[j + 1]);
    if i < j {
      PhaseNeverGoesBack(trace, events, i + 1, j);
    } else if j < i {
      PhaseNeverGoesBack(trace, events, j + 1, i);
    }
  }

  /** The releaser is called on a settled lease, after every owner is gone. */
  lemma ReleaseSeesASettledLease(trace: seq<Lease>, events: seq<Event>, i: nat)
    requires Run(trace, events) && i < |events|
    requires events[i] == DropReleases
    ensures trace[i].disposition != Active
    ensures forall j | i <= j < |trace| :: trace[j].owners == 0 && trace[j].disposition == trace[i].disposition
  {
    InvariantHolds(trace, events, i);
    assert Step(trace[i], events[i]) == Some(trace[i + 1]);
    forall j | i <= j < |trace|
      ensures trace[j].owners == 0 && trace[j].disposition == trace[i].disposition
    {
      NoResurrection(trace, events, i, j);
      SettledDispositionStays(trace, events, i, j);
    }
  }

  /** Only the release itself leads out of the releasing phase. */
  lemma {:induction false} ReleasingEndsByRelease(trace: seq<Lease>, events: seq<Event>, i: nat, n: nat)
    requires Run(trace, events) && i <= n < |trace|
    requires trace[i].phase == Releasing
    ensures trace[n].phase == Releasing || exists r :: i <= r < n && events[r] == DropReleases
    decreases n
  {
    if i < n {
      ReleasingEndsByRelease(trace, events, i, n - 1);
      InvariantHolds(trace, events, n - 1);
      assert Step(trace[n - 1], events[n - 1]) == Some(trace[n]);
    }
  }

  /** A drop that is over has passed through its upgrade. */
  lemma {:induction false} FinishedDropHasUpgraded(trace: seq<Lease>, events: seq<Event>, n: nat)
    requires Run(trace, events) && n < |trace|
    requires trace[n].phase.rank >= Releasing.rank
    ensures exists u :: 0 <= u < n && events[u] == DropUpgrades
    decreases n
  {
    if n > 0 {
      assert Step(trace[n - 1], events[n - 1]) == Some(trace[n]);
      if trace[n - 1].phase.rank >= Releasing.rank {
        FinishedDropHasUpgraded(trace, events, n - 1);
      } else {
        InvariantHolds(trace, events, n - 1);
        assert events[n - 1] == DropUpgrades;
      }
    }
  }

  lemma NoReleaseAfterFailedUpgrade(trace: seq<Lease>, events: seq<Event>, u: nat, r: nat)
    requires Run(trace, events) && u < |events| && r < |events|
    requires events[u] == DropUpgrades && events[r] == DropReleases
    ensures trace[u].releasers > 0
  {
    assert Step(trace[u], events[u]) == Some(trace[u + 1]);
    assert Step(trace[r], events[r]) == Some(trace[r + 1]);
    if r < u {
      PhaseNeverGoesBack(trace, events, r + 1, u);
    } else {
      PhaseNeverGoesBack(trace, events, u + 1, r);
    }
  }

  /**
   * Once the drop is over it has upgraded exactly once, and the releaser was called exactly if it was
   * alive at that moment.
   */
  lemma ReleasedExactlyIfAlive(trace: seq<Lease>, events: seq<Event>)
    requires Run(trace, events) && trace[|events|].phase == Finished
    ensures exists u :: 0 <= u < |events| && events[u] == DropUpgrades
    ensures forall u | 0 <= u < |events| && events[u] == DropUpgrades ::
              trace[u].releasers > 0 <==> exists r :: 0 <= r < |events| && events[r] == DropReleases
  {
    FinishedDropHasUpgraded(trace, events, |events|);
    forall u | 0 <= u < |events| && events[u] == DropUpgrades
      ensures trace[u].releasers > 0 <==> exists r :: 0 <= r < |events| && events[r] == DropReleases
    {
      assert Step(trace[u], events[u]) == Some(trace[u + 1]);
      if trace[u].releasers > 0 {
        ReleasingEndsByRelease(trace, events, u + 1, |events|);
      } else if exists r :: 0 <= r < |events| && events[r] == DropReleases {
        var r :| 0 <= r < |events| && events[r] == DropReleases;
        NoReleaseAfterFailedUpgrade(trace, events, u, r);
      }
    }
  }

  // ---------------------------------------------------------------------------------------------
  // Progress
  // ---------------------------------------------------------------------------------------------

  function After(s: Lease, events: seq<Event>): Option<Lease>
    decreases |events|
  {
    if events == [] then Some(s)
    else
      match Step(s, events[0])
      case Some(next) => After(next, events[1..])
      case None => None
  }

  /** The steps that end a lease from `s` when nobody else interferes. */
  function Ending(s: Lease): seq<Event>
    requires Invariant(s)
    decreases s.owners, 4 - s.phase.rank
  {
    match s.phase
    case NotStarted => [DropOwner] + Ending(Step(s, DropOwner).value)
    case Marking => [DropMarks] + Ending(Step(s, DropMarks).value)
    case Upgrading => [DropUpgrades] + Ending(Step(s, DropUpgrades).value)
    case Releasing => [DropReleases] + Ending(Step(s, DropReleases).value)
    case Finished => []
  }

  /** No reachable state is stuck: dropping what is held always completes, within a known number of steps. */
  lemma {:induction false} EveryLeaseCanEnd(s: Lease)
    requires Invariant(s)
    ensures After(s, Ending(s)).Some? && After(s, Ending(s)).value.phase == Finished
    ensures After(s, Ending(s)).value.disposition == s.disposition.OnAbandon()
    ensures |Ending(s)| <= s.owners + 4 - Max(s.phase.rank, 1)
    decreases s.owners, 4 - s.phase.rank
  {
    if s.phase != Finished {
      var next := Step(s, Ending(s)[0]).value;
      EveryLeaseCanEnd(next);
      assert Ending(s)[1..] == Ending(next);
    }
  }

  /** The last drop can lose the race to a present: the image is then released as presented. */
  lemma PresentCanWinTheLastDrop()
    ensures After(Lease(Active, 1, NotStarted, 1), [DropOwner, Present, DropMarks, DropUpgrades, DropReleases])
            == Some(Lease(Presented, 0, Finished, 1))
  {
    var s := Lease(Active, 1, NotStarted, 1);
    assert [DropOwner, Present, DropMarks, DropUpgrades, DropReleases][1..]
        == [Present, DropMarks, DropUpgrades, DropReleases];
    assert [Present, DropMarks, DropUpgrades, DropReleases][1..] == [DropMarks, DropUpgrades, DropReleases];
    assert [DropMarks, DropUpgrades, DropReleases][1..] == [DropUpgrades, DropReleases];
    assert [DropUpgrades, DropReleases][1..] == [DropReleases];
    assert [DropReleases][1..] == [];
    assert After(Lease(Presented, 0, Releasing, 2), [DropReleases]) == Some(Lease(Presented, 0, Finished, 1));
    assert After(Lease(Presented, 0, Upgrading, 1), [DropUpgrades, DropReleases])
        == Some(Lease(Presented, 0, Finished, 1));
  }
}
