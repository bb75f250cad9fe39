/** No inferred dependency is superfluous: between nodes that both write, each one orders work that needs it. */
module DependencyNecessity {
  import opened Hazards
  import opened WorkMeaning

  /** Work that stores a constant at one location. */
  function Setting(accesses: NodeAccesses, at: Location): Work {
    Work(accesses, (m: Memory) => if at in m then m[at := 1] else m)
  }

  /** Work that stores at one location what it makes of another. */
  function Deriving(accesses: NodeAccesses, from: Location, into: Location): Work {
    Work(accesses, (m: Memory) => if from in m && into in m then m[into := m[from] + 2] else m)
  }

  lemma WriteIsUse(accesses: NodeAccesses, at: Location)
    requires WritesAt(accesses, at)
    ensures UsesAt(accesses, at)
  {
  }

  lemma SettingDependsOnUses(
      accesses: NodeAccesses, at: Location, m: Memory, other: Memory, x: Location)
    requires x in m && WritesAt(accesses, x) && Agree(m, other, accesses)
    ensures x in other && Setting(accesses, at).effect(m)[x] == Setting(accesses, at).effect(other)[x]
  {
    WriteIsUse(accesses, x);
    assert x in m.Keys && x in other.Keys;
  }

  lemma SettingObeys(accesses: NodeAccesses, at: Location)
    requires WritesAt(accesses, at)
    ensures Obeys(Setting(accesses, at))
  {
    var work := Setting(accesses, at);
    forall m: Memory, other: Memory, x | x in m && WritesAt(work.accesses, x) && Agree(m, other, work.accesses)
      ensures work.effect(m).Keys == m.Keys && work.effect(other).Keys == other.Keys
      ensures work.effect(m)[x] == work.effect(other)[x]
    {
      SettingDependsOnUses(accesses, at, m, other, x);
    }
  }

  lemma DerivingDependsOnUses(
      accesses: NodeAccesses, from: Location, into: Location, m: Memory, other: Memory, x: Location)
    requires x in m && UsesAt(accesses, from) && WritesAt(accesses, x) && Agree(m, other, accesses)
    ensures x in other
    ensures Deriving(accesses, from, into).effect(m)[x] == Deriving(accesses, from, into).effect(other)[x]
  {
    WriteIsUse(accesses, x);
    assert x in m.Keys && x in other.Keys;
    assert from in m.Keys <==> from in other.Keys;
    assert into in m.Keys <==> into in other.Keys;
  }

  lemma DerivingObeys(accesses: NodeAccesses, from: Location, into: Location)
    requires UsesAt(accesses, from) && WritesAt(accesses, into)
    ensures Obeys(Deriving(accesses, from, into))
  {
    var work := Deriving(accesses, from, into);
    forall m: Memory, other: Memory, x | x in m && WritesAt(work.accesses, x) && Agree(m, other, work.accesses)
      ensures work.effect(m).Keys == m.Keys && work.effect(other).Keys == other.Keys
      ensures work.effect(m)[x] == work.effect(other)[x]
    {
      DerivingDependsOnUses(accesses, from, into, m, other, x);
    }
  }

  /** Deriving from a location before it is set is not deriving from it afterwards. */
  lemma DerivingSeesSetting(one: NodeAccesses, other: NodeAccesses, at: Location, into: Location)
    ensures var m: Memory := map[at := 0, into := 0];
            Deriving(other, at, into).effect(Setting(one, at).effect(m))
            != Setting(one, at).effect(Deriving(other, at, into).effect(m))
  {
    var m: Memory := map[at := 0, into := 0];
    var set_, derived := Setting(one, at).effect(m), Deriving(other, at, into).effect(m);
    assert Deriving(other, at, into).effect(set_)[into] == 3;
    assert Setting(one, at).effect(derived)[into] < 3;
  }

  ghost predicate DifferAfter(x: Work, y: Work, m: Memory) {
    y.effect(x.effect(m)) != x.effect(y.effect(m))
  }

  /** Some work with these accesses leaves different memories in the two orders. */
  ghost predicate OrderMatters(a: NodeAccesses, b: NodeAccesses) {
    exists x: Work, y: Work, m: Memory ::
      x.accesses == a && y.accesses == b && Obeys(x) && Obeys(y) && DifferAfter(x, y, m)
  }

  ghost predicate WritesSomewhere(accesses: NodeAccesses) {
    exists at :: WritesAt(accesses, at)
  }

  lemma OrderMattersIsSymmetric(a: NodeAccesses, b: NodeAccesses)
    requires OrderMatters(a, b)
    ensures OrderMatters(b, a)
  {
    var x: Work, y: Work, m: Memory :|
      x.accesses == a && y.accesses == b && Obeys(x) && Obeys(y) && DifferAfter(x, y, m);
    assert DifferAfter(y, x, m);
  }

  lemma WriterBesideUserMatters(a: NodeAccesses, b: NodeAccesses, at: Location, into: Location)
    requires WritesAt(a, at) && UsesAt(b, at) && WritesAt(b, into)
    ensures OrderMatters(a, b)
  {
    SettingObeys(a, at);
    DerivingObeys(b, at, into);
    DerivingSeesSetting(a, b, at, into);
    assert DifferAfter(Setting(a, at), Deriving(b, at, into), map[at := 0, into := 0]);
  }

  /** Work that writes nowhere leaves every memory alone. */
  lemma WritelessWorkDoesNothing(work: Work, m: Memory)
    requires Obeys(work) && !WritesSomewhere(work.accesses)
    ensures work.effect(m) == m
  {
    forall at | at in m
      ensures at in work.effect(m) && work.effect(m)[at] == m[at]
    {
      assert !WritesAt(work.accesses, at);
    }
    SameMemory(work.effect(m), m);
  }

  /** The order of two nodes matters for memory iff they conflict and both write something. */
  lemma OrderMattersIff(a: NodeAccesses, b: NodeAccesses)
    ensures OrderMatters(a, b) <==> Conflict(a, b) && WritesSomewhere(a) && WritesSomewhere(b)
  {
    if OrderMatters(a, b) {
      var x: Work, y: Work, m: Memory :|
        x.accesses == a && y.accesses == b && Obeys(x) && Obeys(y) && DifferAfter(x, y, m);
      if !Conflict(a, b) {
        WorkCommutes(x, y, m);
      }
      if !WritesSomewhere(a) {
        WritelessWorkDoesNothing(x, m);
        WritelessWorkDoesNothing(x, y.effect(m));
      }
      if !WritesSomewhere(b) {
        WritelessWorkDoesNothing(y, m);
        WritelessWorkDoesNothing(y, x.effect(m));
      }
    }
    if Conflict(a, b) && WritesSomewhere(a) && WritesSomewhere(b) {
      var at :| ConflictAt(a, b, at);
      if WritesAt(a, at) && UsesAt(b, at) {
        var into :| WritesAt(b, into);
        WriterBesideUserMatters(a, b, at, into);
      } else {
        var into :| WritesAt(a, into);
        WriterBesideUserMatters(b, a, at, into);
        OrderMattersIsSymmetric(b, a);
      }
    }
  }

  /**
   * Between an earlier and a later node that both write, a dependency is inferred exactly if some
   * work within their declarations would notice the difference.
   */
  lemma DependencyIffOrderMatters(nodes: seq<NodeAccesses>, edges: set<Edge>, u: nat, v: nat)
    requires WellFormed(nodes) && forall e :: e in edges <==> IsHazard(nodes, e)
    requires u < v < |nodes| && WritesSomewhere(nodes[u]) && WritesSomewhere(nodes[v])
    ensures (u, v) in KeysOf(edges) <==> OrderMatters(nodes[u], nodes[v])
  {
    OrderMattersIff(nodes[u], nodes[v]);
    if Conflict(nodes[u], nodes[v]) {
      ConflictIsHazard(nodes, edges, u, v);
    }
    if (u, v) in KeysOf(edges) {
      var e :| e in edges && (e.before, e.after) == (u, v);
      HazardIsConflict(nodes, e);
    }
  }
}
