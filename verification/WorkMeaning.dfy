/** Running authored work: any order that keeps the inferred dependencies leaves the same memory. */
module WorkMeaning {
  import opened Common
  import opened Access
  import opened Hazards
  import opened Lists
  import opened NodeOrder
  import opened ExplicitOrders

  // ---------------------------------------------------------------------------------------------
  // What a node does
  // ---------------------------------------------------------------------------------------------

  type Memory = map<Location, int>

  /** A node's declared accesses and what running it does to memory. */
  datatype Work = Work(accesses: NodeAccesses, effect: Memory -> Memory)

  ghost predicate WritesAt(accesses: NodeAccesses, at: Location) {
    exists k :: 0 <= k < |accesses| && Changes(accesses[k]) && Hazards.Touches(accesses[k], at)
  }

  ghost predicate UsesAt(accesses: NodeAccesses, at: Location) {
    exists k ::
      && 0 <= k < |accesses|
      && (Observes(accesses[k]) || Changes(accesses[k]))
      && Hazards.Touches(accesses[k], at)
  }

  ghost predicate Agree(one: Memory, other: Memory, accesses: NodeAccesses) {
    && one.Keys == other.Keys
    && forall at | at in one && UsesAt(accesses, at) :: one[at] == other[at]
  }

  /**
   * The node stays within its declaration: it changes only locations it declares as written, and what
   * it stores there depends only on locations it declares.
   */
  ghost predicate Obeys(work: Work) {
    && (forall m :: work.effect(m).Keys == m.Keys)
    && (forall m, at | at in m && !WritesAt(work.accesses, at) :: work.effect(m)[at] == m[at])
    && (forall m, other, at | at in m && WritesAt(work.accesses, at) && Agree(m, other, work.accesses) ::
          work.effect(m)[at] == work.effect(other)[at])
  }

  ghost predicate ConflictAt(a: NodeAccesses, b: NodeAccesses, at: Location) {
    (WritesAt(a, at) && UsesAt(b, at)) || (UsesAt(a, at) && WritesAt(b, at))
  }

  ghost predicate Conflict(a: NodeAccesses, b: NodeAccesses) {
    exists at :: ConflictAt(a, b, at)
  }

  lemma UndisturbedUses(a: Work, b: Work, m: Memory)
    requires Obeys(a) && !Conflict(a.accesses, b.accesses)
    ensures Agree(m, a.effect(m), b.accesses)
  {
    forall at | at in m && UsesAt(b.accesses, at)
      ensures a.effect(m)[at] == m[at]
    {
      assert !ConflictAt(a.accesses, b.accesses, at);
    }
  }

  lemma WorkCommutesAt(a: Work, b: Work, m: Memory, at: Location)
    requires Obeys(a) && Obeys(b) && !ConflictAt(a.accesses, b.accesses, at) && at in m
    requires Agree(m, a.effect(m), b.accesses) && Agree(m, b.effect(m), a.accesses)
    ensures at in a.effect(b.effect(m)) && at in b.effect(a.effect(m))
    ensures b.effect(a.effect(m))[at] == a.effect(b.effect(m))[at]
  {
    if WritesAt(a.accesses, at) {
      assert !WritesAt(b.accesses, at) by {
        assert WritesAt(b.accesses, at) ==> UsesAt(b.accesses, at);
      }
      assert b.effect(a.effect(m))[at] == a.effect(m)[at] == a.effect(b.effect(m))[at];
    } else if WritesAt(b.accesses, at) {
      assert a.effect(b.effect(m))[at] == b.effect(m)[at] == b.effect(a.effect(m))[at];
    } else {
      assert b.effect(a.effect(m))[at] == m[at] == a.effect(b.effect(m))[at];
    }
  }

  lemma ConflictIsSymmetric(a: NodeAccesses, b: NodeAccesses)
    ensures Conflict(a, b) <==> Conflict(b, a)
  {
    forall at
      ensures ConflictAt(a, b, at) <==> ConflictAt(b, a, at)
    {
    }
  }

  /** Nodes without a conflict commute. */
  lemma WorkCommutes(a: Work, b: Work, m: Memory)
    requires Obeys(a) && Obeys(b) && !Conflict(a.accesses, b.accesses)
    ensures b.effect(a.effect(m)) == a.effect(b.effect(m))
  {
    ConflictIsSymmetric(a.accesses, b.accesses);
    UndisturbedUses(a, b, m);
    UndisturbedUses(b, a, m);
    var ab, ba := b.effect(a.effect(m)), a.effect(b.effect(m));
    forall at | at in m
      ensures at in ab && at in ba && ab[at] == ba[at]
    {
      assert !ConflictAt(a.accesses, b.accesses, at);
      WorkCommutesAt(a, b, m, at);
    }
    EffectKeepsKeys(a, b, m);
    EffectKeepsKeys(b, a, m);
    SameMemory(ab, ba);
  }

  lemma EffectKeepsKeys(first: Work, second: Work, m: Memory)
    requires Obeys(first) && Obeys(second)
    ensures second.effect(first.effect(m)).Keys == m.Keys
  {
  }

  lemma SameMemory(one: Memory, other: Memory)
    requires one.Keys == other.Keys && forall at | at in one :: one[at] == other[at]
    ensures one == other
  {
  }

  // ---------------------------------------------------------------------------------------------
  // Running in an order
  // ---------------------------------------------------------------------------------------------

  predicate Within(order: seq<nat>, n: nat) {
    forall k | 0 <= k < |order| :: order[k] < n
  }

  function Execute(works: seq<Work>, order: seq<nat>, m: Memory): Memory
    requires Within(order, |works|)
  {
    if order == [] then m
    else works[order[|order| - 1]].effect(Execute(works, order[..|order| - 1], m))
  }

  lemma ExecuteLast(works: seq<Work>, order: seq<nat>, x: nat, m: Memory)
    requires Within(order, |works|) && x < |works|
    ensures Within(order + [x], |works|)
    ensures Execute(works, order + [x], m) == works[x].effect(Execute(works, order, m))
  {
  }

  /** A node can be moved behind nodes it has no conflict with. */
  lemma {:induction false} MoveToEnd(works: seq<Work>, before: seq<nat>, x: nat, after: seq<nat>, m: Memory)
    requires forall k | 0 <= k < |works| :: Obeys(works[k])
    requires Within(before, |works|) && x < |works| && Within(after, |works|)
    requires forall k | 0 <= k < |after| :: !Conflict(works[x].accesses, works[after[k]].accesses)
    ensures Within(before + [x] + after, |works|) && Within(before + after, |works|)
    ensures Execute(works, before + [x] + after, m) == works[x].effect(Execute(works, before + after, m))
    decreases |after|
  {
    if after == [] {
      ExecuteLast(works, before, x, m);
      assert before + [x] + after == before + [x];
      assert before + after == before;
    } else {
      var init, y := after[..|after| - 1], after[|after| - 1];
      MoveToEnd(works, before, x, init, m);
      assert before + [x] + after == (before + [x] + init) + [y];
      assert before + after == (before + init) + [y];
      ExecuteLast(works, before + [x] + init, y, m);
      ExecuteLast(works, before + init, y, m);
      WorkCommutes(works[x], works[y], Execute(works, before + init, m));
    }
  }

  /** The edges order every pair of conflicting nodes, one way or the other. */
  ghost predicate OrdersConflicts(works: seq<Work>, edges: EdgeKeys) {
    forall i: nat, j: nat | i < |works| && j < |works| && i != j && Conflict(works[i].accesses, works[j].accesses) ::
      (i, j) in edges || (j, i) in edges
  }

  lemma DropKeepsRespect(before: seq<nat>, x: nat, after: seq<nat>, edges: EdgeKeys)
    requires Respects(before + [x] + after, edges) && NoDuplicates(before + [x] + after)
    ensures Respects(before + after, edges) && NoDuplicates(before + after)
    ensures Elements(before + after) == Elements(before + [x] + after) - {x}
  {
    var whole, rest := before + [x] + after, before + after;
    forall i | 0 <= i < |rest|
      ensures rest[i] == whole[if i < |before| then i else i + 1]
    {
    }
    assert whole[|before|] == x;
    forall y
      ensures y in rest <==> y in whole && y != x
    {
      if y in whole && y != x {
        var i :| 0 <= i < |whole| && whole[i] == y;
        assert rest[if i < |before| then i else i - 1] == y;
      }
    }
  }

  lemma NothingAfterConflicts(
      works: seq<Work>, edges: EdgeKeys, before: seq<nat>, x: nat, after: seq<nat>, other: seq<nat>)
    requires OrdersConflicts(works, edges)
    requires Within(before + [x] + after, |works|)
    requires Respects(before + [x] + after, edges) && NoDuplicates(before + [x] + after)
    requires Respects(other + [x], edges)
    requires Elements(other + [x]) == Elements(before + [x] + after)
    ensures x < |works| && Within(after, |works|)
    ensures forall k | 0 <= k < |after| :: !Conflict(works[x].accesses, works[after[k]].accesses)
  {
    var whole := before + [x] + after;
    assert whole[|before|] == x;
    forall k | 0 <= k < |after|
      ensures after[k] < |works| && !Conflict(works[x].accesses, works[after[k]].accesses)
    {
      var y := after[k];
      var at := |before| + 1 + k;
      assert whole[at] == y;
      assert y != x;
      assert y in Elements(other + [x]);
      var p :| 0 <= p < |other + [x]| && (other + [x])[p] == y;
      assert (other + [x])[|other|] == x;
      assert (x, y) !in edges;
      assert (y, x) !in edges;
    }
  }

  lemma Locate(order: seq<nat>, x: nat) returns (before: seq<nat>, after: seq<nat>)
    requires x in order
    ensures order == before + [x] + after
  {
    var i :| 0 <= i < |order| && order[i] == x;
    before, after := order[..i], order[i + 1..];
  }

  lemma NoElements(order: seq<nat>)
    ensures Elements(order) == {} ==> order == []
  {
    if order != [] {
      assert order[0] in Elements(order);
    }
  }

  /** Dependencies that order every conflict determine the outcome: all orders along them agree. */
  lemma {:induction false} OrdersAgree(works: seq<Work>, edges: EdgeKeys, one: seq<nat>, other: seq<nat>, m: Memory)
    requires forall k | 0 <= k < |works| :: Obeys(works[k])
    requires OrdersConflicts(works, edges)
    requires Within(one, |works|) && Within(other, |works|)
    requires NoDuplicates(one) && NoDuplicates(other) && Elements(one) == Elements(other)
    requires Respects(one, edges) && Respects(other, edges)
    ensures Execute(works, one, m) == Execute(works, other, m)
    decreases |other|
  {
    if other == [] {
      NoElements(one);
    } else {
      var init, x := other[..|other| - 1], other[|other| - 1];
      assert other == init + [x];
      assert x in Elements(one);
      var before, after := Locate(one, x);
      NothingAfterConflicts(works, edges, before, x, after, init);
      assert Within(before, |works|) by {
        assert forall k | 0 <= k < |before| :: before[k] == one[k];
      }
      MoveToEnd(works, before, x, after, m);
      DropKeepsRespect(before, x, after, edges);
      assert init + [x] + [] == other && init + [] == init;
      DropKeepsRespect(init, x, [], edges);
      OrdersAgree(works, edges, before + after, init, m);
      ExecuteLast(works, init, x, m);
    }
  }

  // ---------------------------------------------------------------------------------------------
  // One fragment
  // ---------------------------------------------------------------------------------------------

  function Authored(n: nat): seq<nat> {
    seq(n, i => i)
  }

  function KeysOf(edges: set<Edge>): EdgeKeys {
    set e | e in edges :: (e.before, e.after)
  }

  /** What the access and handle constructors establish about the accesses of a fragment. */
  predicate WellFormed(nodes: seq<NodeAccesses>) {
    && (forall i, p | 0 <= i < |nodes| && 0 <= p < |nodes[i]| :: Hazards.Checked(nodes[i][p]))
    && (forall i, p, j, q | 0 <= i < |nodes| && 0 <= p < |nodes[i]| && 0 <= j < |nodes| && 0 <= q < |nodes[j]| ::
          SameHandles(nodes[i][p], nodes[j][q]))
  }

  /** Every conflict of two nodes is found as a hazard of the earlier and the later one. */
  lemma ConflictIsHazard(nodes: seq<NodeAccesses>, edges: set<Edge>, i: nat, j: nat)
    requires WellFormed(nodes) && forall e :: e in edges <==> IsHazard(nodes, e)
    requires i < j < |nodes| && Conflict(nodes[i], nodes[j])
    ensures (i, j) in KeysOf(edges)
  {
    var at :| ConflictAt(nodes[i], nodes[j], at);
    var p, q, kind := ConflictingAccesses(nodes[i], nodes[j], at);
    var earlier, later := nodes[i][p], nodes[j][q];
    AccessIntersectionIsExact(earlier, later);
    var region := AccessIntersection(earlier, later);
    var e := Edge(i, j, GpuDependencyReason(kind, StorageOf(later), region.value));
    assert HazardVia(nodes, e, p, q);
    assert IsHazard(nodes, e);
  }

  lemma ConflictingAccesses(a: NodeAccesses, b: NodeAccesses, at: Location)
    returns (p: nat, q: nat, kind: HazardKind)
    requires ConflictAt(a, b, at)
    ensures p < |a| && q < |b| && HasKind(a[p], b[q], kind)
    ensures Hazards.Touches(a[p], at) && Hazards.Touches(b[q], at)
  {
    if WritesAt(a, at) && UsesAt(b, at) {
      p :| p < |a| && Changes(a[p]) && Hazards.Touches(a[p], at);
      q :| q < |b| && (Observes(b[q]) || Changes(b[q])) && Hazards.Touches(b[q], at);
      kind := if Observes(b[q]) then ReadAfterWrite else WriteAfterWrite;
    } else {
      p :| p < |a| && (Observes(a[p]) || Changes(a[p])) && Hazards.Touches(a[p], at);
      q :| q < |b| && Changes(b[q]) && Hazards.Touches(b[q], at);
      kind := if Observes(a[p]) then WriteAfterRead else WriteAfterWrite;
    }
  }

  /** Every inferred edge is a real conflict, so inference never over-constrains. */
  lemma HazardIsConflict(nodes: seq<NodeAccesses>, e: Edge)
    requires WellFormed(nodes) && IsHazard(nodes, e)
    ensures Conflict(nodes[e.before], nodes[e.after])
  {
    var p: nat, q: nat :| HazardVia(nodes, e, p, q);
    var earlier, later := nodes[e.before][p], nodes[e.after][q];
    AccessIntersectionIsExact(earlier, later);
    var at :| Hazards.Touches(earlier, at) && Hazards.Touches(later, at);
    assert Changes(earlier) ==> WritesAt(nodes[e.before], at);
    assert Changes(later) ==> WritesAt(nodes[e.after], at);
    assert UsesAt(nodes[e.before], at) && UsesAt(nodes[e.after], at);
    assert ConflictAt(nodes[e.before], nodes[e.after], at);
  }

  /**
   * Inference joins an earlier to a later node exactly when two of their accesses touch a common
   * location that one of them changes while the other observes or changes it.
   */
  lemma InferredEdgeIff(nodes: seq<NodeAccesses>, edges: set<Edge>, u: nat, v: nat)
    requires WellFormed(nodes) && forall e :: e in edges <==> IsHazard(nodes, e)
    ensures (exists e :: e in edges && e.before == u && e.after == v)
            <==> u < v < |nodes|
                 && exists p, q, at | 0 <= p < |nodes[u]| && 0 <= q < |nodes[v]| ::
                      && Hazards.Touches(nodes[u][p], at) && Hazards.Touches(nodes[v][q], at)
                      && ((Changes(nodes[u][p]) && (Observes(nodes[v][q]) || Changes(nodes[v][q])))
                          || (Observes(nodes[u][p]) && Changes(nodes[v][q])))
  {
    if e :| e in edges && e.before == u && e.after == v {
      HazardIsConflict(nodes, e);
    }
    if u < v < |nodes| && Conflict(nodes[u], nodes[v]) {
      ConflictIsHazard(nodes, edges, u, v);
    }
    if u < v < |nodes| {
      ConflictIsShared(nodes[u], nodes[v]);
    }
  }

  lemma ConflictIsShared(a: NodeAccesses, b: NodeAccesses)
    ensures Conflict(a, b)
            <==> exists p, q, at | 0 <= p < |a| && 0 <= q < |b| ::
                   && Hazards.Touches(a[p], at) && Hazards.Touches(b[q], at)
                   && ((Changes(a[p]) && (Observes(b[q]) || Changes(b[q]))) || (Observes(a[p]) && Changes(b[q])))
  {
    if Conflict(a, b) {
      var at :| ConflictAt(a, b, at);
      var p, q, kind := ConflictingAccesses(a, b, at);
    }
    if p, q, at :| 0 <= p < |a| && 0 <= q < |b|
                   && Hazards.Touches(a[p], at) && Hazards.Touches(b[q], at)
                   && ((Changes(a[p]) && (Observes(b[q]) || Changes(b[q]))) || (Observes(a[p]) && Changes(b[q])))
    {
      assert Changes(a[p]) ==> WritesAt(a, at);
      assert Changes(b[q]) ==> WritesAt(b, at);
      assert UsesAt(a, at) && UsesAt(b, at);
      assert ConflictAt(a, b, at);
    }
  }

  ghost predicate Implements(works: seq<Work>, nodes: seq<NodeAccesses>) {
    && |works| == |nodes|
    && forall k | 0 <= k < |nodes| :: works[k].accesses == nodes[k] && Obeys(works[k])
  }

  /** Whatever the nodes do within their declarations, running them in this order is running them as authored. */
  ghost predicate PreservesMeaning(nodes: seq<NodeAccesses>, order: seq<nat>) {
    && Within(order, |nodes|)
    && forall works, m | Implements(works, nodes) ::
         Execute(works, order, m) == Execute(works, Authored(|nodes|), m)
  }

  lemma AuthoredIsAnOrder(nodes: seq<NodeAccesses>, edges: set<Edge>)
    requires forall e | e in edges :: IsHazard(nodes, e)
    ensures Enumerates(Authored(|nodes|), |nodes|) && Respects(Authored(|nodes|), KeysOf(edges))
    ensures Within(Authored(|nodes|), |nodes|)
  {
    var authored := Authored(|nodes|);
    forall v: nat
      ensures v in authored <==> v < |nodes|
    {
      if v < |nodes| {
        assert authored[v] == v;
      }
    }
  }

  lemma HazardsOrderConflicts(works: seq<Work>, nodes: seq<NodeAccesses>, edges: set<Edge>)
    requires WellFormed(nodes) && Implements(works, nodes)
    requires forall e :: e in edges <==> IsHazard(nodes, e)
    ensures OrdersConflicts(works, KeysOf(edges))
  {
    forall i: nat, j: nat | i < |works| && j < |works| && i != j && Conflict(works[i].accesses, works[j].accesses)
      ensures (i, j) in KeysOf(edges) || (j, i) in KeysOf(edges)
    {
      if i < j {
        ConflictIsHazard(nodes, edges, i, j);
      } else {
        ConflictIsSymmetric(nodes[i], nodes[j]);
        ConflictIsHazard(nodes, edges, j, i);
      }
    }
  }

  lemma OrderedWorkKeepsMeaning(nodes: seq<NodeAccesses>, edges: set<Edge>, order: seq<nat>)
    requires WellFormed(nodes) && forall e :: e in edges <==> IsHazard(nodes, e)
    requires Enumerates(order, |nodes|) && Respects(order, KeysOf(edges))
    ensures PreservesMeaning(nodes, order)
  {
    AuthoredIsAnOrder(nodes, edges);
    assert Within(order, |nodes|) by {
      assert forall k | 0 <= k < |order| :: order[k] in order;
    }
    var authored := Authored(|nodes|);
    assert Elements(order) == Elements(authored);
    forall works, m | Implements(works, nodes)
      ensures Execute(works, order, m) == Execute(works, authored, m)
    {
      HazardsOrderConflicts(works, nodes, edges);
      OrdersAgree(works, KeysOf(edges), order, authored, m);
    }
  }

  /** With no explicit orders the greedy choice gives back the authored order. */
  lemma {:induction false} UpwardEdgesKeepAuthoredOrder(order: seq<nat>, n: nat, edges: EdgeKeys, k: nat)
    requires Greedy(order, n, edges) && forall u: nat, v: nat | (u, v) in edges :: u < v
    requires k <= |order| && |order| <= n
    ensures order[..k] == Authored(k)
  {
    if k > 0 {
      UpwardEdgesKeepAuthoredOrder(order, n, edges, k - 1);
      assert GreedyAt(order, k - 1, n, edges);
      var listed := order[..k - 1];
      forall v: nat
        ensures v in Elements(listed) <==> v < k - 1
      {
        if v < k - 1 {
          assert listed[v] == v;
        }
      }
      assert IsReady(n, edges, Elements(order[..k - 1]), k - 1);
      assert order[..k] == order[..k - 1] + [order[k - 1]];
    }
  }

  lemma {:induction false} UpwardWalkRises(data: EdgeKeys, edges: EdgeKeys, walk: seq<nat>)
    requires forall u: nat, v: nat | (u, v) in edges :: u < v
    requires IsWalk(edges, walk)
    ensures walk[0] + |walk| <= Last(walk) + 1
    decreases |walk|
  {
    if |walk| > 1 {
      PartOfWalk(edges, walk, 1, |walk|);
      UpwardWalkRises(data, edges, walk[1..|walk|]);
      assert (walk[0], walk[0 + 1]) in edges;
    }
  }

  lemma HazardsCloseNoCycle(nodes: seq<NodeAccesses>, edges: set<Edge>)
    requires forall e | e in edges :: IsHazard(nodes, e)
    ensures NoDataCycle(KeysOf(edges), KeysOf(edges) + {})
  {
    forall walk | IsWalk(KeysOf(edges) + {}, walk)
      ensures !DataCycle(KeysOf(edges), KeysOf(edges) + {}, walk)
    {
      UpwardWalkRises(KeysOf(edges), KeysOf(edges) + {}, walk);
    }
  }

  /** A cycle that uses no data edge is a cycle of the other edges. */
  lemma CycleWithoutData(data: EdgeKeys, others: EdgeKeys, cycle: seq<nat>)
    requires IsCycle(cycle, data + others) && NoDataCycle(data, data + others)
    ensures IsCycle(cycle, others)
  {
    var closed := cycle + [cycle[0]];
    assert !DataCycle(data, data + others, closed);
    forall i | 0 <= i < |closed| - 1
      ensures (closed[i], closed[i + 1]) in data + others
    {
      assert i < |cycle| - 1 ==> (cycle[i], cycle[i + 1]) in data + others;
    }
    assert IsWalk(data + others, closed);
    forall i | 0 <= i < |cycle| - 1
      ensures (cycle[i], cycle[i + 1]) in others
    {
      assert (closed[i], closed[i + 1]) == (cycle[i], cycle[i + 1]);
    }
    var last := |cycle| - 1;
    assert (closed[last], closed[last + 1]) == (cycle[last], cycle[0]);
  }

  datatype PrepareError = OrderRefused(cause: OrderCause) | Unordered(error: OrderError)

  function Stated(orders: seq<(nat, nat)>): EdgeKeys {
    set e | e in orders
  }

  lemma UpwardHazards(nodes: seq<NodeAccesses>, edges: set<Edge>)
    requires forall e | e in edges :: IsHazard(nodes, e)
    ensures Known(|nodes|, KeysOf(edges))
    ensures forall u: nat, v: nat | (u, v) in KeysOf(edges) :: u < v
  {
  }

  /** Earlier and later nodes that conflict: the order in which the data must be touched. */
  ghost function DataOrder(nodes: seq<NodeAccesses>): EdgeKeys {
    set u: nat, v: nat | 0 <= u < v < |nodes| && Conflict(nodes[u], nodes[v]) :: (u, v)
  }

  /** Inference finds exactly the data order. */
  lemma InferredIsDataOrder(nodes: seq<NodeAccesses>, edges: set<Edge>)
    requires WellFormed(nodes) && forall e :: e in edges <==> IsHazard(nodes, e)
    ensures KeysOf(edges) == DataOrder(nodes)
  {
    forall e | e in edges
      ensures (e.before, e.after) in DataOrder(nodes)
    {
      HazardIsConflict(nodes, e);
    }
    forall u: nat, v: nat | (u, v) in DataOrder(nodes)
      ensures (u, v) in KeysOf(edges)
    {
      ConflictIsHazard(nodes, edges, u, v);
    }
  }

  /**
   * Inference, admission of explicit orders and ordering, for one fragment. Preparation succeeds
   * exactly if every stated order is admitted against the data order and the stated orders have no
   * cycle among themselves. The result is then the one greedy order along both; it keeps the stated
   * orders and runs like the authored sequence, which it is when no orders are stated. A refused
   * order is refused for the reason admission gives, and otherwise the reported node is the smallest
   * caught on or behind a cycle.
   */
  method PrepareFragment(nodes: seq<NodeAccesses>, orders: seq<(nat, nat)>)
    returns (r: Result<seq<nat>, PrepareError>)
    requires WellFormed(nodes)
    ensures r.Ok? <==>
              && Admitted(|nodes|, DataOrder(nodes), {}, orders).Ok?
              && forall cycle :: !IsCycle(cycle, Stated(orders))
    ensures r.Ok? ==>
              && Enumerates(r.value, |nodes|) && Respects(r.value, Stated(orders))
              && Greedy(r.value, |nodes|, DataOrder(nodes) + Stated(orders))
              && PreservesMeaning(nodes, r.value)
    ensures orders == [] ==> r == Ok(Authored(|nodes|))
    ensures r.Err? ==>
              match r.error
              case OrderRefused(cause) => Admitted(|nodes|, DataOrder(nodes), {}, orders) == Err(cause)
              case Unordered(error) =>
                && Admitted(|nodes|, DataOrder(nodes), {}, orders).Ok?
                && error.Cycle? && LeastCaught(error.node, |nodes|, DataOrder(nodes) + Stated(orders))
  {
    var edges := InferFragmentHazards(nodes);
    var data := KeysOf(edges);
    UpwardHazards(nodes, edges);
    InferredIsDataOrder(nodes, edges);
    var admitted := AddExplicitOrders(|nodes|, data, orders);
    if admitted.Err? {
      return Err(OrderRefused(admitted.error));
    }
    AdmittedOrdersAreTheStated(|nodes|, data, {}, orders);
    assert admitted.value == Stated(orders);
    var all := data + admitted.value;
    var ordered := TopologicalNodeOrder(|nodes|, all);
    if ordered.Err? {
      ghost var cycle :| IsCycle(cycle, all);
      CycleIsStated(nodes, edges, orders, cycle);
      return Err(Unordered(ordered.error));
    }
    OrderedWorkKeepsMeaning(nodes, edges, ordered.value);
    forall cycle: seq<nat> {
      RespectedOrderHasNoCycle(ordered.value, |nodes|, Stated(orders), cycle);
    }
    if orders == [] {
      NoOrdersKeepAuthored(nodes, edges, ordered.value);
    }
    return Ok(ordered.value);
  }

  lemma NoOrdersKeepAuthored(nodes: seq<NodeAccesses>, edges: set<Edge>, order: seq<nat>)
    requires forall e | e in edges :: IsHazard(nodes, e)
    requires Enumerates(order, |nodes|) && Greedy(order, |nodes|, KeysOf(edges) + {})
    ensures order == Authored(|nodes|)
  {
    UpwardHazards(nodes, edges);
    assert KeysOf(edges) + {} == KeysOf(edges);
    FullLengthEnumerates(order, |nodes|, KeysOf(edges));
    UpwardEdgesKeepAuthoredOrder(order, |nodes|, KeysOf(edges), |nodes|);
    assert order[..|nodes|] == order;
  }

  lemma StatedOrdersSpareData(nodes: seq<NodeAccesses>, edges: set<Edge>, orders: seq<(nat, nat)>)
    requires forall e | e in edges :: IsHazard(nodes, e)
    requires Admitted(|nodes|, KeysOf(edges), {}, orders) == Ok(Stated(orders))
    ensures NoDataCycle(KeysOf(edges), KeysOf(edges) + Stated(orders))
  {
    HazardsCloseNoCycle(nodes, edges);
    AdmittedOrdersSpareData(|nodes|, KeysOf(edges), {}, orders);
  }

  /** Every cycle of the combined edges is a cycle of the stated orders by themselves. */
  lemma CycleIsStated(nodes: seq<NodeAccesses>, edges: set<Edge>, orders: seq<(nat, nat)>, cycle: seq<nat>)
    requires forall e | e in edges :: IsHazard(nodes, e)
    requires Admitted(|nodes|, KeysOf(edges), {}, orders) == Ok(Stated(orders))
    requires IsCycle(cycle, KeysOf(edges) + Stated(orders))
    ensures IsCycle(cycle, Stated(orders))
  {
    StatedOrdersSpareData(nodes, edges, orders);
    CycleWithoutData(KeysOf(edges), Stated(orders), cycle);
  }
}
