/** Ordering prepared nodes along their dependencies, always taking the smallest node that is ready. */
module NodeOrder {
  import opened Common
  import opened Lists

  /**
   * A prepared node is its position in key order among all prepared nodes, so positions compare as
   * the identities do. An edge is a pair of positions, before and after.
   */
  type EdgeKeys = set<(nat, nat)>

  datatype OrderError = UnknownIdentity | Cycle(node: nat)

  // ---------------------------------------------------------------------------------------------
  // What an order should be
  // ---------------------------------------------------------------------------------------------

  predicate Known(n: nat, edges: EdgeKeys) {
    forall e | e in edges :: e.0 < n && e.1 < n
  }

  /** Every one of the `n` nodes, exactly once. */
  ghost predicate Enumerates(order: seq<nat>, n: nat) {
    && NoDuplicates(order)
    && forall v: nat :: v in order <==> v < n
  }

  predicate Respects(order: seq<nat>, edges: EdgeKeys) {
    forall i, j | 0 <= i < |order| && 0 <= j < |order| && (order[i], order[j]) in edges :: i < j
  }

  /** A closed walk along the edges. */
  predicate IsCycle(walk: seq<nat>, edges: EdgeKeys) {
    && walk != []
    && (forall i | 0 <= i < |walk| - 1 :: (walk[i], walk[i + 1]) in edges)
    && (walk[|walk| - 1], walk[0]) in edges
  }

  function Elements(list: seq<nat>): set<nat> {
    set x | x in list
  }

  /** The predecessors of `v` that are not done. */
  function Waiting(edges: EdgeKeys, done: set<nat>, v: nat): (waiting: set<nat>)
    ensures forall u: nat :: u in waiting <==> (u, v) in edges && u !in done
  {
    set e | e in edges && e.1 == v && e.0 !in done :: e.0
  }

  predicate IsReady(n: nat, edges: EdgeKeys, done: set<nat>, v: nat) {
    v < n && v !in done && Waiting(edges, done, v) == {}
  }

  /** Position `k` holds the smallest node that was ready after the positions before it. */
  ghost predicate GreedyAt(order: seq<nat>, k: nat, n: nat, edges: EdgeKeys)
    requires k < |order|
  {
    && IsReady(n, edges, Elements(order[..k]), order[k])
    && forall v: nat | IsReady(n, edges, Elements(order[..k]), v) :: order[k] <= v
  }

  ghost predicate Greedy(order: seq<nat>, n: nat, edges: EdgeKeys) {
    forall k: nat | k < |order| :: GreedyAt(order, k, n, edges)
  }

  ghost predicate HasPredecessorIn(stuck: set<nat>, edges: EdgeKeys, v: nat) {
    exists u: nat :: u in stuck && (u, v) in edges
  }

  /** Every member waits for another member. */
  ghost predicate Blocked(stuck: set<nat>, edges: EdgeKeys) {
    forall v {:trigger HasPredecessorIn(stuck, edges, v)} | v in stuck :: HasPredecessorIn(stuck, edges, v)
  }

  // ---------------------------------------------------------------------------------------------
  // Greedy orders
  // ---------------------------------------------------------------------------------------------

  lemma GreedyHasNoDuplicates(order: seq<nat>, n: nat, edges: EdgeKeys)
    requires Greedy(order, n, edges)
    ensures NoDuplicates(order)
  {
    forall i, j | 0 <= i < j < |order|
      ensures order[i] != order[j]
    {
      assert GreedyAt(order, j, n, edges);
      assert order[..j][i] == order[i];
    }
  }

  lemma GreedyRespects(order: seq<nat>, n: nat, edges: EdgeKeys)
    requires Greedy(order, n, edges)
    ensures Respects(order, edges)
  {
    GreedyHasNoDuplicates(order, n, edges);
    forall i, j | 0 <= i < |order| && 0 <= j < |order| && (order[i], order[j]) in edges
      ensures i < j
    {
      assert GreedyAt(order, j, n, edges);
      var k :| 0 <= k < j && order[..j][k] == order[i];
    }
  }

  /** A greedy order is unique: the prepared order is a function of the nodes and the edges. */
  lemma {:induction false} GreedyIsDeterministic(one: seq<nat>, other: seq<nat>, n: nat, edges: EdgeKeys, k: nat)
    requires Greedy(one, n, edges) && Greedy(other, n, edges)
    requires k <= |one| && k <= |other|
    ensures one[..k] == other[..k]
  {
    if k > 0 {
      GreedyIsDeterministic(one, other, n, edges, k - 1);
      assert GreedyAt(one, k - 1, n, edges) && GreedyAt(other, k - 1, n, edges);
      assert one[..k] == one[..k - 1] + [one[k - 1]];
      assert other[..k] == other[..k - 1] + [other[k - 1]];
    }
  }

  lemma BlockedIsNeverReady(edges: EdgeKeys, stuck: set<nat>, done: set<nat>, v: nat)
    requires Blocked(stuck, edges) && v in stuck && done !! stuck
    ensures Waiting(edges, done, v) != {}
  {
    assert HasPredecessorIn(stuck, edges, v);
    var u: nat :| u in stuck && (u, v) in edges;
    assert u in Waiting(edges, done, v);
  }

  /** No blocked set ever loses a member to a greedy order. */
  lemma {:induction false} GreedyAvoidsBlocked(order: seq<nat>, n: nat, edges: EdgeKeys, stuck: set<nat>, k: nat)
    requires Greedy(order, n, edges) && Blocked(stuck, edges) && k <= |order|
    ensures Elements(order[..k]) !! stuck
  {
    if k > 0 {
      GreedyAvoidsBlocked(order, n, edges, stuck, k - 1);
      assert GreedyAt(order, k - 1, n, edges);
      assert Elements(order[..k]) == Elements(order[..k - 1]) + {order[k - 1]};
      if order[k - 1] in stuck {
        BlockedIsNeverReady(edges, stuck, Elements(order[..k - 1]), order[k - 1]);
      }
    }
  }

  // ---------------------------------------------------------------------------------------------
  // Cycles
  // ---------------------------------------------------------------------------------------------

  lemma Position(order: seq<nat>, n: nat, v: nat) returns (p: nat)
    requires Enumerates(order, n) && v < n
    ensures p < |order| && order[p] == v
  {
    assert v in order;
    p :| p < |order| && order[p] == v;
  }

  /** A respected order leaves no room for a cycle. */
  lemma RespectedOrderHasNoCycle(order: seq<nat>, n: nat, edges: EdgeKeys, walk: seq<nat>)
    requires Known(n, edges) && Enumerates(order, n) && Respects(order, edges)
    ensures !IsCycle(walk, edges)
  {
    if IsCycle(walk, edges) {
      var last := |walk| - 1;
      var e := (walk[last], walk[0]);
      assert e in edges;
      var first := Position(order, n, walk[0]);
      var p := Position(order, n, walk[last]);
      PositionsIncrease(order, n, edges, walk, last, first, p);
    }
  }

  lemma {:induction false} PositionsIncrease(
      order: seq<nat>, n: nat, edges: EdgeKeys, walk: seq<nat>, i: nat, start: nat, p: nat)
    requires Known(n, edges) && Enumerates(order, n) && Respects(order, edges)
    requires i < |walk| && forall k | 0 <= k < i :: (walk[k], walk[k + 1]) in edges
    requires start < |order| && order[start] == walk[0]
    requires p < |order| && order[p] == walk[i]
    ensures start <= p
  {
    if i > 0 {
      var e := (walk[i - 1], walk[i - 1 + 1]);
      assert e in edges;
      var q := Position(order, n, walk[i - 1]);
      PositionsIncrease(order, n, edges, walk, i - 1, start, q);
    }
  }

  /** A walk of `length` steps backwards inside a blocked set, last node first. */
  lemma {:induction false} WalkBackwards(stuck: set<nat>, edges: EdgeKeys, length: nat) returns (walk: seq<nat>)
    requires stuck != {} && Blocked(stuck, edges)
    ensures |walk| == length + 1
    ensures forall v | v in walk :: v in stuck
    ensures forall i | 0 <= i < length :: (walk[i + 1], walk[i]) in edges
  {
    if length == 0 {
      var v :| v in stuck;
      return [v];
    }
    var shorter := WalkBackwards(stuck, edges, length - 1);
    assert shorter[length - 1] in stuck;
    assert HasPredecessorIn(stuck, edges, shorter[length - 1]);
    var u: nat :| u in stuck && (u, shorter[length - 1]) in edges;
    walk := shorter + [u];
  }

  /** Walking backwards for long enough inside a blocked set closes a cycle. */
  lemma BlockedHoldsACycle(stuck: set<nat>, edges: EdgeKeys) returns (walk: seq<nat>)
    requires stuck != {} && Blocked(stuck, edges)
    ensures IsCycle(walk, edges) && forall v | v in walk :: v in stuck
  {
    var back := WalkBackwards(stuck, edges, |stuck|);
    assert !NoDuplicates(back) by {
      if NoDuplicates(back) {
        DistinctCardinality(back);
        assert Elements(back) <= stuck;
        SubsetIsNoLarger(Elements(back), stuck);
      }
    }
    var i, j :| 0 <= i < j < |back| && back[i] == back[j];
    walk := seq(j - i, k requires 0 <= k < j - i => back[j - k]);
    forall k | 0 <= k < |walk| - 1
      ensures (walk[k], walk[k + 1]) in edges
    {
      assert (back[(j - k - 1) + 1], back[j - k - 1]) in edges;
    }
    assert (back[i + 1], back[i]) in edges;
    forall v | v in walk
      ensures v in stuck
    {
      var k :| 0 <= k < |walk| && walk[k] == v;
      assert back[j - k] in back;
    }
  }

  lemma {:induction false} SubsetIsNoLarger(small: set<nat>, large: set<nat>)
    requires small <= large
    ensures |small| <= |large|
    ensures |small| == |large| ==> small == large
  {
    if small != {} {
      var x :| x in small;
      SubsetIsNoLarger(small - {x}, large - {x});
      assert small - {x} == large - {x} ==> small == (small - {x}) + {x} == (large - {x}) + {x} == large;
    } else {
      assert |large| == 0 ==> large == {};
    }
  }

  lemma {:induction false} Below(n: nat) returns (all: set<nat>)
    ensures forall v: nat :: v in all <==> v < n
    ensures |all| == n
  {
    if n == 0 {
      return {};
    }
    var fewer := Below(n - 1);
    all := fewer + {n - 1};
  }

  // ---------------------------------------------------------------------------------------------
  // The algorithm
  // ---------------------------------------------------------------------------------------------

  lemma HasLeast(s: set<nat>) returns (least: nat)
    requires s != {}
    ensures least in s && forall v | v in s :: least <= v
    decreases |s|
  {
    var x :| x in s;
    if s == {x} {
      return x;
    }
    var rest := HasLeast(s - {x});
    least := if x < rest then x else rest;
    assert forall v | v in s :: v == x || v in s - {x};
  }

  method PopFirst(s: set<nat>) returns (least: nat, rest: set<nat>)
    requires s != {}
    ensures least in s && rest == s - {least}
    ensures forall v | v in s :: least <= v
  {
    ghost var witness_ := HasLeast(s);
    least :| least in s && forall v | v in s :: least <= v;
    rest := s - {least};
  }

  type Outgoing = map<nat, set<nat>>

  type Indegree = map<nat, nat>

  ghost predicate DegreesMatch(indegree: Indegree, n: nat, edges: EdgeKeys, done: set<nat>) {
    && (forall v: nat :: v in indegree <==> v < n)
    && forall v: nat | v in indegree :: indegree[v] == |Waiting(edges, done, v)|
  }

  ghost predicate OutgoingMatches(outgoing: Outgoing, edges: EdgeKeys) {
    forall u: nat, v: nat :: (u, v) in edges <==> u in outgoing && v in outgoing[u]
  }

  lemma OneMoreEdge(edges: EdgeKeys, e: (nat, nat), v: nat)
    requires e !in edges
    ensures |Waiting(edges + {e}, {}, v)| == |Waiting(edges, {}, v)| + if e.1 == v then 1 else 0
  {
    assert Waiting(edges + {e}, {}, v) == Waiting(edges, {}, v) + if e.1 == v then {e.0} else {};
  }

  lemma OutgoingStep(edges: EdgeKeys, e: (nat, nat), outgoing: Outgoing)
    requires OutgoingMatches(outgoing, edges)
    ensures OutgoingMatches(
              outgoing[e.0 := (if e.0 in outgoing then outgoing[e.0] else {}) + {e.1}], edges + {e})
  {
  }

  lemma DegreeStep(n: nat, edges: EdgeKeys, e: (nat, nat), indegree: Indegree)
    requires e !in edges && e.1 in indegree
    requires DegreesMatch(indegree, n, edges, {})
    ensures DegreesMatch(indegree[e.1 := indegree[e.1] + 1], n, edges + {e}, {})
  {
    forall v: nat {
      OneMoreEdge(edges, e, v);
    }
  }

  lemma NoEdgesYet(indegree: Indegree, n: nat, edges: EdgeKeys)
    requires forall v: nat :: v in indegree <==> v < n
    requires forall v: nat | v in indegree :: indegree[v] == 0
    ensures DegreesMatch(indegree, n, {}, {})
    ensures edges - edges == {}
  {
  }

  /** Successor sets and in-degrees, unless an edge names a node that was not prepared. */
  method CountEdges(n: nat, edges: EdgeKeys) returns (r: Option<(Outgoing, Indegree)>)
    ensures r.Some? <==> Known(n, edges)
    ensures r.Some? ==> OutgoingMatches(r.value.0, edges) && DegreesMatch(r.value.1, n, edges, {})
  {
    var outgoing: Outgoing := map[];
    var indegree: Indegree := map[];
    for v := 0 to n
      invariant forall u: nat :: u in indegree <==> u < v
      invariant forall u: nat | u in indegree :: indegree[u] == 0
    {
      indegree := indegree[v := 0];
    }
    NoEdgesYet(indegree, n, edges);
    var rest := edges;
    while rest != {}
      invariant rest <= edges
      invariant Known(n, edges - rest)
      invariant OutgoingMatches(outgoing, edges - rest)
      invariant DegreesMatch(indegree, n, edges - rest, {})
      decreases |rest|
    {
      var e :| e in rest;
      if e.0 !in indegree || e.1 !in indegree {
        return None;
      }
      assert edges - (rest - {e}) == (edges - rest) + {e};
      OutgoingStep(edges - rest, e, outgoing);
      DegreeStep(n, edges - rest, e, indegree);
      outgoing := outgoing[e.0 := (if e.0 in outgoing then outgoing[e.0] else {}) + {e.1}];
      indegree := indegree[e.1 := indegree[e.1] + 1];
      rest := rest - {e};
    }
    assert edges - rest == edges;
    return Some((outgoing, indegree));
  }

  /** Count one finished predecessor off each dependent; those left with none become ready. */
  method Release(dependents: set<nat>, indegree: Indegree, ready: set<nat>)
    returns (lowered: Indegree, extended: set<nat>)
    requires forall v | v in dependents :: v in indegree && indegree[v] > 0
    ensures lowered.Keys == indegree.Keys
    ensures forall v | v in indegree :: lowered[v] == indegree[v] - if v in dependents then 1 else 0
    ensures forall v: nat :: v in extended <==> v in ready || (v in dependents && indegree[v] == 1)
  {
    lowered, extended := indegree, ready;
    var rest := dependents;
    while rest != {}
      invariant rest <= dependents
      invariant lowered.Keys == indegree.Keys
      invariant forall v | v in indegree :: lowered[v] == indegree[v] - if v in dependents - rest then 1 else 0
      invariant forall v: nat :: v in extended <==> v in ready || (v in dependents - rest && indegree[v] == 1)
      decreases |rest|
    {
      var dependent :| dependent in rest;
      lowered := lowered[dependent := lowered[dependent] - 1];
      if lowered[dependent] == 0 {
        extended := extended + {dependent};
      }
      rest := rest - {dependent};
    }
  }

  /** What the loop knows after listing `ordered`. */
  ghost predicate Progress(n: nat, edges: EdgeKeys, ordered: seq<nat>, indegree: Indegree, ready: set<nat>) {
    && Greedy(ordered, n, edges)
    && DegreesMatch(indegree, n, edges, Elements(ordered))
    && forall v: nat :: v in ready <==> IsReady(n, edges, Elements(ordered), v)
  }

  lemma FinishOne(edges: EdgeKeys, done: set<nat>, node: nat, v: nat)
    requires node !in done
    ensures Waiting(edges, done + {node}, v) == Waiting(edges, done, v) - {node}
    ensures |Waiting(edges, done + {node}, v)|
            == |Waiting(edges, done, v)| - if (node, v) in edges then 1 else 0
  {
  }

  lemma GreedyExtends(n: nat, edges: EdgeKeys, ordered: seq<nat>, node: nat)
    requires Greedy(ordered, n, edges)
    requires IsReady(n, edges, Elements(ordered), node)
    requires forall v: nat | IsReady(n, edges, Elements(ordered), v) :: node <= v
    ensures Greedy(ordered + [node], n, edges)
  {
    var next := ordered + [node];
    forall k: nat | k < |next|
      ensures GreedyAt(next, k, n, edges)
    {
      assert next[..k] == ordered[..k];
      if k < |ordered| {
        assert GreedyAt(ordered, k, n, edges);
      } else {
        assert ordered[..k] == ordered;
      }
    }
  }

  lemma DegreesFall(
      n: nat, edges: EdgeKeys, done: set<nat>, indegree: Indegree, node: nat, dependents: set<nat>, lowered: Indegree)
    requires DegreesMatch(indegree, n, edges, done) && node !in done
    requires forall v: nat :: v in dependents <==> (node, v) in edges
    requires lowered.Keys == indegree.Keys
    requires forall v | v in indegree :: lowered[v] == indegree[v] - if v in dependents then 1 else 0
    ensures DegreesMatch(lowered, n, edges, done + {node})
  {
    forall v: nat {
      FinishOne(edges, done, node, v);
    }
  }

  lemma ProgressStep(
      n: nat, edges: EdgeKeys, ordered: seq<nat>, indegree: Indegree, ready: set<nat>, node: nat,
      dependents: set<nat>, lowered: Indegree, extended: set<nat>)
    requires Progress(n, edges, ordered, indegree, ready)
    requires node in ready && forall v | v in ready :: node <= v
    requires forall v: nat :: v in dependents <==> (node, v) in edges
    requires lowered.Keys == indegree.Keys
    requires forall v | v in indegree :: lowered[v] == indegree[v] - if v in dependents then 1 else 0
    requires forall v: nat :: v in extended
               <==> v in ready - {node} || (v in dependents && v in indegree && indegree[v] == 1)
    ensures Progress(n, edges, ordered + [node], lowered, extended)
  {
    var done := Elements(ordered);
    assert Elements(ordered + [node]) == done + {node};
    GreedyExtends(n, edges, ordered, node);
    DegreesFall(n, edges, done, indegree, node, dependents, lowered);
    forall v: nat
      ensures v in extended <==> IsReady(n, edges, done + {node}, v)
    {
      if v in ordered {
        ListedNodesWaitForNothing(ordered, n, edges, v);
      }
      ReadyAfter(n, edges, done, indegree, node, v);
    }
  }

  /** A node becomes ready by losing its last waiting predecessor. */
  lemma ReadyAfter(n: nat, edges: EdgeKeys, done: set<nat>, indegree: Indegree, node: nat, v: nat)
    requires DegreesMatch(indegree, n, edges, done) && IsReady(n, edges, done, node)
    requires v in done ==> Waiting(edges, done, v) == {}
    ensures IsReady(n, edges, done + {node}, v)
            <==> (v != node && IsReady(n, edges, done, v))
                 || (v in indegree && (node, v) in edges && indegree[v] == 1)
  {
    FinishOne(edges, done, node, v);
    assert (node, v) in edges ==> node in Waiting(edges, done, v);
    if v in indegree && (node, v) in edges && indegree[v] == 1 {
      assert |Waiting(edges, done + {node}, v)| == 0;
    }
  }

  lemma ListedNodesWaitForNothing(ordered: seq<nat>, n: nat, edges: EdgeKeys, v: nat)
    requires Greedy(ordered, n, edges) && v in ordered
    ensures v < n && Waiting(edges, Elements(ordered), v) == {}
  {
    var k :| 0 <= k < |ordered| && ordered[k] == v;
    assert GreedyAt(ordered, k, n, edges);
    assert Elements(ordered[..k]) <= Elements(ordered);
  }

  /** The nodes left when nothing is ready any more. */
  function Unlisted(ordered: seq<nat>, n: nat): set<nat> {
    set v: nat | 0 <= v < n && v !in ordered
  }

  lemma UnlistedAreBlocked(n: nat, edges: EdgeKeys, ordered: seq<nat>)
    requires Known(n, edges)
    requires forall v: nat :: !IsReady(n, edges, Elements(ordered), v)
    ensures Blocked(Unlisted(ordered, n), edges)
  {
    forall v | v in Unlisted(ordered, n)
      ensures HasPredecessorIn(Unlisted(ordered, n), edges, v)
    {
      assert !IsReady(n, edges, Elements(ordered), v);
      var u :| u in Waiting(edges, Elements(ordered), v);
      assert (u, v) in edges;
    }
  }

  /** When nothing is ready, the nodes with a predecessor left are those not listed. */
  lemma CaughtAreUnlisted(n: nat, edges: EdgeKeys, ordered: seq<nat>, indegree: Indegree, caught: set<nat>)
    requires Progress(n, edges, ordered, indegree, {})
    requires forall v: nat :: v in caught <==> v in indegree && indegree[v] > 0
    ensures caught == Unlisted(ordered, n)
  {
    forall v: nat
      ensures v in caught <==> v in Unlisted(ordered, n)
    {
      if v in ordered {
        ListedNodesWaitForNothing(ordered, n, edges, v);
      } else if v < n {
        assert !IsReady(n, edges, Elements(ordered), v);
      }
    }
  }

  /** Listing as many nodes as there are is listing all of them. */
  lemma FullLengthEnumerates(ordered: seq<nat>, n: nat, edges: EdgeKeys)
    requires Greedy(ordered, n, edges)
    ensures |ordered| <= n
    ensures |ordered| == n <==> Enumerates(ordered, n)
    ensures |ordered| == n <==> Unlisted(ordered, n) == {}
  {
    GreedyHasNoDuplicates(ordered, n, edges);
    DistinctCardinality(ordered);
    var all := Below(n);
    forall v | v in ordered
      ensures v in all
    {
      ListedNodesWaitForNothing(ordered, n, edges, v);
    }
    SubsetIsNoLarger(Elements(ordered), all);
    if |ordered| == n {
      assert forall v: nat :: v in ordered <==> v in Elements(ordered);
    }
    if Unlisted(ordered, n) == {} {
      forall v: nat | v < n
        ensures v in ordered
      {
        assert v !in Unlisted(ordered, n);
      }
      assert Elements(ordered) == all;
    }
  }

  /**
   * The prepared order. It exists exactly if the dependencies have no cycle; it is then the one
   * greedy enumeration that respects them. Otherwise the reported node is the smallest of all nodes
   * caught on or behind a cycle.
   */
  method TopologicalNodeOrder(n: nat, edges: EdgeKeys) returns (r: Result<seq<nat>, OrderError>)
    ensures r == Err(UnknownIdentity) <==> !Known(n, edges)
    ensures r.Ok? ==> Enumerates(r.value, n) && Respects(r.value, edges) && Greedy(r.value, n, edges)
    ensures r.Ok? <==> Known(n, edges) && forall walk :: !IsCycle(walk, edges)
    ensures r.Err? && r.error.Cycle? ==> LeastCaught(r.error.node, n, edges)
  {
    var counted := CountEdges(n, edges);
    if counted.None? {
      return Err(UnknownIdentity);
    }
    var outgoing: Outgoing, indegree: Indegree := counted.value.0, counted.value.1;
    assert Elements([]) == {};
    var ready := set v: nat | 0 <= v < n && indegree[v] == 0;
    var ordered: seq<nat> := [];
    while ready != {}
      invariant Progress(n, edges, ordered, indegree, ready)
      invariant |ordered| <= n
      decreases n - |ordered|
    {
      var node, rest := PopFirst(ready);
      var dependents := if node in outgoing then outgoing[node] else {};
      var lowered, extended := Release(dependents, indegree, rest);
      ProgressStep(n, edges, ordered, indegree, ready, node, dependents, lowered, extended);
      ordered, indegree, ready := ordered + [node], lowered, extended;
      FullLengthEnumerates(ordered, n, edges);
    }
    FullLengthEnumerates(ordered, n, edges);
    if |ordered| != n {
      var caught := set v | v in indegree && indegree[v] > 0;
      UnlistedAreBlocked(n, edges, ordered);
      CaughtAreUnlisted(n, edges, ordered, indegree, caught);
      var node, _ := PopFirst(caught);
      CaughtIsLargest(n, edges, ordered, node);
      ghost var walk := BlockedHoldsACycle(caught, edges);
      return Err(Cycle(node));
    }
    GreedyRespects(ordered, n, edges);
    forall walk: seq<nat> {
      RespectedOrderHasNoCycle(ordered, n, edges, walk);
    }
    return Ok(ordered);
  }

  /** The node is in a blocked set, and no blocked set of prepared nodes has a smaller member. */
  ghost predicate LeastCaught(node: nat, n: nat, edges: EdgeKeys) {
    && (exists stuck: set<nat> :: node in stuck && (forall v | v in stuck :: v < n) && Blocked(stuck, edges))
    && (forall stuck: set<nat>, v | (forall u | u in stuck :: u < n) && Blocked(stuck, edges) && v in stuck ::
          node <= v)
  }

  lemma CaughtIsLargest(n: nat, edges: EdgeKeys, ordered: seq<nat>, node: nat)
    requires Greedy(ordered, n, edges) && Blocked(Unlisted(ordered, n), edges)
    requires node in Unlisted(ordered, n) && forall v | v in Unlisted(ordered, n) :: node <= v
    ensures LeastCaught(node, n, edges)
  {
    forall stuck: set<nat>, v | (forall u | u in stuck :: u < n) && Blocked(stuck, edges) && v in stuck
      ensures node <= v
    {
      GreedyAvoidsBlocked(ordered, n, edges, stuck, |ordered|);
      assert ordered[..|ordered|] == ordered;
      assert v in Unlisted(ordered, n);
    }
  }
}
