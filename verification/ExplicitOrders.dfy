/** Author-stated orders, admitted only where they neither repeat nor oppose the inferred data order. */
module ExplicitOrders {
  import opened Common
  import opened NodeOrder

  datatype OrderCause = UnknownEndpoint | RedundantExplicitDataOrder | ExplicitOrderConflict

  // ---------------------------------------------------------------------------------------------
  // Walks
  // ---------------------------------------------------------------------------------------------

  predicate IsWalk(edges: EdgeKeys, walk: seq<nat>) {
    && walk != []
    && forall i | 0 <= i < |walk| - 1 :: (walk[i], walk[i + 1]) in edges
  }

  function Last(walk: seq<nat>): nat
    requires walk != []
  {
    walk[|walk| - 1]
  }

  predicate UsesData(data: EdgeKeys, walk: seq<nat>) {
    exists i :: 0 <= i < |walk| - 1 && (walk[i], walk[i + 1]) in data
  }

  /** `edges` leads from `start` to `target` by a walk that takes at least one data dependency. */
  ghost predicate DataPath(data: EdgeKeys, edges: EdgeKeys, start: nat, target: nat) {
    exists walk :: IsWalk(edges, walk) && walk[0] == start && Last(walk) == target && UsesData(data, walk)
  }

  lemma ExtendWalk(data: EdgeKeys, edges: EdgeKeys, walk: seq<nat>, v: nat)
    requires IsWalk(edges, walk) && (Last(walk), v) in edges
    ensures IsWalk(edges, walk + [v]) && (walk + [v])[0] == walk[0] && Last(walk + [v]) == v
    ensures UsesData(data, walk + [v]) <==> UsesData(data, walk) || (Last(walk), v) in data
  {
    var longer := walk + [v];
    assert longer[|walk| - 1] == Last(walk) && longer[|walk| - 1 + 1] == v;
    if UsesData(data, walk) {
      var i :| 0 <= i < |walk| - 1 && (walk[i], walk[i + 1]) in data;
      assert (longer[i], longer[i + 1]) in data;
    }
    if (Last(walk), v) in data {
      var i := |walk| - 1;
      assert (longer[i], longer[i + 1]) in data;
    }
  }

  lemma JoinWalks(data: EdgeKeys, edges: EdgeKeys, one: seq<nat>, other: seq<nat>)
    requires IsWalk(edges, one) && IsWalk(edges, other) && Last(one) == other[0]
    ensures IsWalk(edges, one + other[1..])
    ensures (one + other[1..])[0] == one[0] && Last(one + other[1..]) == Last(other)
    ensures UsesData(data, other) ==> UsesData(data, one + other[1..])
  {
    var joined := one + other[1..];
    forall i | 0 <= i < |joined| - 1
      ensures (joined[i], joined[i + 1]) in edges
    {
      if i >= |one| - 1 {
        var k := i - (|one| - 1);
        assert joined[i] == other[k] && joined[i + 1] == other[k + 1];
      }
    }
    if UsesData(data, other) {
      var k :| 0 <= k < |other| - 1 && (other[k], other[k + 1]) in data;
      var i := k + |one| - 1;
      assert joined[i] == other[k] && joined[i + 1] == other[k + 1];
    }
  }

  // ---------------------------------------------------------------------------------------------
  // Searching for a data path
  // ---------------------------------------------------------------------------------------------

  /** A node together with whether the walk that reached it has used data. */
  type SearchState = (nat, bool)

  ghost predicate Reached(data: EdgeKeys, edges: EdgeKeys, start: nat, state: SearchState) {
    exists walk ::
      IsWalk(edges, walk) && walk[0] == start && Last(walk) == state.0 && UsesData(data, walk) == state.1
  }

  function Next(data: EdgeKeys, state: SearchState, v: nat): SearchState {
    (v, state.1 || (state.0, v) in data)
  }

  lemma ReachedNext(data: EdgeKeys, edges: EdgeKeys, start: nat, state: SearchState, v: nat)
    requires Reached(data, edges, start, state) && (state.0, v) in edges
    ensures Reached(data, edges, start, Next(data, state, v))
  {
    var walk :| IsWalk(edges, walk) && walk[0] == start && Last(walk) == state.0 && UsesData(data, walk) == state.1;
    ExtendWalk(data, edges, walk, v);
  }

  /** Every successor of a visited state is visited or waiting, and none is the goal. */
  ghost predicate Explored(
      data: EdgeKeys, edges: EdgeKeys, target: nat, visited: set<SearchState>, waiting: set<SearchState>)
  {
    forall state, v | state in visited && (state.0, v) in edges ::
      Next(data, state, v) in visited + waiting && Next(data, state, v) != (target, true)
  }

  /** A finished search that has not met the goal has visited everything the walks reach. */
  lemma {:induction false} VisitedCoversWalk(
      data: EdgeKeys, edges: EdgeKeys, start: nat, target: nat, visited: set<SearchState>, walk: seq<nat>)
    requires Explored(data, edges, target, visited, {}) && (start, false) in visited
    requires IsWalk(edges, walk) && walk[0] == start
    ensures (Last(walk), UsesData(data, walk)) in visited
    ensures UsesData(data, walk) ==> Last(walk) != target
    decreases |walk|
  {
    if |walk| > 1 {
      var init, v := walk[..|walk| - 1], Last(walk);
      assert walk == init + [v];
      assert (walk[|walk| - 2], walk[|walk| - 2 + 1]) in edges;
      VisitedCoversWalk(data, edges, start, target, visited, init);
      ExtendWalk(data, edges, init, v);
      var state := (Last(init), UsesData(data, init));
      assert Next(data, state, v) == (Last(walk), UsesData(data, walk));
      assert state in visited && (state.0, v) in edges;
    }
  }

  /** The states one expansion adds, in the order the edges are scanned. */
  method Expand(data: EdgeKeys, edges: EdgeKeys, state: SearchState, target: nat)
    returns (found: bool, added: seq<SearchState>)
    ensures found <==> exists v: nat :: (state.0, v) in edges && Next(data, state, v) == (target, true)
    ensures !found ==> forall s :: s in added <==> exists v: nat :: (state.0, v) in edges && s == Next(data, state, v)
  {
    added := [];
    var rest := edges;
    while rest != {}
      invariant rest <= edges
      invariant forall v: nat | (state.0, v) in edges - rest :: Next(data, state, v) != (target, true)
      invariant forall s :: s in added
                  <==> exists v: nat :: (state.0, v) in edges - rest && s == Next(data, state, v)
      decreases |rest|
    {
      var e :| e in rest;
      if e.0 == state.0 {
        var reached := Next(data, state, e.1);
        assert (state.0, e.1) == e;
        if e.1 == target && reached.1 {
          return true, [];
        }
        added := added + [reached];
      }
      rest := rest - {e};
    }
    return false, added;
  }

  function Universe(edges: EdgeKeys, start: nat): set<SearchState> {
    {(start, false)} + (set e | e in edges :: (e.1, false)) + (set e | e in edges :: (e.1, true))
  }

  function Members(list: seq<SearchState>): set<SearchState> {
    set s | s in list
  }

  /** What the search knows, given the states it has visited and those still waiting. */
  ghost predicate Searching(
      data: EdgeKeys, edges: EdgeKeys, start: nat, target: nat, visited: set<SearchState>, waiting: set<SearchState>)
  {
    && (start, false) in visited + waiting
    && visited + waiting <= Universe(edges, start)
    && (forall s | s in visited + waiting :: Reached(data, edges, start, s))
    && Explored(data, edges, target, visited, waiting)
  }

  lemma SearchStarts(data: EdgeKeys, edges: EdgeKeys, start: nat, target: nat)
    ensures Searching(data, edges, start, target, {}, {(start, false)})
  {
    assert IsWalk(edges, [start]) && Last([start]) == start && !UsesData(data, [start]);
  }

  lemma SearchExpands(
      data: EdgeKeys, edges: EdgeKeys, start: nat, target: nat, visited: set<SearchState>,
      rest: set<SearchState>, state: SearchState, added: set<SearchState>)
    requires Searching(data, edges, start, target, visited, rest + {state})
    requires forall s :: s in added <==> exists v: nat :: (state.0, v) in edges && s == Next(data, state, v)
    requires forall v: nat | (state.0, v) in edges :: Next(data, state, v) != (target, true)
    ensures Searching(data, edges, start, target, visited + {state}, rest + added)
  {
    forall s | s in added
      ensures s in Universe(edges, start) && Reached(data, edges, start, s)
    {
      var v: nat :| (state.0, v) in edges && s == Next(data, state, v);
      ReachedNext(data, edges, start, state, v);
      assert (state.0, v).1 == v;
    }
    assert visited + {state} + (rest + added) == (visited + (rest + {state})) + added;
  }

  lemma SearchMeetsGoal(
      data: EdgeKeys, edges: EdgeKeys, start: nat, target: nat, visited: set<SearchState>,
      waiting: set<SearchState>, state: SearchState, v: nat)
    requires Searching(data, edges, start, target, visited, waiting) && state in waiting
    requires (state.0, v) in edges && Next(data, state, v) == (target, true)
    ensures DataPath(data, edges, start, target)
  {
    ReachedNext(data, edges, start, state, v);
  }

  lemma SearchEnds(data: EdgeKeys, edges: EdgeKeys, start: nat, target: nat, visited: set<SearchState>)
    requires Searching(data, edges, start, target, visited, {})
    ensures !DataPath(data, edges, start, target)
  {
    if DataPath(data, edges, start, target) {
      var walk :| IsWalk(edges, walk) && walk[0] == start && Last(walk) == target && UsesData(data, walk);
      VisitedCoversWalk(data, edges, start, target, visited, walk);
    }
  }

  lemma Shrinks(all: set<SearchState>, visited: set<SearchState>, state: SearchState)
    requires state in all && state !in visited
    ensures |all - (visited + {state})| < |all - visited|
  {
    assert all - visited == (all - (visited + {state})) + {state};
  }

  lemma DropVisited(
      data: EdgeKeys, edges: EdgeKeys, start: nat, target: nat, visited: set<SearchState>,
      rest: seq<SearchState>, state: SearchState)
    requires Searching(data, edges, start, target, visited, Members(rest + [state])) && state in visited
    ensures Searching(data, edges, start, target, visited, Members(rest))
  {
  }

  lemma PushSuccessors(
      data: EdgeKeys, edges: EdgeKeys, start: nat, target: nat, visited: set<SearchState>,
      rest: seq<SearchState>, state: SearchState, added: seq<SearchState>)
    requires Searching(data, edges, start, target, visited, Members(rest + [state])) && state !in visited
    requires forall s :: s in added <==> exists v: nat :: (state.0, v) in edges && s == Next(data, state, v)
    requires forall v: nat | (state.0, v) in edges :: Next(data, state, v) != (target, true)
    ensures Searching(data, edges, start, target, visited + {state}, Members(rest + added))
    ensures |Universe(edges, start) - (visited + {state})| < |Universe(edges, start) - visited|
  {
    assert Members(rest + [state]) == Members(rest) + {state};
    assert Members(rest + added) == Members(rest) + Members(added);
    SearchExpands(data, edges, start, target, visited, Members(rest), state, Members(added));
    Shrinks(Universe(edges, start), visited, state);
  }

  /** Pop one state; unless it was visited before, visit it and push its successors. */
  method VisitTop(
      data: EdgeKeys, edges: EdgeKeys, ghost start: nat, target: nat, visited: set<SearchState>,
      ready: seq<SearchState>)
      returns (met: bool, visitedNext: set<SearchState>, readyNext: seq<SearchState>)
    requires ready != [] && Searching(data, edges, start, target, visited, Members(ready))
    ensures met ==> DataPath(data, edges, start, target)
    ensures !met ==>
              && Searching(data, edges, start, target, visitedNext, Members(readyNext))
              && (|Universe(edges, start) - visitedNext| < |Universe(edges, start) - visited|
                  || (visitedNext == visited && |readyNext| < |ready|))
  {
    var state, rest := ready[|ready| - 1], ready[..|ready| - 1];
    assert ready == rest + [state];
    if state in visited {
      DropVisited(data, edges, start, target, visited, rest, state);
      return false, visited, rest;
    }
    var found, added := Expand(data, edges, state, target);
    if found {
      ghost var v: nat :| (state.0, v) in edges && Next(data, state, v) == (target, true);
      SearchMeetsGoal(data, edges, start, target, visited, Members(ready), state, v);
      return true, visited, rest;
    }
    PushSuccessors(data, edges, start, target, visited, rest, state, added);
    return false, visited + {state}, rest + added;
  }

  /** The depth-first search over nodes paired with whether data was used. */
  method DependencyDataPathExists(data: EdgeKeys, edges: EdgeKeys, start: nat, target: nat) returns (found: bool)
    ensures found <==> DataPath(data, edges, start, target)
  {
    var ready: seq<SearchState> := [(start, false)];
    var visited: set<SearchState> := {};
    SearchStarts(data, edges, start, target);
    assert Members(ready) == {(start, false)};
    while ready != []
      invariant Searching(data, edges, start, target, visited, Members(ready))
      decreases |Universe(edges, start) - visited|, |ready|
    {
      var met: bool;
      met, visited, ready := VisitTop(data, edges, start, target, visited, ready);
      if met {
        return true;
      }
    }
    assert Members(ready) == {};
    SearchEnds(data, edges, start, target, visited);
    return false;
  }

  // ---------------------------------------------------------------------------------------------
  // Admitting explicit orders
  // ---------------------------------------------------------------------------------------------

  /** Orders are judged one by one, against the data edges and the orders admitted before them. */
  ghost function Admitted(n: nat, data: EdgeKeys, before: EdgeKeys, orders: seq<(nat, nat)>):
    Result<EdgeKeys, OrderCause>
    decreases |orders|
  {
    if orders == [] then Ok(before)
    else
      var (u, v) := orders[0];
      if u >= n || v >= n then Err(UnknownEndpoint)
      else if DataPath(data, data + before, u, v) then Err(RedundantExplicitDataOrder)
      else if DataPath(data, data + before, v, u) then Err(ExplicitOrderConflict)
      else Admitted(n, data, before + {(u, v)}, orders[1..])
  }

  method AddExplicitOrders(n: nat, data: EdgeKeys, orders: seq<(nat, nat)>) returns (r: Result<EdgeKeys, OrderCause>)
    ensures r == Admitted(n, data, {}, orders)
  {
    var admitted: EdgeKeys := {};
    assert orders[0..] == orders;
    for i := 0 to |orders|
      invariant Admitted(n, data, admitted, orders[i..]) == Admitted(n, data, {}, orders)
    {
      var (u, v) := orders[i];
      assert orders[i..][0] == orders[i] && orders[i..][1..] == orders[i + 1..];
      if u >= n || v >= n {
        return Err(UnknownEndpoint);
      }
      var redundant := DependencyDataPathExists(data, data + admitted, u, v);
      if redundant {
        return Err(RedundantExplicitDataOrder);
      }
      var opposed := DependencyDataPathExists(data, data + admitted, v, u);
      if opposed {
        return Err(ExplicitOrderConflict);
      }
      admitted := admitted + {(u, v)};
    }
    return Ok(admitted);
  }

  // ---------------------------------------------------------------------------------------------
  // Data is never on a cycle
  // ---------------------------------------------------------------------------------------------

  /** A closed walk along `edges` that takes a data dependency. */
  ghost predicate DataCycle(data: EdgeKeys, edges: EdgeKeys, walk: seq<nat>) {
    IsWalk(edges, walk) && UsesData(data, walk) && walk[0] == Last(walk)
  }

  ghost predicate NoDataCycle(data: EdgeKeys, edges: EdgeKeys) {
    forall walk :: !DataCycle(data, edges, walk)
  }

  lemma PartOfWalk(edges: EdgeKeys, walk: seq<nat>, from: nat, to: nat)
    requires IsWalk(edges, walk) && from < to <= |walk|
    ensures IsWalk(edges, walk[from..to])
    ensures walk[from..to][0] == walk[from] && Last(walk[from..to]) == walk[to - 1]
  {
  }

  lemma PrependToWalk(edges: EdgeKeys, u: nat, walk: seq<nat>)
    requires IsWalk(edges, walk) && (u, walk[0]) in edges
    ensures IsWalk(edges, [u] + walk) && Last([u] + walk) == Last(walk)
  {
  }

  /** The same cycle, begun at its data dependency. */
  lemma RotateToData(data: EdgeKeys, edges: EdgeKeys, walk: seq<nat>) returns (rotated: seq<nat>)
    requires DataCycle(data, edges, walk)
    ensures DataCycle(data, edges, rotated) && |rotated| > 1 && (rotated[0], rotated[1]) in data
  {
    var d :| 0 <= d < |walk| - 1 && (walk[d], walk[d + 1]) in data;
    var tail, head := walk[d..|walk|], walk[0..d + 1];
    PartOfWalk(edges, walk, d, |walk|);
    PartOfWalk(edges, walk, 0, d + 1);
    JoinWalks(data, edges, tail, head);
    rotated := tail + head[1..];
    assert (rotated[0], rotated[0 + 1]) == (walk[d], walk[d + 1]);
  }

  /** Follow a walk until it would take the new edge for the first time. */
  lemma {:induction false} UntilNewEdge(edges: EdgeKeys, e: (nat, nat), walk: seq<nat>) returns (prefix: seq<nat>)
    requires IsWalk(edges + {e}, walk)
    ensures IsWalk(edges, prefix) && prefix <= walk
    ensures prefix == walk || Last(prefix) == e.0
    ensures |walk| > 1 && (walk[0], walk[1]) != e ==> |prefix| > 1
    decreases |walk|
  {
    if |walk| == 1 || (walk[0], walk[1]) == e {
      prefix := [walk[0]];
    } else {
      assert (walk[0], walk[0 + 1]) in edges;
      PartOfWalk(edges + {e}, walk, 1, |walk|);
      var rest := UntilNewEdge(edges, e, walk[1..|walk|]);
      PrependToWalk(edges, walk[0], rest);
      prefix := [walk[0]] + rest;
    }
  }

  /** The part of a walk after it took the new edge for the last time. */
  lemma {:induction false} AfterNewEdge(edges: EdgeKeys, e: (nat, nat), walk: seq<nat>) returns (suffix: seq<nat>)
    requires IsWalk(edges + {e}, walk)
    ensures IsWalk(edges, suffix) && Last(suffix) == Last(walk)
    ensures suffix == walk || suffix[0] == e.1
    decreases |walk|
  {
    if |walk| == 1 {
      suffix := walk;
    } else {
      var rest := walk[1..|walk|];
      PartOfWalk(edges + {e}, walk, 1, |walk|);
      suffix := AfterNewEdge(edges, e, rest);
      if suffix == rest && (walk[0], walk[0 + 1]) != e {
        PrependToWalk(edges, walk[0], rest);
        suffix := [walk[0]] + rest;
      }
    }
  }

  /** A data cycle through a new edge is an old data cycle, or an old data path that opposes the edge. */
  lemma DataCycleSplits(data: EdgeKeys, edges: EdgeKeys, e: (nat, nat), walk: seq<nat>)
    requires data <= edges && e !in data && DataCycle(data, edges + {e}, walk)
    ensures (exists other :: DataCycle(data, edges, other)) || DataPath(data, edges, e.1, e.0)
  {
    var cycle := RotateToData(data, edges + {e}, walk);
    var prefix := UntilNewEdge(edges, e, cycle);
    assert UsesData(data, prefix) by {
      assert (prefix[0], prefix[0 + 1]) in data;
    }
    var suffix := AfterNewEdge(edges, e, cycle);
    if prefix == cycle || suffix == cycle {
      assert DataCycle(data, edges, cycle);
    } else {
      JoinWalks(data, edges, suffix, prefix);
    }
  }

  lemma DataEdgeIsDataPath(data: EdgeKeys, edges: EdgeKeys, e: (nat, nat))
    requires data <= edges && e in data
    ensures DataPath(data, edges, e.0, e.1)
  {
    var single := [e.0, e.1];
    assert (single[0], single[0 + 1]) in data;
    assert IsWalk(edges, single) && UsesData(data, single);
  }

  /** However many explicit orders are admitted, no cycle they close runs through a data dependency. */
  lemma {:induction false} AdmittedOrdersSpareData(
      n: nat, data: EdgeKeys, before: EdgeKeys, orders: seq<(nat, nat)>)
    requires Admitted(n, data, before, orders).Ok?
    requires NoDataCycle(data, data + before)
    ensures NoDataCycle(data, data + Admitted(n, data, before, orders).value)
    decreases |orders|
  {
    if orders != [] {
      var e := (orders[0].0, orders[0].1);
      assert e == orders[0];
      if e in data {
        DataEdgeIsDataPath(data, data + before, e);
      }
      assert data + (before + {e}) == (data + before) + {e};
      forall walk: seq<nat>
        ensures !DataCycle(data, data + before + {e}, walk)
      {
        if DataCycle(data, data + before + {e}, walk) {
          DataCycleSplits(data, data + before, e, walk);
        }
      }
      AdmittedOrdersSpareData(n, data, before + {e}, orders[1..]);
    }
  }

  /** Exactly the stated orders are admitted, all between known nodes. */
  lemma {:induction false} AdmittedOrdersAreTheStated(
      n: nat, data: EdgeKeys, before: EdgeKeys, orders: seq<(nat, nat)>)
    requires Admitted(n, data, before, orders).Ok?
    ensures Admitted(n, data, before, orders).value == before + set e | e in orders
    ensures forall e | e in orders :: e.0 < n && e.1 < n
    decreases |orders|
  {
    if orders != [] {
      var e := (orders[0].0, orders[0].1);
      assert e == orders[0];
      AdmittedOrdersAreTheStated(n, data, before + {e}, orders[1..]);
      assert orders == [e] + orders[1..];
    }
  }
}
