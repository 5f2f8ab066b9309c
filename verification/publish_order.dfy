/** The crates.io publish order (`scripts/publish-order.py`). */
module PublishOrder {
  import opened Ordering
  import opened WorkSets

  datatype Name = Name(text: string)

  predicate NameLe(a: Name, b: Name) { StrLe(a.text, b.text) }

  lemma NameLeIsTotalOrder()
    ensures TotalOrder(NameLe)
  {
    StrLeIsTotalOrder();
    assert forall a: Name, b: Name :: a.text == b.text ==> a == b;
  }

  /** `{dependent: its workspace-internal dependencies}`. */
  type Edges = map<Name, set<Name>>

  function NodeSet(nodes: seq<Name>): set<Name> { set i | 0 <= i < |nodes| :: nodes[i] }

  function Deps(edges: Edges, n: Name): set<Name> { if n in edges then edges[n] else {} }

  /** What `build_graph` delivers: no repeated node, and edges only among the nodes. */
  ghost predicate WellFormed(nodes: seq<Name>, edges: Edges) {
    Distinct(nodes) && forall n :: n in edges ==> n in NodeSet(nodes) && edges[n] <= NodeSet(nodes)
  }

  // ----- What is promised -----

  /** Every node once, and every dependency before its dependents. */
  ghost predicate DependencyFirst(nodes: seq<Name>, edges: Edges, order: seq<Name>) {
    && Distinct(order) && NodeSet(order) == NodeSet(nodes)
    && forall i :: 0 <= i < |order| ==> Deps(edges, order[i]) <= NodeSet(order[..i])
  }

  /** A walk along dependency edges that returns to its start. */
  ghost predicate IsCycle(edges: Edges, c: seq<Name>) {
    && |c| >= 2 && c[0] == c[|c| - 1]
    && forall i :: 0 <= i < |c| - 1 ==> c[i + 1] in Deps(edges, c[i])
  }

  /** Where the two orders first differ, `a` has the smaller name. */
  ghost predicate LexFirst(a: seq<Name>, b: seq<Name>) {
    forall i :: 0 <= i < |a| && i < |b| && a[..i] == b[..i] ==> NameLe(a[i], b[i])
  }

  /** Nodes not yet placed whose dependencies all are. */
  function Available(nodes: set<Name>, edges: Edges, done: set<Name>): set<Name> {
    set n | n in nodes && n !in done && Deps(edges, n) <= done
  }

  /** Every element was the least available one when it was placed. */
  ghost predicate Greedy(nodes: seq<Name>, edges: Edges, order: seq<Name>) {
    forall i :: 0 <= i < |order| ==> IsLeast(NameLe, order[i], Available(NodeSet(nodes), edges, NodeSet(order[..i])))
  }

  datatype OrderResult = Ordered(order: seq<Name>) | Cycle(cycle: seq<Name>)

  // ----- Degrees -----

  /** Who, among the dependents `done`, depends on each node. */
  ghost function DependentsOf(all: set<Name>, edges: Edges, done: set<Name>): map<Name, set<Name>> {
    map d | d in all :: set n | n in done && d in Deps(edges, n)
  }

  ghost function DegreesOf(all: set<Name>, edges: Edges, done: set<Name>): map<Name, nat> {
    map n | n in all :: if n in done then |Deps(edges, n)| else 0
  }

  method CountDegrees(nodes: seq<Name>, edges: Edges)
    returns (dependents: map<Name, set<Name>>, indegree: map<Name, nat>)
    requires WellFormed(nodes, edges)
    ensures dependents == DependentsOf(NodeSet(nodes), edges, NodeSet(nodes))
    ensures indegree == DegreesOf(NodeSet(nodes), edges, NodeSet(nodes)) && indegree.Keys == NodeSet(nodes)
  {
    var all := NodeSet(nodes);
    dependents := map n | n in all :: {};
    indegree := map n | n in all :: 0;
    var todo := edges.Keys;
    ghost var done: set<Name> := {};
    NothingCounted(all, edges);
    AllLeft(todo);
    hide DependentsOf, DegreesOf, Split, NodeSet;
    while todo != {}
      invariant Split(edges.Keys, done, todo)
      invariant dependents == DependentsOf(all, edges, done) && indegree == DegreesOf(all, edges, done)
      decreases todo
    {
      var n :| n in todo;
      TakeOne(edges.Keys, done, todo, n);
      CountStep(all, edges, done, n);
      dependents, indegree := CountOne(all, edges, n, dependents, indegree);
      todo, done := todo - {n}, done + {n};
    }
    NoneLeft(edges.Keys, done);
    AllCounted(all, edges);
  }

  lemma AllCounted(all: set<Name>, edges: Edges)
    requires edges.Keys <= all
    ensures DependentsOf(all, edges, edges.Keys) == DependentsOf(all, edges, all)
    ensures DegreesOf(all, edges, edges.Keys) == DegreesOf(all, edges, all)
  {
    forall d | d in all ensures DependentsOf(all, edges, edges.Keys)[d] == DependentsOf(all, edges, all)[d] {}
  }

  lemma NothingCounted(all: set<Name>, edges: Edges)
    ensures DependentsOf(all, edges, {}) == map n | n in all :: {}
    ensures DegreesOf(all, edges, {}) == map n | n in all :: 0
  {
    forall d | d in all ensures DependentsOf(all, edges, {})[d] == {} {}
  }

  lemma SetSame<K, V>(m: map<K, V>, k: K)
    requires k in m
    ensures m[k := m[k]] == m
  {
  }

  lemma SetTwice<K, V>(m: map<K, V>, k: K, v: V, w: V)
    ensures m[k := v][k := w] == m[k := w]
  {
  }

  ghost function Marked(m: map<Name, set<Name>>, seen: set<Name>, n: Name): map<Name, set<Name>> {
    map d | d in m :: if d in seen then m[d] + {n} else m[d]
  }

  lemma MarkNone(m: map<Name, set<Name>>, n: Name)
    ensures Marked(m, {}, n) == m
  {
  }

  lemma MarkOne(m: map<Name, set<Name>>, seen: set<Name>, n: Name, d: Name)
    requires d in m && d !in seen
    ensures d in Marked(m, seen, n) && Marked(m, seen, n)[d] == m[d]
    ensures Marked(m, seen, n)[d := m[d] + {n}] == Marked(m, seen + {d}, n)
  {
  }

  lemma CountStep(all: set<Name>, edges: Edges, done: set<Name>, n: Name)
    requires n in edges && n in all && n !in done
    ensures Marked(DependentsOf(all, edges, done), edges[n], n) == DependentsOf(all, edges, done + {n})
    ensures DegreesOf(all, edges, done).Keys == DependentsOf(all, edges, done).Keys == all
    ensures DegreesOf(all, edges, done)[n] == 0
    ensures DegreesOf(all, edges, done)[n := |edges[n]|] == DegreesOf(all, edges, done + {n})
  {
    var m := DependentsOf(all, edges, done);
    forall d | d in all ensures Marked(m, edges[n], n)[d] == DependentsOf(all, edges, done + {n})[d] {
      assert Deps(edges, n) == edges[n];
    }
  }

  /** The inner loop, over the dependencies of one dependent. */
  method CountOne(all: set<Name>, edges: Edges, n: Name, dependents0: map<Name, set<Name>>, indegree0: map<Name, nat>)
    returns (dependents: map<Name, set<Name>>, indegree: map<Name, nat>)
    requires n in edges && edges[n] <= all && n in all
    requires dependents0.Keys == indegree0.Keys == all && indegree0[n] == 0
    ensures dependents == Marked(dependents0, edges[n], n) && indegree == indegree0[n := |edges[n]|]
  {
    dependents, indegree := dependents0, indegree0;
    var todo := edges[n];
    ghost var seen: set<Name> := {};
    hide Marked, Split;
    AllLeft(todo);
    MarkNone(dependents0, n);
    SetSame(indegree0, n);
    while todo != {}
      invariant Split(edges[n], seen, todo)
      invariant dependents == Marked(dependents0, seen, n) && indegree == indegree0[n := |seen|]
      decreases todo
    {
      var d :| d in todo;
      MarkOne(dependents0, seen, n, d);
      TakeOne(edges[n], seen, todo, d);
      SetTwice(indegree0, n, |seen|, |seen| + 1);
      dependents := dependents[d := dependents[d] + {n}];
      indegree := indegree[n := indegree[n] + 1];
      todo, seen := todo - {d}, seen + {d};
    }
    NoneLeft(edges[n], seen);
  }

  // ----- Kahn's algorithm -----

  lemma NodeSetAppend(s: seq<Name>, x: Name)
    ensures NodeSet(s + [x]) == NodeSet(s) + {x}
  {
    forall y | y in NodeSet(s) ensures y in NodeSet(s + [x]) {
      var i :| 0 <= i < |s| && s[i] == y;
      assert (s + [x])[i] == y;
    }
    assert (s + [x])[|s|] == x;
  }

  lemma {:induction false} NodeSetSize(s: seq<Name>)
    requires Distinct(s)
    ensures |NodeSet(s)| == |s|
  {
    if s != [] {
      var front, x := s[..|s| - 1], s[|s| - 1];
      NodeSetSize(front);
      assert s == front + [x];
      NodeSetAppend(front, x);
      assert x !in NodeSet(front);
    }
  }

  /** How many dependencies each node still waits for. */
  ghost function OpenDegrees(all: set<Name>, edges: Edges, done: set<Name>): map<Name, nat> {
    map n | n in all :: |Deps(edges, n) - done|
  }

  /** The two structures of the main loop while the dependents of `name` are being updated. */
  ghost function PartSettled(all: set<Name>, edges: Edges, done: set<Name>, name: Name, seen: set<Name>)
    : map<Name, nat>
  {
    map n | n in all :: if n in seen then |Deps(edges, n) - (done + {name})| else |Deps(edges, n) - done|
  }

  ghost function PartReady(all: set<Name>, edges: Edges, done: set<Name>, name: Name, seen: set<Name>): set<Name> {
    (Available(all, edges, done) - {name}) + set n | n in seen && Deps(edges, n) <= done + {name}
  }

  lemma SettleStart(all: set<Name>, edges: Edges, done: set<Name>, name: Name)
    ensures PartSettled(all, edges, done, name, {}) == OpenDegrees(all, edges, done)
    ensures PartReady(all, edges, done, name, {}) == Available(all, edges, done) - {name}
  {
  }

  /** A counter that goes down by one reaches zero exactly when the node becomes available, and
      the node was not in the heap before. */
  lemma SettleStep(all: set<Name>, edges: Edges, done: set<Name>, name: Name, seen: set<Name>, d: Name)
    requires d in all && d !in seen && name !in done && name in Deps(edges, d)
    ensures var degrees, ready := PartSettled(all, edges, done, name, seen), PartReady(all, edges, done, name, seen);
            && d in degrees && degrees[d] >= 1 && d !in ready
            && degrees[d := degrees[d] - 1] == PartSettled(all, edges, done, name, seen + {d})
            && PartReady(all, edges, done, name, seen + {d}) == if degrees[d] == 1 then ready + {d} else ready
  {
    CounterStep(edges, done, name, d);
    DegreeStep(all, edges, done, name, seen, d);
    ReadyStep(all, edges, done, name, seen, d);
    hide Deps, Available, PartSettled, PartReady;
  }

  lemma DegreeStep(all: set<Name>, edges: Edges, done: set<Name>, name: Name, seen: set<Name>, d: Name)
    requires d in all && d !in seen
    ensures var degrees := PartSettled(all, edges, done, name, seen);
            && d in degrees && degrees[d] == |Deps(edges, d) - done|
            && degrees[d := |Deps(edges, d) - (done + {name})|] == PartSettled(all, edges, done, name, seen + {d})
  {
    hide Deps;
  }

  lemma ReadyStep(all: set<Name>, edges: Edges, done: set<Name>, name: Name, seen: set<Name>, d: Name)
    requires d in all && d !in seen && name !in done && name in Deps(edges, d)
    ensures var ready, ready' := PartReady(all, edges, done, name, seen), PartReady(all, edges, done, name, seen + {d});
            d !in ready && ready' == if Deps(edges, d) <= done + {name} then ready + {d} else ready
  {
    assert d !in Available(all, edges, done);
    hide Deps, Available;
  }

  lemma CounterStep(edges: Edges, done: set<Name>, name: Name, d: Name)
    requires name !in done && name in Deps(edges, d)
    ensures |Deps(edges, d) - (done + {name})| == |Deps(edges, d) - done| - 1
    ensures Deps(edges, d) <= done + {name} <==> |Deps(edges, d) - done| == 1
  {
    var open := Deps(edges, d) - done;
    assert open - {name} == Deps(edges, d) - (done + {name});
    assert open - {name} == {} <==> Deps(edges, d) <= done + {name};
  }

  ghost predicate Closed(edges: Edges, done: set<Name>) { forall n :: n in done ==> Deps(edges, n) <= done }

  lemma DegreesSettled(all: set<Name>, edges: Edges, done: set<Name>, name: Name, seen: set<Name>)
    requires seen == set n | n in all && name in Deps(edges, n)
    ensures PartSettled(all, edges, done, name, seen) == OpenDegrees(all, edges, done + {name})
  {
    hide Deps;
    forall n | n in all
      ensures PartSettled(all, edges, done, name, seen)[n] == OpenDegrees(all, edges, done + {name})[n] {
      if n !in seen { assert Deps(edges, n) - (done + {name}) == Deps(edges, n) - done; }
    }
  }

  lemma ReadySettled(all: set<Name>, edges: Edges, done: set<Name>, name: Name, seen: set<Name>, n: Name)
    requires name in Available(all, edges, done) && Closed(edges, done)
    requires seen == set n | n in all && name in Deps(edges, n)
    ensures n in PartReady(all, edges, done, name, seen) <==> n in Available(all, edges, done + {name})
  {
    hide Deps;
    var deps := Deps(edges, n);
    assert deps <= done + {name} && name !in deps <==> deps <= done;
  }

  lemma SettleEnd(all: set<Name>, edges: Edges, done: set<Name>, name: Name, seen: set<Name>)
    requires name in Available(all, edges, done) && Closed(edges, done)
    requires seen == set n | n in all && name in Deps(edges, n)
    ensures PartSettled(all, edges, done, name, seen) == OpenDegrees(all, edges, done + {name})
    ensures PartReady(all, edges, done, name, seen) == Available(all, edges, done + {name})
  {
    DegreesSettled(all, edges, done, name, seen);
    forall n ensures n in PartReady(all, edges, done, name, seen) <==> n in Available(all, edges, done + {name}) {
      ReadySettled(all, edges, done, name, seen, n);
    }
    hide PartSettled, OpenDegrees, PartReady, Available, Deps;
  }

  lemma ClosedGrows(all: set<Name>, edges: Edges, done: set<Name>, name: Name)
    requires name in Available(all, edges, done) && Closed(edges, done)
    ensures Closed(edges, done + {name}) && name !in done
  {
  }

  /** Updates the dependents of a node that has just been placed. The order in which they are
      visited makes no difference. */
  method Settle(all: set<Name>, edges: Edges, ghost done: set<Name>, name: Name, waiting: set<Name>,
                indegree0: map<Name, nat>, ready0: set<Name>)
    returns (indegree: map<Name, nat>, ready: set<Name>)
    requires name in Available(all, edges, done) && Closed(edges, done)
    requires waiting == set n | n in all && name in Deps(edges, n)
    requires indegree0 == OpenDegrees(all, edges, done) && ready0 == Available(all, edges, done) - {name}
    ensures indegree == OpenDegrees(all, edges, done + {name}) && ready == Available(all, edges, done + {name})
    ensures Closed(edges, done + {name})
  {
    hide OpenDegrees, PartSettled, PartReady, Available, Split, Closed, Deps;
    indegree, ready := indegree0, ready0;
    var todo := waiting;
    ghost var seen: set<Name> := {};
    SettleStart(all, edges, done, name);
    SettleEnd(all, edges, done, name, waiting);
    ClosedGrows(all, edges, done, name);
    AllLeft(waiting);
    while todo != {}
      invariant Split(waiting, seen, todo)
      invariant indegree == PartSettled(all, edges, done, name, seen)
      invariant ready == PartReady(all, edges, done, name, seen)
      decreases todo
    {
      var d :| d in todo;
      TakeOne(waiting, seen, todo, d);
      SettleStep(all, edges, done, name, seen, d);
      indegree := indegree[d := indegree[d] - 1];
      if indegree[d] == 0 { ready := ready + {d}; }
      todo, seen := todo - {d}, seen + {d};
    }
    NoneLeft(waiting, seen);
  }

  /** What the main loop keeps. */
  ghost predicate KahnState(nodes: seq<Name>, edges: Edges, order: seq<Name>,
                            indegree: map<Name, nat>, ready: set<Name>)
  {
    var all, done := NodeSet(nodes), NodeSet(order);
    && indegree == OpenDegrees(all, edges, done) && ready == Available(all, edges, done)
    && Distinct(order) && done <= all && Closed(edges, done) && Greedy(nodes, edges, order)
  }

  lemma KahnStart(nodes: seq<Name>, edges: Edges)
    ensures KahnState(nodes, edges, [], OpenDegrees(NodeSet(nodes), edges, {}), Available(NodeSet(nodes), edges, {}))
  {
    assert NodeSet([]) == {};
    hide OpenDegrees, Available;
  }

  lemma DegreesAtStart(all: set<Name>, edges: Edges)
    ensures DegreesOf(all, edges, all) == OpenDegrees(all, edges, {})
  {
    hide Deps;
    forall n | n in all ensures DegreesOf(all, edges, all)[n] == OpenDegrees(all, edges, {})[n] {
      assert Deps(edges, n) - {} == Deps(edges, n);
    }
  }

  lemma AvailableAtStart(all: set<Name>, edges: Edges, n: Name)
    ensures n in Available(all, edges, {}) <==> n in all && DegreesOf(all, edges, all)[n] == 0
  {
    hide Deps;
    assert Deps(edges, n) <= {} <==> |Deps(edges, n)| == 0;
  }

  lemma GreedyGrows(nodes: seq<Name>, edges: Edges, order: seq<Name>, name: Name)
    requires Greedy(nodes, edges, order) && IsLeast(NameLe, name, Available(NodeSet(nodes), edges, NodeSet(order)))
    ensures Greedy(nodes, edges, order + [name])
  {
    hide Available, NameLe, NodeSet, IsLeast;
    var next := order + [name];
    forall i | 0 <= i < |next| ensures IsLeast(NameLe, next[i], Available(NodeSet(nodes), edges, NodeSet(next[..i]))) {
      if i < |order| { assert next[..i] == order[..i] && next[i] == order[i]; } else { assert next[..i] == order; }
    }
  }

  lemma DistinctGrows(order: seq<Name>, name: Name)
    requires Distinct(order) && name !in NodeSet(order)
    ensures Distinct(order + [name])
  {
    assert forall i :: 0 <= i < |order| ==> order[i] in NodeSet(order);
  }

  lemma ReadyAtStart(all: set<Name>, edges: Edges)
    ensures (set n | n in all && DegreesOf(all, edges, all)[n] == 0) == Available(all, edges, {})
  {
    forall n ensures n in Available(all, edges, {}) <==> n in all && DegreesOf(all, edges, all)[n] == 0 {
      AvailableAtStart(all, edges, n);
    }
    hide Available, Deps;
  }

  lemma KahnStep(nodes: seq<Name>, edges: Edges, order: seq<Name>, name: Name,
                 indegree: map<Name, nat>, ready: set<Name>)
    requires Distinct(order) && NodeSet(order) <= NodeSet(nodes) && Greedy(nodes, edges, order)
    requires IsLeast(NameLe, name, Available(NodeSet(nodes), edges, NodeSet(order)))
    requires var done := NodeSet(order) + {name};
             Closed(edges, done)
             && indegree == OpenDegrees(NodeSet(nodes), edges, done) && ready == Available(NodeSet(nodes), edges, done)
    ensures KahnState(nodes, edges, order + [name], indegree, ready)
  {
    NodeSetAppend(order, name);
    LeastIsNew(nodes, edges, NodeSet(order), name);
    GreedyGrows(nodes, edges, order, name);
    DistinctGrows(order, name);
    hide Available, OpenDegrees, Closed, NameLe, Greedy, Distinct, NodeSet, IsLeast;
  }

  lemma LeastIsNew(nodes: seq<Name>, edges: Edges, done: set<Name>, name: Name)
    requires IsLeast(NameLe, name, Available(NodeSet(nodes), edges, done))
    ensures name !in done && name in NodeSet(nodes)
  {
  }

  lemma SubsetSize(a: set<Name>, b: set<Name>)
    requires a <= b
    ensures |a| <= |b| && (|a| == |b| ==> a == b)
  {
    assert b == a + (b - a);
  }

  lemma RoomLeft(nodes: seq<Name>, edges: Edges, order: seq<Name>, indegree: map<Name, nat>, ready: set<Name>)
    requires WellFormed(nodes, edges) && KahnState(nodes, edges, order, indegree, ready) && ready != {}
    ensures |order| < |nodes|
  {
    NodeSetSize(nodes);
    NodeSetSize(order);
    SubsetSize(NodeSet(order), NodeSet(nodes));
    var n :| n in ready;
  }

  lemma AllPlaced(nodes: seq<Name>, edges: Edges, order: seq<Name>, indegree: map<Name, nat>)
    requires WellFormed(nodes, edges) && KahnState(nodes, edges, order, indegree, {}) && |order| == |nodes|
    ensures DependencyFirst(nodes, edges, order)
  {
    NodeSetSize(nodes);
    NodeSetSize(order);
    SubsetSize(NodeSet(order), NodeSet(nodes));
    forall i | 0 <= i < |order| ensures Deps(edges, order[i]) <= NodeSet(order[..i]) {
      assert order[i] in Available(NodeSet(nodes), edges, NodeSet(order[..i]));
    }
  }

  ghost predicate Blocked(edges: Edges, remaining: set<Name>) {
    forall n :: n in remaining ==> Deps(edges, n) * remaining != {}
  }

  lemma AllBlocked(nodes: seq<Name>, edges: Edges, order: seq<Name>, indegree: map<Name, nat>)
    requires WellFormed(nodes, edges) && KahnState(nodes, edges, order, indegree, {}) && |order| != |nodes|
    ensures NodeSet(nodes) - NodeSet(order) != {} && Blocked(edges, NodeSet(nodes) - NodeSet(order))
  {
    NodeSetSize(nodes);
    NodeSetSize(order);
    var all, done := NodeSet(nodes), NodeSet(order);
    hide OpenDegrees, Greedy, NodeSet;
    assert all - done == {} ==> all == done;
    forall n | n in all - done ensures Deps(edges, n) * (all - done) != {} {
      BlockedNode(all, edges, done, n);
    }
  }

  lemma BlockedNode(all: set<Name>, edges: Edges, done: set<Name>, n: Name)
    requires Available(all, edges, done) == {} && Deps(edges, n) <= all && n in all && n !in done
    ensures Deps(edges, n) * (all - done) != {}
  {
    assert n !in Available(all, edges, done);
    var d :| d in Deps(edges, n) && d !in done;
    assert d in Deps(edges, n) * (all - done);
  }

  /** A walk in progress: distinct nodes, each a dependency of the one before. */
  ghost predicate IsWalk(edges: Edges, remaining: set<Name>, path: seq<Name>, node: Name) {
    && Distinct(path) && NodeSet(path) <= remaining && node in remaining
    && (forall i :: 0 <= i < |path| - 1 ==> path[i + 1] in Deps(edges, path[i]))
    && (path != [] ==> node in Deps(edges, path[|path| - 1]))
  }

  lemma WalkStarts(edges: Edges, remaining: set<Name>, node: Name)
    requires node in remaining
    ensures IsWalk(edges, remaining, [], node)
  {
  }

  lemma Stays(edges: Edges, remaining: set<Name>, path: seq<Name>, node: Name)
    requires IsWalk(edges, remaining, path, node)
    ensures node in remaining
  {
  }

  lemma WalkOn(edges: Edges, remaining: set<Name>, path: seq<Name>, node: Name, next: Name)
    requires IsWalk(edges, remaining, path, node) && node !in NodeSet(path)
    requires next in Deps(edges, node) * remaining
    ensures IsWalk(edges, remaining, path + [node], next) && |path| < |remaining|
  {
    var path' := path + [node];
    NodeSetAppend(path, node);
    DistinctAppend(path, node);
    NodeSetSize(path');
    SubsetSize(NodeSet(path'), remaining);
    hide NodeSet, Deps, Distinct;
  }

  lemma DistinctAppend(s: seq<Name>, x: Name)
    requires Distinct(s) && x !in NodeSet(s)
    ensures Distinct(s + [x])
  {
    assert forall i :: 0 <= i < |s| ==> s[i] in NodeSet(s);
    hide NodeSet;
  }

  /** Where each node of the path stands. */
  ghost function IndexOf(path: seq<Name>): map<Name, nat>
  {
    if path == [] then map[] else IndexOf(path[..|path| - 1])[path[|path| - 1] := |path| - 1]
  }

  lemma {:induction false} IndexOfAt(path: seq<Name>)
    ensures IndexOf(path).Keys == NodeSet(path)
    ensures forall n :: n in IndexOf(path) ==> IndexOf(path)[n] < |path| && path[IndexOf(path)[n]] == n
  {
    if path != [] {
      var front, last := path[..|path| - 1], path[|path| - 1];
      IndexOfAt(front);
      NodeSetAppend(front, last);
      assert path == front + [last];
    }
  }

  /** The walk along least prerequisites. Some prerequisite always remains, so the source's
      escape from a node without any is never taken. */
  method FindCycle(edges: Edges, remaining: set<Name>) returns (cycle: seq<Name>)
    requires remaining != {} && Blocked(edges, remaining)
    ensures IsCycle(edges, cycle)
  {
    NameLeIsTotalOrder();
    hide NameLe, IsCycle, IsWalk, NodeSet;
    var path: seq<Name> := [];
    var seen: map<Name, nat> := map[];
    var node := Least(NameLe, remaining);
    WalkStarts(edges, remaining, node);
    while node !in seen
      invariant IsWalk(edges, remaining, path, node) && seen == IndexOf(path)
      decreases |remaining| - |path|
    {
      IndexOfAt(path);
      Stays(edges, remaining, path, node);
      var prereqs := Deps(edges, node) * remaining;
      var next := Least(NameLe, prereqs);
      WalkOn(edges, remaining, path, node, next);
      seen := seen[node := |path|];
      assert (path + [node])[..|path|] == path;
      path := path + [node];
      node := next;
    }
    IndexOfAt(path);
    CloseWalk(edges, remaining, path, node, seen[node]);
    cycle := path[seen[node]..] + [node];
  }

  lemma CloseWalk(edges: Edges, remaining: set<Name>, path: seq<Name>, node: Name, start: nat)
    requires IsWalk(edges, remaining, path, node) && start < |path| && path[start] == node
    ensures IsCycle(edges, path[start..] + [node])
  {
    var c := path[start..] + [node];
    forall i | 0 <= i < |c| - 1 ensures c[i + 1] in Deps(edges, c[i]) {
      assert c[i] == path[start + i];
      if i < |c| - 2 { assert c[i + 1] == path[start + i + 1]; }
    }
  }

  /** Along a cycle positions in a dependency-first order would have to fall for ever. */
  lemma {:induction false} PositionsFall(nodes: seq<Name>, edges: Edges, order: seq<Name>, c: seq<Name>, k: nat)
    returns (p: nat, q: nat)
    requires WellFormed(nodes, edges) && DependencyFirst(nodes, edges, order) && IsCycle(edges, c) && k < |c| - 1
    ensures p < |order| && q < |order| && order[p] == c[0] && order[q] == c[k + 1] && q < p
  {
    if k == 0 {
      assert c[0] in edges && c[0] in NodeSet(order);
      p :| 0 <= p < |order| && order[p] == c[0];
      assert c[0 + 1] in Deps(edges, c[0]);
      assert c[1] in NodeSet(order[..p]);
      q :| 0 <= q < p && order[..p][q] == c[1];
    } else {
      var mid;
      p, mid := PositionsFall(nodes, edges, order, c, k - 1);
      assert c[k + 1] in Deps(edges, order[mid]);
      assert c[k + 1] in NodeSet(order[..mid]);
      q :| 0 <= q < mid && order[..mid][q] == c[k + 1];
    }
  }

  lemma OrderedIsAcyclic(nodes: seq<Name>, edges: Edges, order: seq<Name>, c: seq<Name>)
    requires WellFormed(nodes, edges) && DependencyFirst(nodes, edges, order)
    ensures !IsCycle(edges, c)
  {
    if IsCycle(edges, c) {
      var p, q := PositionsFall(nodes, edges, order, c, |c| - 2);
      assert false;
    }
  }

  /** Taking the least available node every time beats every other dependency-first order. */
  lemma GreedyIsFirst(nodes: seq<Name>, edges: Edges, order: seq<Name>, other: seq<Name>)
    requires Greedy(nodes, edges, order) && DependencyFirst(nodes, edges, other)
    ensures LexFirst(order, other)
  {
    forall i | 0 <= i < |order| && i < |other| && order[..i] == other[..i] ensures NameLe(order[i], other[i]) {
      assert other[i] in NodeSet(other);
      assert other[i] !in NodeSet(other[..i]);
      assert other[i] in Available(NodeSet(nodes), edges, NodeSet(order[..i]));
      assert IsLeast(NameLe, order[i], Available(NodeSet(nodes), edges, NodeSet(order[..i])));
    }
  }

  lemma KahnFacts(nodes: seq<Name>, edges: Edges, order: seq<Name>, indegree: map<Name, nat>, ready: set<Name>)
    requires KahnState(nodes, edges, order, indegree, ready)
    ensures var all, done := NodeSet(nodes), NodeSet(order);
            && indegree == OpenDegrees(all, edges, done) && ready == Available(all, edges, done)
            && Distinct(order) && done <= all && Closed(edges, done) && Greedy(nodes, edges, order)
  {
  }

  /** The main loop: takes the least ready node until none is ready. */
  method PlaceAll(nodes: seq<Name>, edges: Edges) returns (order: seq<Name>, ghost indegree': map<Name, nat>)
    requires WellFormed(nodes, edges)
    ensures KahnState(nodes, edges, order, indegree', {})
  {
    NameLeIsTotalOrder();
    hide NameLe, OpenDegrees, Available, DependentsOf, DegreesOf, Deps, NodeSet, WellFormed, KahnState;
    var all := NodeSet(nodes);
    var dependents, indegree := CountDegrees(nodes, edges);
    KahnStart(nodes, edges);
    DegreesAtStart(all, edges);
    var ready := set n | n in all && indegree[n] == 0;
    ReadyAtStart(all, edges);
    order := [];
    while ready != {}
      invariant KahnState(nodes, edges, order, indegree, ready)
      decreases |nodes| - |order|
    {
      RoomLeft(nodes, edges, order, indegree, ready);
      KahnFacts(nodes, edges, order, indegree, ready);
      var name := Least(NameLe, ready);
      Waiting(all, edges, name, NodeSet(order));
      indegree, ready := Settle(all, edges, NodeSet(order), name, dependents[name], indegree, ready - {name});
      KahnStep(nodes, edges, order, name, indegree, ready);
      order := order + [name];
    }
    indegree' := indegree;
  }

  lemma Waiting(all: set<Name>, edges: Edges, name: Name, done: set<Name>)
    requires name in Available(all, edges, done)
    ensures name in DependentsOf(all, edges, all)
    ensures DependentsOf(all, edges, all)[name] == set n | n in all && name in Deps(edges, n)
  {
  }

  /** `topological_order`: the lexicographically least dependency-first order when the graph
      has no cycle, and a cycle of the graph otherwise. */
  method TopologicalOrder(nodes: seq<Name>, edges: Edges) returns (r: OrderResult)
    requires WellFormed(nodes, edges)
    ensures r.Ordered? ==> DependencyFirst(nodes, edges, r.order)
    ensures r.Ordered? ==> forall other :: DependencyFirst(nodes, edges, other) ==> LexFirst(r.order, other)
    ensures r.Cycle? ==> IsCycle(edges, r.cycle)
    ensures r.Ordered? <==> !exists c :: IsCycle(edges, c)
  {
    ghost var indegree;
    var order;
    order, indegree := PlaceAll(nodes, edges);
    if |order| != |nodes| {
      AllBlocked(nodes, edges, order, indegree);
      var cycle := FindCycle(edges, NodeSet(nodes) - NodeSet(order));
      return Cycle(cycle);
    }
    AllPlaced(nodes, edges, order, indegree);
    hide DependencyFirst, LexFirst, IsCycle;
    forall other | DependencyFirst(nodes, edges, other) ensures LexFirst(order, other) {
      GreedyIsFirst(nodes, edges, order, other);
    }
    forall c ensures !IsCycle(edges, c) {
      OrderedIsAcyclic(nodes, edges, order, c);
    }
    return Ordered(order);
  }
}
