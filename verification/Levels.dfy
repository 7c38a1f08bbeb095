/**
 The traversals behind the dependency graph, on node indices: the depth-first reachability test and
 the level-by-level topological sort with incoming-edge counters.
 */
module Levels {
  import opened Digraph
  import opened Sequences

  ghost predicate InRange(edges: seq<Edge>, n: nat) {
    forall e :: e in edges ==> e.0 < n && e.1 < n
  }

  function Nodes(n: nat): (nodes: set<nat>)
    ensures forall v: nat :: v in nodes <==> v < n
  {
    if n == 0 then {} else Nodes(n - 1) + {n - 1}
  }

  /** Targets of the outgoing edges of `u`, one entry per parallel edge. */
  function Successors(edges: seq<Edge>, u: nat): (r: seq<nat>)
    ensures forall v: nat :: v in r <==> (u, v) in edges
  {
    if edges == [] then []
    else (if edges[0].0 == u then [edges[0].1] else []) + Successors(edges[1..], u)
  }

  /** The number of edges into `v`, parallel edges included. */
  function InDegree(edges: seq<Edge>, v: nat): nat {
    if edges == [] then 0
    else (if edges[0].1 == v then 1 else 0) + InDegree(edges[1..], v)
  }

  /** The number of edges into `v` that leave a node of `sources`. */
  ghost function InDegreeFrom(edges: seq<Edge>, v: nat, sources: set<nat>): nat {
    if edges == [] then 0
    else (if edges[0].1 == v && edges[0].0 in sources then 1 else 0) + InDegreeFrom(edges[1..], v, sources)
  }

  lemma {:induction false} InDegreeFromAll(edges: seq<Edge>, v: nat, sources: set<nat>)
    requires forall e :: e in edges ==> e.0 in sources
    ensures InDegreeFrom(edges, v, sources) == InDegree(edges, v)
  {
    if edges != [] {
      assert edges[0] in edges;
      InDegreeFromAll(edges[1..], v, sources);
    }
  }

  lemma {:induction false} InDegreeFromPositiveIff(edges: seq<Edge>, v: nat, sources: set<nat>)
    ensures InDegreeFrom(edges, v, sources) > 0 <==> HasPredecessorIn(edges, sources, v)
  {
    if edges != [] {
      InDegreeFromPositiveIff(edges[1..], v, sources);
      if edges[0].1 == v && edges[0].0 in sources {
        assert (edges[0].0, v) in edges;
      } else if HasPredecessorIn(edges, sources, v) {
        var u :| u in sources && (u, v) in edges;
        assert (u, v) in edges[1..];
      }
    }
  }

  /** Removing one source lowers a counter by exactly the number of parallel edges it sent there. */
  lemma {:induction false} InDegreeFromRemove(edges: seq<Edge>, v: nat, sources: set<nat>, u: nat)
    requires u !in sources
    ensures InDegreeFrom(edges, v, sources + {u}) == InDegreeFrom(edges, v, sources) + multiset(Successors(edges, u))[v]
  {
    if edges != [] {
      InDegreeFromRemove(edges[1..], v, sources, u);
      var head := if edges[0].0 == u then [edges[0].1] else [];
      assert multiset(Successors(edges, u)) == multiset(head) + multiset(Successors(edges[1..], u));
    }
  }

  /** All stacked nodes are reachable, and edges out of discovered nodes lead to discovered or stacked ones. */
  ghost predicate SearchState(edges: seq<Edge>, n: nat, start: nat, discovered: set<nat>, stack: seq<nat>) {
    && discovered <= Nodes(n)
    && (forall v: nat :: v in stack ==> v < n && Reaches(edges, start, v))
    && (forall e :: e in edges && e.0 in discovered ==> e.1 in discovered || e.1 in stack)
    && (start in discovered || start in stack)
  }

  lemma DiscoverNode(edges: seq<Edge>, n: nat, start: nat, discovered: set<nat>, stack: seq<nat>, pushed: seq<nat>)
    requires InRange(edges, n) && stack != [] && SearchState(edges, n, start, discovered, stack)
    requires var node := stack[|stack| - 1];
             forall v: nat :: v in pushed <==>
               v in stack[..|stack| - 1] || (v in Successors(edges, node) && v !in discovered + {node})
    ensures SearchState(edges, n, start, discovered + {stack[|stack| - 1]}, pushed)
  {
    var node := stack[|stack| - 1];
    assert node in stack;
    assert forall v: nat :: v in stack <==> v in stack[..|stack| - 1] || v == node;
    forall v: nat | v in pushed
      ensures v < n && Reaches(edges, start, v)
    {
      if v in stack[..|stack| - 1] {
        assert v in stack;
      } else {
        assert (node, v) in edges;
        ReachesEdge(edges, node, v);
        ReachesTransitive(edges, start, node, v);
      }
    }
    forall e | e in edges && e.0 in discovered + {node}
      ensures e.1 in discovered + {node} || e.1 in pushed
    {
      assert (e.0, e.1) == e;
    }
  }

  lemma SkipDiscovered(edges: seq<Edge>, n: nat, start: nat, discovered: set<nat>, stack: seq<nat>)
    requires stack != [] && SearchState(edges, n, start, discovered, stack)
    requires stack[|stack| - 1] in discovered
    ensures SearchState(edges, n, start, discovered, stack[..|stack| - 1])
  {
    var popped := stack[..|stack| - 1];
    assert stack == popped + [stack[|stack| - 1]];
    forall v: nat | v in popped
      ensures v < n && Reaches(edges, start, v)
    {
      assert v in stack;
    }
  }

  /** Depth-first search with an explicit stack: true exactly when `goal` is reachable from `start`. */
  method HasPathConnecting(edges: seq<Edge>, n: nat, start: nat, goal: nat) returns (found: bool)
    requires InRange(edges, n) && start < n
    ensures found <==> Reaches(edges, start, goal)
  {
    var stack: seq<nat> := [start];
    var discovered: set<nat> := {};
    ReachesSelf(edges, start);
    while stack != []
      invariant SearchState(edges, n, start, discovered, stack)
      invariant goal !in discovered
      decreases Nodes(n) - discovered, |stack|
    {
      var node := stack[|stack| - 1];
      assert node in stack;
      if node !in discovered {
        if node == goal {
          return true;
        }
        var next := Successors(edges, node);
        var pushed := PushUndiscovered(stack[..|stack| - 1], next, discovered + {node});
        DiscoverNode(edges, n, start, discovered, stack, pushed);
        stack, discovered := pushed, discovered + {node};
      } else {
        SkipDiscovered(edges, n, start, discovered, stack);
        stack := stack[..|stack| - 1];
      }
    }
    if Reaches(edges, start, goal) {
      var p :| PathFromTo(edges, p, start, goal);
      ClosedSetHoldsPath(edges, discovered, p);
    }
    return false;
  }

  method PushUndiscovered(stack: seq<nat>, next: seq<nat>, discovered: set<nat>) returns (pushed: seq<nat>)
    ensures forall v: nat :: v in pushed <==> v in stack || (v in next && v !in discovered)
  {
    pushed := stack;
    for i := 0 to |next|
      invariant forall v: nat :: v in pushed <==> v in stack || (v in next[..i] && v !in discovered)
    {
      assert next[..i + 1] == next[..i] + [next[i]];
      if next[i] !in discovered {
        pushed := pushed + [next[i]];
      }
    }
    assert next[..|next|] == next;
  }

  lemma {:induction false} ClosedSetHoldsPath(edges: seq<Edge>, nodes: set<nat>, p: seq<nat>)
    requires forall e :: e in edges && e.0 in nodes ==> e.1 in nodes
    requires IsPath(edges, p) && p[0] in nodes
    ensures p[|p| - 1] in nodes
  {
    if |p| > 1 {
      assert (p[0], p[1]) in edges;
      ClosedSetHoldsPath(edges, nodes, p[1..]);
    }
  }

  /** `levels` lists exactly the nodes of each level of `level`, each once, and no level is empty. */
  ghost predicate Lists(levels: seq<seq<nat>>, level: map<nat, nat>) {
    && (forall l :: 0 <= l < |levels| ==> ListsLevel(levels[l], level, l))
    && (forall v: nat :: v in level ==> level[v] < |levels|)
  }

  ghost predicate ListsLevel(nodes: seq<nat>, level: map<nat, nat>, l: nat) {
    && nodes != []
    && NoDuplicates(nodes)
    && (forall v: nat :: v in nodes <==> v in level && level[v] == l)
  }

  ghost predicate CountersMatch(edges: seq<Edge>, n: nat, incoming: seq<nat>, remaining: set<nat>) {
    |incoming| == n && forall v: nat :: v < n ==> incoming[v] == InDegreeFrom(edges, v, remaining)
  }

  /** Every edge into a placed node leaves a placed node of a lower level. */
  ghost predicate ClimbsInto(edges: seq<Edge>, level: map<nat, nat>) {
    forall e :: e in edges && e.1 in level ==> e.0 in level && level[e.0] < level[e.1]
  }

  /** The counters are right up to one decrement for each entry of `owed`. */
  ghost predicate OwesDecrements(edges: seq<Edge>, n: nat, counters: seq<nat>, remaining: set<nat>, owed: seq<nat>) {
    |counters| == n && forall v: nat :: v < n ==> counters[v] == InDegreeFrom(edges, v, remaining) + multiset(owed)[v]
  }

  lemma TakeDecrement(edges: seq<Edge>, n: nat, counters: seq<nat>, remaining: set<nat>, owed: seq<nat>, j: nat)
    requires j < |owed| && owed[j] < n && OwesDecrements(edges, n, counters, remaining, owed[j..])
    ensures counters[owed[j]] > 0
    ensures OwesDecrements(edges, n, counters[owed[j] := counters[owed[j]] - 1], remaining, owed[j + 1..])
  {
    assert owed[j..] == [owed[j]] + owed[j + 1..];
    assert multiset(owed[j..]) == multiset{owed[j]} + multiset(owed[j + 1..]);
  }

  /** `freed` lists, once each, the nodes whose counter dropped to zero. */
  ghost predicate FreedSoFar(n: nat, incoming: seq<nat>, counters: seq<nat>, freed: seq<nat>) {
    && |incoming| == |counters| == n
    && NoDuplicates(freed)
    && (forall v: nat :: v in freed <==> v < n && incoming[v] > 0 && counters[v] == 0)
    && (forall v: nat :: v < n ==> counters[v] <= incoming[v])
  }

  lemma FreeOne(n: nat, incoming: seq<nat>, counters: seq<nat>, freed: seq<nat>, v: nat)
    requires FreedSoFar(n, incoming, counters, freed) && v < n && counters[v] > 0
    ensures var lower := counters[v := counters[v] - 1];
            FreedSoFar(n, incoming, lower, if lower[v] == 0 then freed + [v] else freed)
  {
    AppendNoDuplicatesIfNew(freed, v);
  }

  /**
   Takes `node` out of the remaining nodes: one decrement per outgoing edge, never below zero, and every
   counter that drops to zero schedules its node.
   */
  method ReleaseSuccessors(edges: seq<Edge>, n: nat, node: nat, ghost remaining: set<nat>, incoming: seq<nat>)
    returns (counters: seq<nat>, freed: seq<nat>)
    requires InRange(edges, n) && node < n && node !in remaining
    requires CountersMatch(edges, n, incoming, remaining + {node})
    ensures CountersMatch(edges, n, counters, remaining)
    ensures NoDuplicates(freed)
    ensures forall v: nat :: v in freed <==> v < n && incoming[v] > 0 && counters[v] == 0
  {
    counters, freed := incoming, [];
    var successors := Successors(edges, node);
    OwesAll(edges, n, node, remaining, incoming);
    assert successors[0..] == successors;
    for j := 0 to |successors|
      invariant OwesDecrements(edges, n, counters, remaining, successors[j..])
      invariant FreedSoFar(n, incoming, counters, freed)
    {
      var neighbor := successors[j];
      assert neighbor in successors;
      assert (node, neighbor) in edges;
      TakeDecrement(edges, n, counters, remaining, successors, j);
      FreeOne(n, incoming, counters, freed, neighbor);
      counters := counters[neighbor := counters[neighbor] - 1];
      if counters[neighbor] == 0 {
        freed := freed + [neighbor];
      }
    }
    assert successors[|successors|..] == [];
  }

  lemma OwesAll(edges: seq<Edge>, n: nat, node: nat, remaining: set<nat>, incoming: seq<nat>)
    requires node !in remaining && CountersMatch(edges, n, incoming, remaining + {node})
    ensures OwesDecrements(edges, n, incoming, remaining, Successors(edges, node))
  {
    forall v: nat | v < n
      ensures incoming[v] == InDegreeFrom(edges, v, remaining) + multiset(Successors(edges, node))[v]
    {
      InDegreeFromRemove(edges, v, remaining, node);
    }
  }

  /** Releases every node of one level; the nodes freed on the way form the next level. */
  method ReleaseLevel(edges: seq<Edge>, n: nat, current: seq<nat>, remaining: set<nat>, incoming: seq<nat>)
    returns (left: set<nat>, counters: seq<nat>, next: seq<nat>)
    requires InRange(edges, n)
    requires NoDuplicates(current) && forall v: nat :: v in current ==> v < n && v in remaining
    requires CountersMatch(edges, n, incoming, remaining)
    ensures left == remaining - (set v | v in current)
    ensures CountersMatch(edges, n, counters, left)
    ensures NoDuplicates(next)
    ensures forall v: nat :: v in next <==> v < n && incoming[v] > 0 && counters[v] == 0
  {
    left, counters, next := remaining, incoming, [];
    for i := 0 to |current|
      invariant left == remaining - (set v | v in current[..i])
      invariant CountersMatch(edges, n, counters, left)
      invariant forall v: nat :: v < n ==> counters[v] <= incoming[v]
      invariant NoDuplicates(next)
      invariant forall v: nat :: v in next <==> v < n && incoming[v] > 0 && counters[v] == 0
    {
      var node := current[i];
      assert node in current;
      assert current[..i + 1] == current[..i] + [node];
      left := left - {node};
      assert left + {node} == remaining - (set v | v in current[..i]);
      var freed;
      ghost var previous := counters;
      counters, freed := ReleaseSuccessors(edges, n, node, left, counters);
      forall v | 0 <= v < n
        ensures counters[v] <= previous[v]
      {
        InDegreeFromRemove(edges, v, left, node);
      }
      AppendNoDuplicates(next, freed);
      next := next + freed;
    }
    assert current[..|current|] == current;
  }

  /** Incoming-edge counters of all nodes and the nodes whose counter is zero. */
  method CountIncoming(edges: seq<Edge>, n: nat) returns (incoming: seq<nat>, roots: seq<nat>)
    requires InRange(edges, n)
    ensures CountersMatch(edges, n, incoming, Nodes(n))
    ensures NoDuplicates(roots)
    ensures forall v: nat :: v in roots <==> v < n && incoming[v] == 0
  {
    incoming, roots := [], [];
    for v := 0 to n
      invariant |incoming| == v
      invariant forall u :: 0 <= u < v ==> incoming[u] == InDegree(edges, u)
      invariant NoDuplicates(roots)
      invariant forall u: nat :: u in roots <==> u < v && incoming[u] == 0
    {
      incoming := incoming + [InDegree(edges, v)];
      if incoming[v] == 0 {
        AppendNoDuplicates(roots, [v]);
        roots := roots + [v];
      }
    }
    ghost var all := Nodes(n);
    forall v | 0 <= v < n
      ensures incoming[v] == InDegreeFrom(edges, v, all)
    {
      InDegreeFromAll(edges, v, all);
    }
  }

  ghost function Place(level: map<nat, nat>, nodes: seq<nat>, l: nat): map<nat, nat> {
    level + map v | v in nodes :: l
  }

  /** Placing a level of nodes with zero counters keeps the assignment climbing and tight. */
  lemma PlaceLevel(edges: seq<Edge>, n: nat, level: map<nat, nat>, remaining: set<nat>, incoming: seq<nat>,
                   current: seq<nat>, l: nat)
    requires InRange(edges, n) && CountersMatch(edges, n, incoming, remaining)
    requires level.Keys == Nodes(n) - remaining
    requires forall v: nat :: v in level ==> level[v] < l
    requires forall v: nat :: v in current ==> v < n && v in remaining && incoming[v] == 0
    requires ClimbsInto(edges, level) && Tight(edges, level)
    requires l > 0 ==> forall v: nat :: v in current ==> HasPredecessorAt(edges, level, v, l - 1)
    ensures var placed := Place(level, current, l);
            ClimbsInto(edges, placed) && Tight(edges, placed)
  {
    var placed := Place(level, current, l);
    forall e | e in edges && e.1 in placed
      ensures e.0 in placed && placed[e.0] < placed[e.1]
    {
      if e.1 in current {
        InDegreeFromPositiveIff(edges, e.1, remaining);
        assert (e.0, e.1) in edges;
        assert e.0 !in remaining;
        assert e.0 in level;
      }
    }
    forall v: nat, k: nat | v in placed && placed[v] == k + 1
      ensures HasPredecessorAt(edges, placed, v, k)
    {
      assert HasPredecessorAt(edges, level, v, k);
      var u :| (u, v) in edges && u in level && level[u] == k;
      assert u !in current;
    }
  }

  /** A node freed by releasing `current` has a predecessor there. */
  lemma FreedNodeHasPredecessor(edges: seq<Edge>, v: nat, remaining: set<nat>, current: seq<nat>)
    requires InDegreeFrom(edges, v, remaining) > 0
    requires InDegreeFrom(edges, v, remaining - set u | u in current) == 0
    ensures exists u :: (u, v) in edges && u in current
  {
    InDegreeFromPositiveIff(edges, v, remaining);
    InDegreeFromPositiveIff(edges, v, remaining - set u | u in current);
    var u :| u in remaining && (u, v) in edges;
    assert u in current;
  }

  lemma PlacedNodeHasZeroCounter(edges: seq<Edge>, v: nat, level: map<nat, nat>, remaining: set<nat>)
    requires ClimbsInto(edges, level) && v in level && level.Keys !! remaining
    ensures InDegreeFrom(edges, v, remaining) == 0
  {
    InDegreeFromPositiveIff(edges, v, remaining);
  }

  lemma NoRootLeft(edges: seq<Edge>, n: nat, remaining: set<nat>, incoming: seq<nat>)
    requires Acyclic(edges) && CountersMatch(edges, n, incoming, remaining)
    requires forall v: nat :: v in remaining ==> v < n && incoming[v] > 0
    ensures remaining == {}
  {
    if remaining != {} {
      forall v | v in remaining
        ensures HasPredecessorIn(edges, remaining, v)
      {
        InDegreeFromPositiveIff(edges, v, remaining);
      }
      PredecessorClosedSetHasCycle(edges, remaining);
    }
  }

  lemma ExtendLists(levels: seq<seq<nat>>, level: map<nat, nat>, current: seq<nat>)
    requires Lists(levels, level) && current != [] && NoDuplicates(current)
    requires forall v: nat :: v in current ==> v !in level
    ensures Lists(levels + [current], Place(level, current, |levels|))
  {
    var placed := Place(level, current, |levels|);
    forall l | 0 <= l < |levels| + 1
      ensures ListsLevel((levels + [current])[l], placed, l)
    {
      if l < |levels| {
        assert ListsLevel(levels[l], level, l);
      }
    }
  }

  /** The state at the head of the level loop: `current` holds the remaining nodes with a zero counter. */
  ghost predicate SortState(edges: seq<Edge>, n: nat, levels: seq<seq<nat>>, level: map<nat, nat>,
                            remaining: set<nat>, incoming: seq<nat>, current: seq<nat>)
  {
    && remaining <= Nodes(n)
    && level.Keys == Nodes(n) - remaining
    && CountersMatch(edges, n, incoming, remaining)
    && NoDuplicates(current)
    && (forall v: nat :: v in current <==> v in remaining && incoming[v] == 0)
    && Lists(levels, level)
    && ClimbsInto(edges, level) && Tight(edges, level)
    && (|levels| > 0 ==> forall v: nat :: v in current ==> HasPredecessorAt(edges, level, v, |levels| - 1))
  }

  lemma FreedNodesFormLevel(edges: seq<Edge>, n: nat, level: map<nat, nat>, remaining: set<nat>, incoming: seq<nat>,
                            current: seq<nat>, left: set<nat>, counters: seq<nat>, next: seq<nat>, l: nat)
    requires level.Keys == Nodes(n) - remaining && ClimbsInto(edges, level)
    requires CountersMatch(edges, n, incoming, remaining)
    requires forall v: nat :: v in current <==> v in remaining && v < n && incoming[v] == 0
    requires left == remaining - (set v | v in current)
    requires CountersMatch(edges, n, counters, left)
    requires forall v: nat :: v in next <==> v < n && incoming[v] > 0 && counters[v] == 0
    ensures forall v: nat :: v in next <==> v in left && v < n && counters[v] == 0
    ensures forall v: nat :: v in next ==> HasPredecessorAt(edges, Place(level, current, l), v, l)
  {
    var placed := Place(level, current, l);
    forall v: nat | v in next
      ensures v in left && HasPredecessorAt(edges, placed, v, l)
    {
      if v in level {
        PlacedNodeHasZeroCounter(edges, v, level, remaining);
      }
      FreedNodeHasPredecessor(edges, v, remaining, current);
      var u :| (u, v) in edges && u in current;
      assert u in placed && placed[u] == l;
    }
  }

  lemma NextLevel(edges: seq<Edge>, n: nat, levels: seq<seq<nat>>, level: map<nat, nat>, remaining: set<nat>,
                  incoming: seq<nat>, current: seq<nat>, left: set<nat>, counters: seq<nat>, next: seq<nat>)
    requires InRange(edges, n) && current != []
    requires SortState(edges, n, levels, level, remaining, incoming, current)
    requires left == remaining - (set v | v in current)
    requires CountersMatch(edges, n, counters, left)
    requires NoDuplicates(next)
    requires forall v: nat :: v in next <==> v < n && incoming[v] > 0 && counters[v] == 0
    ensures SortState(edges, n, levels + [current], Place(level, current, |levels|), left, counters, next)
    ensures left < remaining
  {
    var l := |levels|;
    var placed := Place(level, current, l);
    PlaceLevel(edges, n, level, remaining, incoming, current, l);
    ExtendLists(levels, level, current);
    FreedNodesFormLevel(edges, n, level, remaining, incoming, current, left, counters, next, l);
    assert current[0] in current;
    assert current[0] in remaining && current[0] !in left;
    assert placed.Keys == Nodes(n) - left;
  }

  /**
   Level-by-level topological sort. The listed levels are those of `level`, which is total on the nodes,
   climbs along every edge and is tight; both facts together make it the longest-path level.
   */
  method TopologicalLevels(edges: seq<Edge>, n: nat) returns (levels: seq<seq<nat>>, ghost level: map<nat, nat>)
    requires InRange(edges, n) && Acyclic(edges)
    ensures level.Keys == Nodes(n)
    ensures Lists(levels, level)
    ensures Climbing(edges, level) && Tight(edges, level)
    ensures forall l, i :: 0 <= l < |levels| && 0 <= i < |levels[l]| ==> LongestPathTo(edges, levels[l][i], l)
  {
    levels, level := [], map[];
    var remaining := Nodes(n);
    var incoming, current := CountIncoming(edges, n);
    while current != []
      invariant SortState(edges, n, levels, level, remaining, incoming, current)
      decreases remaining
    {
      var left, counters, next := ReleaseLevel(edges, n, current, remaining, incoming);
      NextLevel(edges, n, levels, level, remaining, incoming, current, left, counters, next);
      level := Place(level, current, |levels|);
      levels := levels + [current];
      remaining, incoming, current := left, counters, next;
    }
    NoRootLeft(edges, n, remaining, incoming);
    ListedAtLongestPath(edges, levels, level);
  }

  lemma ListedAtLongestPath(edges: seq<Edge>, levels: seq<seq<nat>>, level: map<nat, nat>)
    requires Lists(levels, level) && Climbing(edges, level) && Tight(edges, level)
    ensures forall l, i :: 0 <= l < |levels| && 0 <= i < |levels[l]| ==> LongestPathTo(edges, levels[l][i], l)
  {
    forall l, i | 0 <= l < |levels| && 0 <= i < |levels[l]|
      ensures LongestPathTo(edges, levels[l][i], l)
    {
      assert ListsLevel(levels[l], level, l) && levels[l][i] in levels[l];
      ClimbingTightIsLongestPath(edges, level, levels[l][i]);
    }
  }
}
