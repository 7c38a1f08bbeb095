/**
 Directed multigraphs over node indices: paths, reachability, cycles and longest paths.
 Edges are a sequence, so parallel edges are kept and counted.
 */
module Digraph {

  type Edge = (nat, nat)

  ghost predicate IsPath(edges: seq<Edge>, p: seq<nat>) {
    && p != []
    && forall i :: 0 <= i < |p| - 1 ==> (p[i], p[i + 1]) in edges
  }

  ghost predicate PathFromTo(edges: seq<Edge>, p: seq<nat>, a: nat, b: nat) {
    IsPath(edges, p) && p[0] == a && p[|p| - 1] == b
  }

  /** Reachability along zero or more edges. */
  ghost predicate Reaches(edges: seq<Edge>, a: nat, b: nat) {
    exists p :: PathFromTo(edges, p, a, b)
  }

  /** No path of one or more edges returns to where it started. */
  ghost predicate Acyclic(edges: seq<Edge>) {
    forall p :: IsPath(edges, p) && |p| > 1 ==> p[0] != p[|p| - 1]
  }

  lemma ReachesSelf(edges: seq<Edge>, a: nat)
    ensures Reaches(edges, a, a)
  {
    assert PathFromTo(edges, [a], a, a);
  }

  lemma ReachesEdge(edges: seq<Edge>, a: nat, b: nat)
    requires (a, b) in edges
    ensures Reaches(edges, a, b)
  {
    assert PathFromTo(edges, [a, b], a, b);
  }

  lemma ReachesTransitive(edges: seq<Edge>, a: nat, b: nat, c: nat)
    requires Reaches(edges, a, b) && Reaches(edges, b, c)
    ensures Reaches(edges, a, c)
  {
    var p :| PathFromTo(edges, p, a, b);
    var q :| PathFromTo(edges, q, b, c);
    assert PathFromTo(edges, p + q[1..], a, c);
  }

  lemma SelfReachingEdgeIsCycle(edges: seq<Edge>, a: nat, b: nat)
    requires (a, b) in edges && Reaches(edges, b, a)
    ensures !Acyclic(edges)
  {
    var p :| PathFromTo(edges, p, b, a);
    assert IsPath(edges, [a] + p);
  }

  /** A path of the extended graph either avoids the new edge or splits around it. */
  lemma {:induction false} PathAroundNewEdge(edges: seq<Edge>, a: nat, b: nat, p: seq<nat>)
    requires IsPath(edges + [(a, b)], p)
    ensures
      || Reaches(edges, p[0], p[|p| - 1])
      || (Reaches(edges, p[0], a) && Reaches(edges, b, p[|p| - 1]))
  {
    if |p| == 1 {
      ReachesSelf(edges, p[0]);
    } else {
      var rest := p[1..];
      PathAroundNewEdge(edges, a, b, rest);
      assert (p[0], p[1]) in edges + [(a, b)];
      if (p[0], p[1]) in edges {
        ReachesEdge(edges, p[0], p[1]);
        if Reaches(edges, rest[0], rest[|rest| - 1]) {
          ReachesTransitive(edges, p[0], p[1], p[|p| - 1]);
        } else {
          ReachesTransitive(edges, p[0], p[1], a);
        }
      } else {
        ReachesSelf(edges, a);
      }
    }
  }

  /** Adding an edge to an acyclic graph closes a cycle exactly when its target already reaches its source. */
  lemma NewEdgeClosesCycleIff(edges: seq<Edge>, a: nat, b: nat)
    requires Acyclic(edges)
    ensures Acyclic(edges + [(a, b)]) <==> !Reaches(edges, b, a)
  {
    var extended := edges + [(a, b)];
    if Reaches(edges, b, a) {
      var p :| PathFromTo(edges, p, b, a);
      assert PathFromTo(extended, p, b, a);
      SelfReachingEdgeIsCycle(extended, a, b);
    } else {
      forall p | IsPath(extended, p) && |p| > 1
        ensures p[0] != p[|p| - 1]
      {
        if p[0] == p[|p| - 1] {
          var x, y := p[0], p[1];
          assert (x, y) in extended;
          PathAroundNewEdge(edges, a, b, p[1..]);
          if (x, y) in edges {
            if Reaches(edges, y, x) {
              SelfReachingEdgeIsCycle(edges, x, y);
            } else {
              ReachesEdge(edges, x, y);
              ReachesTransitive(edges, b, x, y);
              ReachesTransitive(edges, b, y, a);
            }
          }
          assert false;
        }
      }
    }
  }

  /** A node without incoming edges is reached only from itself. */
  lemma ReachingASourceIff(edges: seq<Edge>, a: nat, b: nat)
    requires forall e :: e in edges ==> e.1 != b
    ensures Reaches(edges, a, b) <==> a == b
  {
    ReachesSelf(edges, a);
    if Reaches(edges, a, b) {
      var p :| PathFromTo(edges, p, a, b);
      LastEdgeOf(edges, p);
    }
  }

  /** A node without outgoing edges reaches only itself. */
  lemma ReachedFromASinkIff(edges: seq<Edge>, a: nat, b: nat)
    requires forall e :: e in edges ==> e.0 != a
    ensures Reaches(edges, a, b) <==> a == b
  {
    ReachesSelf(edges, a);
    if Reaches(edges, a, b) {
      var p :| PathFromTo(edges, p, a, b);
      FirstEdgeOf(edges, p);
    }
  }

  lemma FirstEdgeOf(edges: seq<Edge>, p: seq<nat>)
    requires IsPath(edges, p)
    ensures |p| == 1 || exists e :: e in edges && e.0 == p[0]
  {
    if |p| > 1 {
      assert (p[0], p[0 + 1]) in edges;
    }
  }

  lemma LastEdgeOf(edges: seq<Edge>, p: seq<nat>)
    requires IsPath(edges, p)
    ensures |p| == 1 || exists e :: e in edges && e.1 == p[|p| - 1]
  {
    if |p| > 1 {
      var i := |p| - 2;
      assert (p[i], p[i + 1]) in edges;
    }
  }

  lemma {:induction false} Pigeonhole(s: seq<nat>, holes: set<nat>)
    requires forall i :: 0 <= i < |s| ==> s[i] in holes
    requires |s| > |holes|
    ensures exists i, j :: 0 <= i < j < |s| && s[i] == s[j]
  {
    if s == [] {
    } else {
      var last := |s| - 1;
      var front := s[..last];
      if j :| 0 <= j < last && s[j] == s[last] {
      } else {
        assert s[last] in holes;
        Pigeonhole(front, holes - {s[last]});
        var i, j :| 0 <= i < j < |front| && front[i] == front[j];
        assert s[i] == s[j];
      }
    }
  }

  ghost predicate HasPredecessorIn(edges: seq<Edge>, nodes: set<nat>, v: nat) {
    exists u :: u in nodes && (u, v) in edges
  }

  ghost predicate PredecessorClosed(edges: seq<Edge>, nodes: set<nat>) {
    forall v {:trigger HasPredecessorIn(edges, nodes, v)} :: v in nodes ==> HasPredecessorIn(edges, nodes, v)
  }

  lemma {:induction false} BackwardPath(edges: seq<Edge>, nodes: set<nat>, length: nat) returns (p: seq<nat>)
    requires nodes != {} && PredecessorClosed(edges, nodes)
    requires length > 0
    ensures |p| == length && IsPath(edges, p)
    ensures forall i :: 0 <= i < |p| ==> p[i] in nodes
  {
    if length == 1 {
      var v :| v in nodes;
      p := [v];
    } else {
      var q := BackwardPath(edges, nodes, length - 1);
      assert HasPredecessorIn(edges, nodes, q[0]);
      var u :| u in nodes && (u, q[0]) in edges;
      p := [u] + q;
    }
  }

  /** An acyclic graph has a source inside every non-empty set of nodes. */
  lemma PredecessorClosedSetHasCycle(edges: seq<Edge>, nodes: set<nat>)
    requires nodes != {} && PredecessorClosed(edges, nodes)
    ensures !Acyclic(edges)
  {
    var p := BackwardPath(edges, nodes, |nodes| + 1);
    Pigeonhole(p, nodes);
    var i, j :| 0 <= i < j < |p| && p[i] == p[j];
    assert IsPath(edges, p[i..j + 1]);
  }

  /** The longest path ending in `v` has `k` edges. */
  ghost predicate LongestPathTo(edges: seq<Edge>, v: nat, k: nat) {
    && (exists p :: IsPath(edges, p) && p[|p| - 1] == v && |p| == k + 1)
    && (forall p :: IsPath(edges, p) && p[|p| - 1] == v ==> |p| <= k + 1)
  }

  /** A level assignment in which every edge climbs. */
  ghost predicate Climbing(edges: seq<Edge>, level: map<nat, nat>) {
    forall e :: e in edges ==> e.0 in level && e.1 in level && level[e.0] < level[e.1]
  }

  ghost predicate HasPredecessorAt(edges: seq<Edge>, level: map<nat, nat>, v: nat, l: nat) {
    exists u :: (u, v) in edges && u in level && level[u] == l
  }

  /** Every level above zero rests on a predecessor exactly one level below. */
  ghost predicate Tight(edges: seq<Edge>, level: map<nat, nat>) {
    forall v: nat, l: nat {:trigger HasPredecessorAt(edges, level, v, l)} ::
      v in level && level[v] == l + 1 ==> HasPredecessorAt(edges, level, v, l)
  }

  lemma {:induction false} PathClimbs(edges: seq<Edge>, level: map<nat, nat>, p: seq<nat>)
    requires Climbing(edges, level) && IsPath(edges, p) && p[|p| - 1] in level
    ensures p[0] in level && level[p[0]] + |p| - 1 <= level[p[|p| - 1]]
  {
    if |p| > 1 {
      PathClimbs(edges, level, p[1..]);
      assert (p[0], p[1]) in edges;
    }
  }

  lemma {:induction false} TightPath(edges: seq<Edge>, level: map<nat, nat>, v: nat) returns (p: seq<nat>)
    requires Tight(edges, level) && v in level
    ensures IsPath(edges, p) && p[|p| - 1] == v && |p| == level[v] + 1
    decreases level[v]
  {
    if level[v] == 0 {
      p := [v];
    } else {
      assert HasPredecessorAt(edges, level, v, level[v] - 1);
      var u :| (u, v) in edges && u in level && level[u] == level[v] - 1;
      var q := TightPath(edges, level, u);
      p := q + [v];
    }
  }

  /** A climbing and tight assignment is the longest-path level. */
  lemma ClimbingTightIsLongestPath(edges: seq<Edge>, level: map<nat, nat>, v: nat)
    requires Climbing(edges, level) && Tight(edges, level) && v in level
    ensures LongestPathTo(edges, v, level[v])
  {
    var p := TightPath(edges, level, v);
    forall q | IsPath(edges, q) && q[|q| - 1] == v
      ensures |q| <= level[v] + 1
    {
      PathClimbs(edges, level, q);
    }
  }

  lemma LongestPathUnique(edges: seq<Edge>, v: nat, j: nat, k: nat)
    requires LongestPathTo(edges, v, j) && LongestPathTo(edges, v, k)
    ensures j == k
  {
    var p :| IsPath(edges, p) && p[|p| - 1] == v && |p| == j + 1;
    var q :| IsPath(edges, q) && q[|q| - 1] == v && |q| == k + 1;
  }
}
