/**
 The keyed dependency graph: nodes carry a key and a value, edges say "must run before", and no
 operation ever leaves a cycle behind.
 */
module AcyclicDigraphMaps {
  import opened Results
  import opened Digraph
  import opened Levels
  import opened Sequences

  datatype GraphError<+K> = NodeNotFound(key: K) | CycleDetected | DuplicateKey(key: K)

  ghost predicate HasKeyFor<K>(index: map<K, nat>, i: nat) {
    exists k :: k in index && index[k] == i
  }

  /** The value of a keyed graph: key to node index, node values by index, and the edges. */
  datatype Graph<K(==), V> = Graph(index: map<K, nat>, values: seq<V>, edges: seq<Edge>) {

    /** The key-to-index map is a bijection onto the node indices. */
    ghost predicate Bijective() {
      && (forall k :: k in index ==> index[k] < |values|)
      && (forall j, k :: j in index && k in index && index[j] == index[k] ==> j == k)
      && (forall i :: 0 <= i < |values| ==> HasKeyFor(index, i))
    }

    ghost predicate WellFormed() {
      Bijective() && InRange(edges, |values|) && Acyclic(edges)
    }

    ghost predicate HasEdge(from: K, to: K) {
      from in index && to in index && (index[from], index[to]) in edges
    }

    /** `to` transitively depends on `from`. */
    ghost predicate DependsOn(to: K, from: K) {
      from in index && to in index && Reaches(edges, index[from], index[to])
    }

    ghost function AddNode(key: K, value: V): (Graph<K, V>, Result<nat, GraphError<K>>) {
      if key in index then (this, Err(DuplicateKey(key)))
      else (Graph(index[key := |values|], values + [value], edges), Ok(|values|))
    }

    ghost function AddDependency(from: K, to: K): (Graph<K, V>, Result<(), GraphError<K>>) {
      if from !in index then (this, Err(NodeNotFound(from)))
      else if to !in index then (this, Err(NodeNotFound(to)))
      else if Reaches(edges, index[to], index[from]) then (this, Err(CycleDetected))
      else (this.(edges := edges + [(index[from], index[to])]), Ok(()))
    }

    /** Adds the dependencies in order and stops at the first one that is refused. */
    ghost function AddDependencies(key: K, dependencies: seq<K>): (Graph<K, V>, Result<(), GraphError<K>>)
      decreases dependencies
    {
      if dependencies == [] then (this, Ok(()))
      else
        var (g, r) := AddDependency(dependencies[0], key);
        if r.Err? then (g, r) else g.AddDependencies(key, dependencies[1..])
    }

    ghost function AddNodeWithDependencies(key: K, value: V, dependencies: seq<K>)
      : (Graph<K, V>, Result<nat, GraphError<K>>)
    {
      var (g, r) := AddNode(key, value);
      if r.Err? then (g, r)
      else
        var (h, s) := g.AddDependencies(key, dependencies);
        (h, if s.Err? then Err(s.error) else r)
    }

    ghost function SetValue(key: K, value: V): Graph<K, V> {
      if key in index && index[key] < |values| then this.(values := values[index[key] := value]) else this
    }
  }

  // ----- Every operation keeps the graph well formed -----

  lemma AddNodeWellFormed<K, V>(g: Graph<K, V>, key: K, value: V)
    requires g.WellFormed()
    ensures g.AddNode(key, value).0.WellFormed()
  {
    var h := g.AddNode(key, value).0;
    if key !in g.index {
      forall i | 0 <= i < |h.values|
        ensures HasKeyFor(h.index, i)
      {
        if i < |g.values| {
          assert HasKeyFor(g.index, i);
          var k :| k in g.index && g.index[k] == i;
          assert k in h.index && h.index[k] == i;
        } else {
          assert key in h.index && h.index[key] == i;
        }
      }
    }
  }

  /** Between existing keys an edge is refused exactly when it would close a cycle, self-loops included. */
  lemma DependencyRefusedIff<K, V>(g: Graph<K, V>, from: K, to: K)
    requires g.WellFormed() && from in g.index && to in g.index
    ensures g.AddDependency(from, to).1 == Err(CycleDetected) <==>
            !Acyclic(g.edges + [(g.index[from], g.index[to])])
    ensures from == to ==> g.AddDependency(from, to).1.Err?
    ensures g.AddDependency(from, to).0.WellFormed()
  {
    NewEdgeClosesCycleIff(g.edges, g.index[from], g.index[to]);
    ReachesSelf(g.edges, g.index[from]);
  }

  lemma AddDependencyWellFormed<K, V>(g: Graph<K, V>, from: K, to: K)
    requires g.WellFormed()
    ensures g.AddDependency(from, to).0.WellFormed()
  {
    if from in g.index && to in g.index {
      DependencyRefusedIff(g, from, to);
    }
  }

  lemma {:induction false} AddDependenciesWellFormed<K, V>(g: Graph<K, V>, key: K, dependencies: seq<K>)
    requires g.WellFormed()
    ensures g.AddDependencies(key, dependencies).0.WellFormed()
    decreases dependencies
  {
    if dependencies != [] {
      AddDependencyWellFormed(g, dependencies[0], key);
      AddDependenciesWellFormed(g.AddDependency(dependencies[0], key).0, key, dependencies[1..]);
    }
  }

  /** The edges from the dependencies into `key`, in order; dependencies without a node have none. */
  ghost function EdgesInto<K, V>(g: Graph<K, V>, key: K, dependencies: seq<K>): seq<Edge>
    requires key in g.index
  {
    if dependencies == [] then []
    else
      (if dependencies[0] in g.index then [(g.index[dependencies[0]], g.index[key])] else []) +
      EdgesInto(g, key, dependencies[1..])
  }

  /** Every dependency exists and is not the node itself. */
  ghost predicate Acceptable<K, V>(g: Graph<K, V>, key: K, dependencies: seq<K>) {
    forall d :: d in dependencies ==> d in g.index && d != key
  }

  lemma AcceptableCons<K, V>(g: Graph<K, V>, key: K, dependencies: seq<K>)
    requires dependencies != []
    ensures Acceptable(g, key, dependencies) <==>
            dependencies[0] in g.index && dependencies[0] != key && Acceptable(g, key, dependencies[1..])
  {
    assert dependencies[0] in dependencies;
    if Acceptable(g, key, dependencies) {
      forall d | d in dependencies[1..]
        ensures d in g.index && d != key
      {
        assert d in dependencies;
      }
    } else {
      var d :| d in dependencies && !(d in g.index && d != key);
      assert d == dependencies[0] || d in dependencies[1..];
    }
  }

  /** An edge into a node without outgoing edges closes no cycle, unless it starts there. */
  lemma DependencyOfSink<K, V>(g: Graph<K, V>, key: K, d: K)
    requires g.WellFormed() && key in g.index && forall e :: e in g.edges ==> e.0 != g.index[key]
    ensures var (h, r) := g.AddDependency(d, key);
            && h.WellFormed() && h.index == g.index && h.values == g.values
            && (r.Ok? <==> d in g.index && d != key)
            && (r.Ok? ==> h.edges == g.edges + [(g.index[d], g.index[key])] && g.index[d] != g.index[key])
  {
    AddDependencyWellFormed(g, d, key);
    if d in g.index {
      ReachedFromASinkIff(g.edges, g.index[key], g.index[d]);
    }
  }

  lemma AcceptedFirst<K, V>(g: Graph<K, V>, next: Graph<K, V>, key: K, dependencies: seq<K>)
    requires dependencies != [] && key in g.index && dependencies[0] in g.index && next.index == g.index
    requires next.edges == g.edges + [(g.index[dependencies[0]], g.index[key])]
    ensures next.edges + EdgesInto(next, key, dependencies[1..]) == g.edges + EdgesInto(g, key, dependencies)
    ensures Acceptable(next, key, dependencies[1..]) <==> Acceptable(g, key, dependencies[1..])
  {
    SameEdgesInto(g, next, key, dependencies[1..]);
    ConcatAssociative(g.edges, [(g.index[dependencies[0]], g.index[key])], EdgesInto(g, key, dependencies[1..]));
  }

  lemma {:induction false} DependenciesOfSink<K, V>(g: Graph<K, V>, key: K, dependencies: seq<K>)
    requires g.WellFormed() && key in g.index && forall e :: e in g.edges ==> e.0 != g.index[key]
    ensures var (h, r) := g.AddDependencies(key, dependencies);
            && h.index == g.index && h.values == g.values
            && (r.Ok? <==> Acceptable(g, key, dependencies))
            && (r.Ok? ==> h.edges == g.edges + EdgesInto(g, key, dependencies))
    decreases dependencies
  {
    if dependencies != [] {
      var d, rest := dependencies[0], dependencies[1..];
      DependencyOfSink(g, key, d);
      AcceptableCons(g, key, dependencies);
      var (next, r) := g.AddDependency(d, key);
      if r.Ok? {
        DependenciesOfSink(next, key, rest);
        AcceptedFirst(g, next, key, dependencies);
      }
    }
  }

  lemma {:induction false} SameEdgesInto<K, V>(g: Graph<K, V>, h: Graph<K, V>, key: K, dependencies: seq<K>)
    requires h.index == g.index && key in g.index
    ensures EdgesInto(h, key, dependencies) == EdgesInto(g, key, dependencies)
  {
    if dependencies != [] {
      SameEdgesInto(g, h, key, dependencies[1..]);
    }
  }

  /**
   Inserting a node with dependencies succeeds exactly when its key is new and all dependencies exist already;
   it then adds one edge per listed dependency, repetitions included, and nothing else.
   */
  lemma InsertSucceedsIff<K, V>(g: Graph<K, V>, key: K, value: V, dependencies: seq<K>)
    requires g.WellFormed()
    ensures var (h, r) := g.AddNodeWithDependencies(key, value, dependencies);
            && (r.Ok? <==> key !in g.index && forall d :: d in dependencies ==> d in g.index)
            && (r.Ok? ==> h.index == g.index[key := |g.values|] && h.values == g.values + [value]
                          && h.edges == g.edges + EdgesInto(h, key, dependencies))
  {
    if key !in g.index {
      var inserted := g.AddNode(key, value).0;
      AddNodeWellFormed(g, key, value);
      DependenciesOfSink(inserted, key, dependencies);
      var (h, r) := inserted.AddDependencies(key, dependencies);
      SameEdgesInto(inserted, h, key, dependencies);
      assert g.AddNodeWithDependencies(key, value, dependencies).1.Ok? <==> Acceptable(inserted, key, dependencies);
    }
  }

  datatype Operation<K, V> =
    | Insert(key: K, value: V)
    | InsertWithDependencies(key: K, value: V, dependencies: seq<K>)
    | Connect(from: K, to: K)
    | Replace(key: K, value: V)
    | Clear

  ghost function Apply<K, V>(g: Graph<K, V>, op: Operation<K, V>): Graph<K, V> {
    match op
    case Insert(key, value) => g.AddNode(key, value).0
    case InsertWithDependencies(key, value, dependencies) => g.AddNodeWithDependencies(key, value, dependencies).0
    case Connect(from, to) => g.AddDependency(from, to).0
    case Replace(key, value) => g.SetValue(key, value)
    case Clear => Empty()
  }

  ghost function ApplyAll<K, V>(g: Graph<K, V>, ops: seq<Operation<K, V>>): Graph<K, V>
    decreases ops
  {
    if ops == [] then g
    else ApplyAll(Apply(g, ops[0]), ops[1..])
  }

  ghost function Empty<K, V>(): Graph<K, V> {
    Graph(map[], [], [])
  }

  lemma EmptyWellFormed<K, V>()
    ensures Empty<K, V>().WellFormed()
  {
    forall p | IsPath([], p)
      ensures |p| == 1
    {
      LastEdgeOf([], p);
    }
  }

  lemma ReplaceWellFormed<K, V>(g: Graph<K, V>, key: K, value: V)
    requires g.WellFormed()
    ensures g.SetValue(key, value).WellFormed()
  {
    assert |g.SetValue(key, value).values| == |g.values|;
  }

  /** Any sequence of operations, including ones refused midway, keeps the keys bijective and the graph acyclic. */
  lemma {:induction false} EveryRunWellFormed<K, V>(g: Graph<K, V>, ops: seq<Operation<K, V>>)
    requires g.WellFormed()
    ensures ApplyAll(g, ops).WellFormed()
    decreases ops
  {
    if ops != [] {
      match ops[0] {
        case Insert(key, value) => AddNodeWellFormed(g, key, value);
        case InsertWithDependencies(key, value, dependencies) =>
          AddNodeWellFormed(g, key, value);
          AddDependenciesWellFormed(g.AddNode(key, value).0, key, dependencies);
        case Connect(from, to) => AddDependencyWellFormed(g, from, to);
        case Replace(key, value) => ReplaceWellFormed(g, key, value);
        case Clear => EmptyWellFormed<K, V>();
      }
      EveryRunWellFormed(Apply(g, ops[0]), ops[1..]);
    }
  }

  // ----- Levels by key -----

  /**
   Every key is listed exactly once, with its value, at the level equal to the length of the longest
   dependency path that ends there; no level is empty.
   */
  ghost predicate IsLevelling<K, V>(g: Graph<K, V>, levels: seq<seq<(K, V)>>) {
    && (forall l :: 0 <= l < |levels| ==> levels[l] != [])
    && (forall l, i :: 0 <= l < |levels| && 0 <= i < |levels[l]| ==> PlacedRight(g, levels[l][i], l))
    && (forall k :: k in g.index ==> Placed(levels, k))
    && (forall l, i, m, j ::
          (0 <= l < |levels| && 0 <= i < |levels[l]| && 0 <= m < |levels| && 0 <= j < |levels[m]|
           && levels[l][i].0 == levels[m][j].0) ==> l == m && i == j)
  }

  ghost predicate PlacedRight<K, V>(g: Graph<K, V>, entry: (K, V), l: nat) {
    && entry.0 in g.index
    && g.index[entry.0] < |g.values|
    && entry.1 == g.values[g.index[entry.0]]
    && LongestPathTo(g.edges, g.index[entry.0], l)
  }

  ghost predicate Placed<K, V>(levels: seq<seq<(K, V)>>, k: K) {
    exists l, i :: 0 <= l < |levels| && 0 <= i < |levels[l]| && levels[l][i].0 == k
  }

  ghost predicate Names<K, V>(g: Graph<K, V>, nodes: seq<nat>, named: seq<(K, V)>) {
    && |named| == |nodes|
    && forall i :: 0 <= i < |nodes| ==>
         named[i].0 in g.index && g.index[named[i].0] == nodes[i] && nodes[i] < |g.values|
         && named[i].1 == g.values[nodes[i]]
  }

  lemma NamedLevelsAreLevelling<K, V>(g: Graph<K, V>, nodes: seq<seq<nat>>, level: map<nat, nat>,
                                      levels: seq<seq<(K, V)>>)
    requires g.WellFormed() && level.Keys == Nodes(|g.values|) && Lists(nodes, level)
    requires Climbing(g.edges, level) && Tight(g.edges, level)
    requires |levels| == |nodes| && forall l :: 0 <= l < |nodes| ==> Names(g, nodes[l], levels[l])
    ensures IsLevelling(g, levels)
  {
    forall l | 0 <= l < |levels|
      ensures levels[l] != []
      ensures forall i :: 0 <= i < |levels[l]| ==> PlacedRight(g, levels[l][i], l)
    {
      assert ListsLevel(nodes[l], level, l);
      forall i | 0 <= i < |levels[l]|
        ensures PlacedRight(g, levels[l][i], l)
      {
        assert nodes[l][i] in nodes[l];
        ClimbingTightIsLongestPath(g.edges, level, nodes[l][i]);
      }
    }
    forall k | k in g.index
      ensures Placed(levels, k)
    {
      var v := g.index[k];
      var l := level[v];
      assert ListsLevel(nodes[l], level, l);
      var i :| 0 <= i < |nodes[l]| && nodes[l][i] == v;
      assert levels[l][i].0 == k;
    }
    forall l, i, m, j | 0 <= l < |levels| && 0 <= i < |levels[l]| && 0 <= m < |levels| && 0 <= j < |levels[m]|
                        && levels[l][i].0 == levels[m][j].0
      ensures l == m && i == j
    {
      assert ListsLevel(nodes[l], level, l) && ListsLevel(nodes[m], level, m);
      assert nodes[l][i] in nodes[l] && nodes[m][j] in nodes[m];
      assert nodes[l][i] == nodes[m][j];
    }
  }

  /** No schedule that respects the edges can place a task on an earlier level, so the levels are the fewest. */
  lemma FewestLevels<K, V>(g: Graph<K, V>, levels: seq<seq<(K, V)>>, rank: map<K, nat>, l: nat, i: nat)
    requires g.WellFormed() && IsLevelling(g, levels)
    requires rank.Keys == g.index.Keys
    requires forall f, t :: f in g.index && t in g.index && g.HasEdge(f, t) ==> rank[f] < rank[t]
    requires l < |levels| && i < |levels[l]|
    ensures levels[l][i].0 in rank && l <= rank[levels[l][i].0]
  {
    assert PlacedRight(g, levels[l][i], l);
    var key := levels[l][i].0;
    var p :| IsPath(g.edges, p) && p[|p| - 1] == g.index[key] && |p| == l + 1;
    PathRanks(g, rank, p, key);
  }

  lemma {:induction false} PathRanks<K, V>(g: Graph<K, V>, rank: map<K, nat>, p: seq<nat>, key: K)
    requires g.WellFormed()
    requires rank.Keys == g.index.Keys
    requires forall f, t :: f in g.index && t in g.index && g.HasEdge(f, t) ==> rank[f] < rank[t]
    requires IsPath(g.edges, p) && key in g.index && p[|p| - 1] == g.index[key]
    ensures |p| - 1 <= rank[key]
    decreases |p|
  {
    if |p| > 1 {
      var last := |p| - 2;
      assert (p[last], p[last + 1]) in g.edges;
      assert HasKeyFor(g.index, p[last]);
      var before :| before in g.index && g.index[before] == p[last];
      assert g.HasEdge(before, key);
      PathRanks(g, rank, p[..last + 1], before);
    }
  }

  // ----- The mutable graph -----

  class AcyclicDigraphMap<K(==), V> {
    var nodeIndices: map<K, nat>
    var weights: seq<V>
    var edges: seq<Edge>

    ghost function View(): Graph<K, V>
      reads this
    {
      Graph(nodeIndices, weights, edges)
    }

    ghost predicate Valid()
      reads this
    {
      View().WellFormed()
    }

    constructor ()
      ensures Valid() && View() == Empty()
    {
      nodeIndices, weights, edges := map[], [], [];
      new;
      EmptyWellFormed<K, V>();
    }

    method AddNode(key: K, value: V) returns (r: Result<nat, GraphError<K>>)
      requires Valid()
      modifies this
      ensures Valid() && (View(), r) == old(View()).AddNode(key, value)
      ensures key in old(View()).index <==> r == Err(DuplicateKey(key))
      ensures r.Ok? ==> View().index == old(View()).index[key := r.value] && View().values[r.value..] == [value]
    {
      AddNodeWellFormed(View(), key, value);
      if key in nodeIndices {
        return Err(DuplicateKey(key));
      }
      var node := |weights|;
      weights := weights + [value];
      nodeIndices := nodeIndices[key := node];
      return Ok(node);
    }

    method AddDependency(from: K, to: K) returns (r: Result<(), GraphError<K>>)
      requires Valid()
      modifies this
      ensures Valid() && (View(), r) == old(View()).AddDependency(from, to)
      ensures from !in old(View()).index ==> r == Err(NodeNotFound(from))
      ensures from in old(View()).index && to !in old(View()).index ==> r == Err(NodeNotFound(to))
      ensures r.Ok? ==> View().HasEdge(from, to)
    {
      AddDependencyWellFormed(View(), from, to);
      if from !in nodeIndices {
        return Err(NodeNotFound(from));
      }
      if to !in nodeIndices {
        return Err(NodeNotFound(to));
      }
      var wouldCreateCycle := HasPathConnecting(edges, |weights|, nodeIndices[to], nodeIndices[from]);
      if wouldCreateCycle {
        return Err(CycleDetected);
      }
      edges := edges + [(nodeIndices[from], nodeIndices[to])];
      return Ok(());
    }

    method AddNodeWithDependencies(key: K, value: V, dependencies: seq<K>) returns (r: Result<nat, GraphError<K>>)
      requires Valid()
      modifies this
      ensures Valid() && (View(), r) == old(View()).AddNodeWithDependencies(key, value, dependencies)
    {
      r := AddNode(key, value);
      if r.Err? {
        return;
      }
      ghost var inserted := View();
      for i := 0 to |dependencies|
        invariant Valid()
        invariant View().AddDependencies(key, dependencies[i..]) == inserted.AddDependencies(key, dependencies)
      {
        var s := AddDependency(dependencies[i], key);
        assert dependencies[i..][1..] == dependencies[i + 1..];
        if s.Err? {
          return Err(s.error);
        }
      }
    }

    method SetValue(key: K, value: V)
      requires Valid()
      modifies this
      ensures Valid() && View() == old(View()).SetValue(key, value)
    {
      ReplaceWellFormed(View(), key, value);
      if key in nodeIndices {
        weights := weights[nodeIndices[key] := value];
      }
    }

    method Get(key: K) returns (r: Option<V>)
      requires Valid()
      ensures r == if key in View().index then Some(View().values[View().index[key]]) else None
    {
      if key in nodeIndices {
        return Some(weights[nodeIndices[key]]);
      }
      return None;
    }

    method Clear()
      modifies this
      ensures Valid() && View() == Empty()
    {
      nodeIndices, weights, edges := map[], [], [];
      EmptyWellFormed<K, V>();
    }

    method NameLevel(nodes: seq<nat>) returns (named: seq<(K, V)>)
      requires Valid() && forall v :: v in nodes ==> v < |weights|
      ensures Names(View(), nodes, named)
    {
      named := [];
      for i := 0 to |nodes|
        invariant Names(View(), nodes[..i], named)
      {
        assert nodes[i] in nodes;
        assert HasKeyFor(nodeIndices, nodes[i]);
        var key :| key in nodeIndices && nodeIndices[key] == nodes[i];
        named := named + [(key, weights[nodes[i]])];
        assert nodes[..i + 1] == nodes[..i] + [nodes[i]];
      }
      assert nodes[..|nodes|] == nodes;
    }

    method NameLevels(nodes: seq<seq<nat>>) returns (levels: seq<seq<(K, V)>>)
      requires Valid() && forall l, v :: 0 <= l < |nodes| && v in nodes[l] ==> v < |weights|
      ensures |levels| == |nodes| && forall l :: 0 <= l < |nodes| ==> Names(View(), nodes[l], levels[l])
    {
      levels := [];
      for l := 0 to |nodes|
        invariant |levels| == l
        invariant forall m :: 0 <= m < l ==> Names(View(), nodes[m], levels[m])
      {
        var named := NameLevel(nodes[l]);
        levels := levels + [named];
      }
    }

    /** Groups the nodes by topological level. */
    method TopoSortByLevel() returns (levels: seq<seq<(K, V)>>)
      requires Valid()
      ensures IsLevelling(View(), levels)
    {
      var nodes;
      ghost var level;
      nodes, level := TopologicalLevels(edges, |weights|);
      forall l, v | 0 <= l < |nodes| && v in nodes[l]
        ensures v < |weights|
      {
        assert ListsLevel(nodes[l], level, l);
      }
      levels := NameLevels(nodes);
      NamedLevelsAreLevelling(View(), nodes, level, levels);
    }
  }
}
