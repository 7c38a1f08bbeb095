/**
 The task network on top of the dependency graph. A dependency on a task that does not exist yet is
 deferred and becomes an edge when that task arrives.
 */
module TaskNetworks {
  import opened Results
  import opened Digraph
  import opened AcyclicDigraphMaps

  /** `pending[from]` holds the tasks waiting for the absent task `from`. */
  datatype Network<K(==), T> = Network(tasks: Graph<K, T>, pending: map<K, set<K>>) {

    ghost function AddDependency(from: K, to: K): (Network<K, T>, Result<(), GraphError<K>>) {
      var (g, r) := tasks.AddDependency(from, to);
      (this.(tasks := g), r)
    }

    ghost function Defer(from: K, to: K): Network<K, T> {
      this.(pending := pending[from := (if from in pending then pending[from] else {}) + {to}])
    }

    ghost function AddDependencyOrDefer(from: K, to: K): (Network<K, T>, Result<(), GraphError<K>>) {
      if from in tasks.index then AddDependency(from, to) else (Defer(from, to), Ok(()))
    }

    ghost function AddDependencies(to: K, dependencies: seq<K>): (Network<K, T>, Result<(), GraphError<K>>)
      decreases dependencies
    {
      if dependencies == [] then (this, Ok(()))
      else
        var (n, r) := AddDependencyOrDefer(dependencies[0], to);
        if r.Err? then (n, r) else n.AddDependencies(to, dependencies[1..])
    }

    /** Turns the waiting tasks that exist by now into edges from `from`, in the given order. */
    ghost function Resolve(from: K, order: seq<K>): (Network<K, T>, Result<(), GraphError<K>>)
      decreases order
    {
      if order == [] then (this, Ok(()))
      else if order[0] !in tasks.index then Resolve(from, order[1..])
      else
        var (n, r) := AddDependency(from, order[0]);
        if r.Err? then (n, r) else n.Resolve(from, order[1..])
    }

    /** `order` is the order in which the set of waiting tasks happens to be iterated. */
    ghost function AddTask(key: K, task: T, dependencies: seq<K>, order: seq<K>)
      : (Network<K, T>, Result<(), GraphError<K>>)
    {
      var (g, r) := tasks.AddNode(key, task);
      if r.Err? then (this, Err(r.error))
      else
        var (n, s) := Network(g, pending - {key}).Resolve(key, order);
        if s.Err? then (n, s) else n.AddDependencies(key, dependencies)
    }

    ghost function Waiting(key: K): set<K> {
      if key in pending then pending[key] else {}
    }

    /** Deferred keys name absent tasks. */
    ghost predicate Orderly() {
      tasks.WellFormed() && forall f :: f in pending ==> f !in tasks.index && pending[f] != {}
    }

    /** Moreover, every waiting task exists. */
    ghost predicate Sound() {
      Orderly() && forall f, t :: f in pending && t in pending[f] ==> t in tasks.index
    }

    /** The dependency of `to` on `from` is an edge, or is deferred on the still absent `from`. */
    ghost predicate Keeps(from: K, to: K) {
      tasks.HasEdge(from, to) || (from !in tasks.index && from in pending && to in pending[from])
    }

    /** The dependencies that a call records, as edges or deferred, before it meets its first refusal. */
    ghost function Recorded(to: K, dependencies: seq<K>): set<(K, K)>
      decreases dependencies
    {
      if dependencies == [] then {}
      else
        var (n, r) := AddDependencyOrDefer(dependencies[0], to);
        if r.Err? then {} else {(dependencies[0], to)} + n.Recorded(to, dependencies[1..])
    }

    ghost function RecordedByTask(key: K, task: T, dependencies: seq<K>, order: seq<K>): set<(K, K)> {
      var (g, r) := tasks.AddNode(key, task);
      if r.Err? then {}
      else
        var (n, s) := Network(g, pending - {key}).Resolve(key, order);
        if s.Err? then {} else n.Recorded(key, dependencies)
    }

    /** The same, for a task that exists. */
    ghost predicate Tracked(from: K, to: K) {
      && to in tasks.index
      && (from in tasks.index ==> tasks.HasEdge(from, to))
      && (from !in tasks.index ==> from in pending && to in pending[from])
    }
  }

  ghost predicate Enumerates<K(!new)>(order: seq<K>, s: set<K>) {
    forall k :: k in order <==> k in s
  }

  /** `m` has the tasks of `n` and loses neither an edge nor a deferred dependency. */
  ghost predicate Extends<K(!new), T>(n: Network<K, T>, m: Network<K, T>) {
    && m.tasks.index == n.tasks.index
    && m.tasks.values == n.tasks.values
    && (forall e :: e in n.tasks.edges ==> e in m.tasks.edges)
    && (forall f :: f in n.pending ==> f in m.pending && n.pending[f] <= m.pending[f])
  }

  lemma AddOneDependency<K(!new), T>(n: Network<K, T>, from: K, to: K)
    requires n.Sound() && to in n.tasks.index
    ensures var (m, r) := n.AddDependencyOrDefer(from, to);
            m.Sound() && Extends(n, m) && (r.Ok? ==> m.Tracked(from, to))
  {
    if from in n.tasks.index {
      AddDependencyWellFormed(n.tasks, from, to);
    }
  }

  lemma {:induction false} AddDependenciesTracks<K(!new), T>(n: Network<K, T>, to: K, dependencies: seq<K>)
    requires n.Sound() && to in n.tasks.index
    ensures var (m, r) := n.AddDependencies(to, dependencies);
            m.Sound() && Extends(n, m) && (r.Ok? ==> forall d :: d in dependencies ==> m.Tracked(d, to))
    decreases dependencies
  {
    if dependencies != [] {
      AddOneDependency(n, dependencies[0], to);
      AddDependenciesTracks(n.AddDependencyOrDefer(dependencies[0], to).0, to, dependencies[1..]);
    }
  }

  /**
   Resolving a node without incoming edges never meets a cycle; it adds one edge to every waiting task
   that exists by then and nothing else.
   */
  lemma {:induction false} ResolveAddsEdges<K(!new), T>(n: Network<K, T>, from: K, order: seq<K>)
    requires n.tasks.WellFormed() && from in n.tasks.index && from !in order
    requires forall e :: e in n.tasks.edges ==> e.1 != n.tasks.index[from]
    ensures var (m, r) := n.Resolve(from, order);
            && r.Ok? && m.tasks.WellFormed() && Extends(n, m) && m.pending == n.pending
            && forall f, t :: m.tasks.HasEdge(f, t) <==>
                 n.tasks.HasEdge(f, t) || (f == from && t in order && t in n.tasks.index)
    decreases order
  {
    if order != [] {
      var to := order[0];
      if to !in n.tasks.index {
        ResolveAddsEdges(n, from, order[1..]);
      } else {
        ReachingASourceIff(n.tasks.edges, n.tasks.index[to], n.tasks.index[from]);
        assert to in order;
        AddDependencyWellFormed(n.tasks, from, to);
        ResolveAddsEdges(n.AddDependency(from, to).0, from, order[1..]);
      }
    }
  }

  /** Adding a new task resolves everything that waited for it, then tracks its own dependencies. */
  lemma AddTaskTracks<K(!new), T>(n: Network<K, T>, key: K, task: T, dependencies: seq<K>, order: seq<K>)
    requires n.Sound() && Enumerates(order, n.Waiting(key)) && key !in n.tasks.index
    ensures var (m, r) := n.AddTask(key, task, dependencies, order);
            && m.Sound()
            && m.tasks.index == n.tasks.index[key := |n.tasks.values|]
            && m.tasks.values == n.tasks.values + [task]
            && (forall f, t :: n.Tracked(f, t) ==> m.Tracked(f, t))
            && (r.Ok? ==> forall d :: d in dependencies ==> m.Tracked(d, key))
            && (dependencies == [] ==> r.Ok?)
  {
    var base := Network(n.tasks.AddNode(key, task).0, n.pending - {key});
    AddNodeWellFormed(n.tasks, key, task);
    ResolveAddsEdges(base, key, order);
    var resolved := base.Resolve(key, order).0;
    forall f, t | n.Tracked(f, t)
      ensures resolved.Tracked(f, t)
    {
      if f in n.tasks.index {
        assert base.tasks.HasEdge(f, t);
      }
    }
    AddDependenciesTracks(resolved, key, dependencies);
  }

  // ----- Every run of the public operations -----

  datatype Call<K, T> =
    | AddTask(key: K, task: T, dependencies: seq<K>, order: seq<K>)
    | AddDependencies(key: K, dependencies: seq<K>)
    | AddDependency(from: K, to: K)
    | Replace(key: K, task: T)
    | Clear

  /** A network together with every dependency recorded since the last clear, also by calls that failed later on. */
  datatype History<K(==), T> = History(network: Network<K, T>, recorded: set<(K, K)>)

  /** The iteration order of the waiting tasks is one that the set allows. */
  ghost predicate Possible<K(!new), T>(n: Network<K, T>, c: Call<K, T>) {
    c.AddTask? ==> Enumerates(c.order, n.Waiting(c.key))
  }

  /** A new task finds all the tasks that wait for it, and does not wait for itself. */
  ghost predicate Safe<K(!new), T>(n: Network<K, T>, c: Call<K, T>) {
    c.AddTask? && c.key !in n.tasks.index ==> n.Waiting(c.key) <= n.tasks.index.Keys
  }

  ghost function Step<K, T>(h: History<K, T>, c: Call<K, T>): History<K, T> {
    var n := h.network;
    match c
    case AddTask(key, task, dependencies, order) =>
      History(n.AddTask(key, task, dependencies, order).0, h.recorded + n.RecordedByTask(key, task, dependencies, order))
    case AddDependencies(key, dependencies) =>
      History(n.AddDependencies(key, dependencies).0, h.recorded + n.Recorded(key, dependencies))
    case AddDependency(from, to) =>
      var (m, r) := n.AddDependency(from, to);
      History(m, if r.Ok? then h.recorded + {(from, to)} else h.recorded)
    case Replace(key, task) => h.(network := n.(tasks := n.tasks.SetValue(key, task)))
    case Clear => History(Network(Empty(), map[]), {})
  }

  ghost predicate PossibleRun<K(!new), T>(h: History<K, T>, calls: seq<Call<K, T>>)
    decreases calls
  {
    calls != [] ==> Possible(h.network, calls[0]) && PossibleRun(Step(h, calls[0]), calls[1..])
  }

  ghost predicate SafeRun<K(!new), T>(h: History<K, T>, calls: seq<Call<K, T>>)
    decreases calls
  {
    calls != [] ==> Safe(h.network, calls[0]) && SafeRun(Step(h, calls[0]), calls[1..])
  }

  ghost function Run<K, T>(h: History<K, T>, calls: seq<Call<K, T>>): History<K, T>
    decreases calls
  {
    if calls == [] then h else Run(Step(h, calls[0]), calls[1..])
  }

  /** The history knows everything that is deferred. */
  ghost predicate Complete<K(!new), T>(h: History<K, T>) {
    h.network.Orderly() && forall f, t :: f in h.network.pending && t in h.network.pending[f] ==> (f, t) in h.recorded
  }

  ghost predicate KeepsAll<K(!new), T>(h: History<K, T>) {
    forall f, t :: (f, t) in h.recorded ==> h.network.Keeps(f, t)
  }

  /** Every state on the way keeps all recorded dependencies. */
  ghost predicate AlwaysKeepsAll<K(!new), T>(h: History<K, T>, calls: seq<Call<K, T>>)
    decreases calls
  {
    KeepsAll(h) && (calls != [] ==> AlwaysKeepsAll(Step(h, calls[0]), calls[1..]))
  }

  lemma KeepsExtends<K(!new), T>(n: Network<K, T>, m: Network<K, T>, from: K, to: K)
    requires Extends(n, m) && n.Keeps(from, to)
    ensures m.Keeps(from, to)
  {
  }

  ghost predicate Deferred<K(!new), T>(n: Network<K, T>, from: K, to: K) {
    from in n.pending && to in n.pending[from]
  }

  lemma RecordOne<K(!new), T>(n: Network<K, T>, from: K, to: K)
    requires n.Orderly()
    ensures var (m, r) := n.AddDependencyOrDefer(from, to);
            && m.Orderly() && Extends(n, m) && (r.Ok? ==> m.Keeps(from, to))
            && forall f, t :: Deferred(m, f, t) ==> Deferred(n, f, t) || (r.Ok? && (f, t) == (from, to))
  {
    if from in n.tasks.index {
      AddDependencyWellFormed(n.tasks, from, to);
    }
  }

  /** What a call records is kept, whether or not its task exists and whether or not it fails later on. */
  lemma {:induction false} RecordedIsKept<K(!new), T>(n: Network<K, T>, to: K, dependencies: seq<K>)
    requires n.Orderly()
    ensures var (m, r) := n.AddDependencies(to, dependencies);
            && m.Orderly() && Extends(n, m)
            && (forall f, t :: (f, t) in n.Recorded(to, dependencies) ==> m.Keeps(f, t))
            && (forall f, t :: Deferred(m, f, t) ==> Deferred(n, f, t) || (f, t) in n.Recorded(to, dependencies))
            && (r.Ok? ==> forall d :: d in dependencies ==> (d, to) in n.Recorded(to, dependencies))
    decreases dependencies
  {
    if dependencies != [] {
      RecordOne(n, dependencies[0], to);
      var (next, r) := n.AddDependencyOrDefer(dependencies[0], to);
      RecordedIsKept(next, to, dependencies[1..]);
      if r.Ok? {
        KeepsExtends(next, next.AddDependencies(to, dependencies[1..]).0, dependencies[0], to);
      }
    }
  }

  lemma {:induction false} ResolveExtends<K(!new), T>(n: Network<K, T>, from: K, order: seq<K>)
    requires n.tasks.WellFormed()
    ensures var m := n.Resolve(from, order).0;
            m.tasks.WellFormed() && Extends(n, m) && m.pending == n.pending
    decreases order
  {
    if order != [] {
      if order[0] !in n.tasks.index {
        ResolveExtends(n, from, order[1..]);
      } else {
        AddDependencyWellFormed(n.tasks, from, order[0]);
        ResolveExtends(n.AddDependency(from, order[0]).0, from, order[1..]);
      }
    }
  }

  /** Resolving a new task fails exactly when the task was waiting for itself. */
  lemma {:induction false} ResolveFailsIff<K(!new), T>(n: Network<K, T>, from: K, order: seq<K>)
    requires n.tasks.WellFormed() && from in n.tasks.index
    requires forall e :: e in n.tasks.edges ==> e.1 != n.tasks.index[from]
    ensures n.Resolve(from, order).1 == if from in order then Err(CycleDetected) else Ok(())
    decreases order
  {
    if order != [] {
      var to := order[0];
      if to !in n.tasks.index {
        ResolveFailsIff(n, from, order[1..]);
      } else {
        ReachingASourceIff(n.tasks.edges, n.tasks.index[to], n.tasks.index[from]);
        if to != from {
          AddDependencyWellFormed(n.tasks, from, to);
          ResolveFailsIff(n.AddDependency(from, to).0, from, order[1..]);
        }
      }
    }
  }

  ghost function Inserted<K, T>(n: Network<K, T>, key: K, task: T): Network<K, T> {
    Network(n.tasks.AddNode(key, task).0, n.pending - {key})
  }

  /** After adding a task the network is in order, keeps what the call recorded and defers nothing else. */
  lemma AddTaskRecords<K(!new), T>(n: Network<K, T>, key: K, task: T, dependencies: seq<K>, order: seq<K>)
    requires n.Orderly() && key !in n.tasks.index
    ensures var m := n.AddTask(key, task, dependencies, order).0;
            var recorded := n.RecordedByTask(key, task, dependencies, order);
            && m.Orderly() && Extends(Inserted(n, key, task).Resolve(key, order).0, m)
            && Extends(Inserted(n, key, task), m)
            && (forall f, t :: (f, t) in recorded ==> m.Keeps(f, t))
            && (forall f, t :: Deferred(m, f, t) ==> Deferred(n, f, t) || (f, t) in recorded)
  {
    AddNodeWellFormed(n.tasks, key, task);
    ResolveExtends(Inserted(n, key, task), key, order);
    RecordedIsKept(Inserted(n, key, task).Resolve(key, order).0, key, dependencies);
  }

  /** A new task that finds all its waiting tasks loses nothing. */
  lemma SafeTaskKeeps<K(!new), T>(n: Network<K, T>, c: Call<K, T>, f: K, t: K)
    requires n.Orderly() && c.AddTask? && c.key !in n.tasks.index && Possible(n, c) && Safe(n, c) && n.Keeps(f, t)
    ensures n.AddTask(c.key, c.task, c.dependencies, c.order).0.Keeps(f, t)
  {
    var base := Inserted(n, c.key, c.task);
    AddNodeWellFormed(n.tasks, c.key, c.task);
    AddTaskRecords(n, c.key, c.task, c.dependencies, c.order);
    ResolveAddsEdges(base, c.key, c.order);
    var resolved := base.Resolve(c.key, c.order).0;
    if n.tasks.HasEdge(f, t) {
      assert base.tasks.HasEdge(f, t);
    }
    assert resolved.Keeps(f, t);
    KeepsExtends(resolved, n.AddTask(c.key, c.task, c.dependencies, c.order).0, f, t);
  }

  /** A new task loses every waiting task that does not exist, and the dependency on itself. */
  lemma UnsafeTaskLoses<K(!new), T>(n: Network<K, T>, c: Call<K, T>, t: K)
    requires n.Orderly() && c.AddTask? && c.key !in n.tasks.index && t in n.Waiting(c.key) && t !in n.tasks.index
    ensures !n.AddTask(c.key, c.task, c.dependencies, c.order).0.Keeps(c.key, t)
  {
    AddTaskRecords(n, c.key, c.task, c.dependencies, c.order);
    var m := n.AddTask(c.key, c.task, c.dependencies, c.order).0;
    if m.tasks.HasEdge(c.key, t) {
      ReachesSelf(m.tasks.edges, m.tasks.index[t]);
      SelfReachingEdgeIsCycle(m.tasks.edges, m.tasks.index[t], m.tasks.index[t]);
    }
  }

  lemma AddTaskKeepsIff<K(!new), T>(h: History<K, T>, c: Call<K, T>)
    requires Complete(h) && KeepsAll(h) && Possible(h.network, c) && c.AddTask? && c.key !in h.network.tasks.index
    ensures Complete(Step(h, c)) && (KeepsAll(Step(h, c)) <==> Safe(h.network, c))
  {
    AddTaskRecords(h.network, c.key, c.task, c.dependencies, c.order);
    if Safe(h.network, c) {
      forall f, t | (f, t) in h.recorded
        ensures Step(h, c).network.Keeps(f, t)
      {
        SafeTaskKeeps(h.network, c, f, t);
      }
    } else {
      var t :| t in h.network.Waiting(c.key) && t !in h.network.tasks.index;
      UnsafeTaskLoses(h.network, c, t);
      assert (c.key, t) in Step(h, c).recorded;
    }
  }

  lemma AddDependenciesKeepsAll<K(!new), T>(h: History<K, T>, c: Call<K, T>)
    requires Complete(h) && KeepsAll(h) && c.AddDependencies?
    ensures Complete(Step(h, c)) && KeepsAll(Step(h, c))
  {
    RecordedIsKept(h.network, c.key, c.dependencies);
    forall f, t | (f, t) in h.recorded
      ensures Step(h, c).network.Keeps(f, t)
    {
      KeepsExtends(h.network, Step(h, c).network, f, t);
    }
  }

  lemma PlainCallKeepsAll<K(!new), T>(h: History<K, T>, c: Call<K, T>)
    requires Complete(h) && KeepsAll(h)
    requires c.AddDependency? || c.Replace? || c.Clear? || (c.AddTask? && c.key in h.network.tasks.index)
    ensures Complete(Step(h, c)) && KeepsAll(Step(h, c))
  {
    match c {
      case AddTask(_, _, _, _) =>
      case AddDependency(from, to) => AddDependencyWellFormed(h.network.tasks, from, to);
      case Replace(key, task) => ReplaceWellFormed(h.network.tasks, key, task);
      case Clear => EmptyWellFormed<K, T>();
    }
  }

  lemma StepKeepsAllIff<K(!new), T>(h: History<K, T>, c: Call<K, T>)
    requires Complete(h) && KeepsAll(h) && Possible(h.network, c)
    ensures Complete(Step(h, c)) && (KeepsAll(Step(h, c)) <==> Safe(h.network, c))
  {
    if c.AddTask? && c.key !in h.network.tasks.index {
      AddTaskKeepsIff(h, c);
    } else if c.AddDependencies? {
      AddDependenciesKeepsAll(h, c);
    } else {
      PlainCallKeepsAll(h, c);
    }
  }

  /**
   Over every run, each recorded dependency is an edge or waits for a task that is still absent (whichever
   side arrives first, once both tasks exist the edge exists), if and only if every new task finds all the
   tasks that wait for it.
   */
  lemma {:induction false} EveryRunKeepsAllIff<K(!new), T>(h: History<K, T>, calls: seq<Call<K, T>>)
    requires Complete(h) && KeepsAll(h) && PossibleRun(h, calls)
    ensures AlwaysKeepsAll(h, calls) <==> SafeRun(h, calls)
    decreases calls
  {
    if calls != [] {
      StepKeepsAllIff(h, calls[0]);
      if Safe(h.network, calls[0]) {
        EveryRunKeepsAllIff(Step(h, calls[0]), calls[1..]);
      }
    }
  }

  // ----- Callers that add dependencies to existing tasks only -----

  /** As the task manager does, dependencies are added to existing tasks only. */
  ghost predicate CarefulRun<K(!new), T>(h: History<K, T>, calls: seq<Call<K, T>>)
    decreases calls
  {
    calls != [] ==>
      (calls[0].AddDependencies? ==> calls[0].key in h.network.tasks.index) && CarefulRun(Step(h, calls[0]), calls[1..])
  }

  lemma StepStaysSound<K(!new), T>(n: Network<K, T>, c: Call<K, T>)
    requires n.Sound() && Possible(n, c) && (c.AddDependencies? ==> c.key in n.tasks.index)
    ensures Step(History(n, {}), c).network.Sound() && Safe(n, c)
  {
    match c {
      case AddTask(key, task, dependencies, order) =>
        if key !in n.tasks.index {
          AddTaskTracks(n, key, task, dependencies, order);
        }
      case AddDependencies(key, dependencies) => AddDependenciesTracks(n, key, dependencies);
      case AddDependency(from, to) => AddDependencyWellFormed(n.tasks, from, to);
      case Replace(key, task) => ReplaceWellFormed(n.tasks, key, task);
      case Clear => EmptyWellFormed<K, T>();
    }
  }

  /** Then all recorded dependencies are kept in every state, and every waiting task exists at the end. */
  lemma {:induction false} CarefulRunKeepsAll<K(!new), T>(h: History<K, T>, calls: seq<Call<K, T>>)
    requires h.network.Sound() && Complete(h) && KeepsAll(h) && PossibleRun(h, calls) && CarefulRun(h, calls)
    ensures SafeRun(h, calls) && AlwaysKeepsAll(h, calls) && Run(h, calls).network.Sound()
    decreases calls
  {
    if calls != [] {
      StepStaysSound(h.network, calls[0]);
      StepKeepsAllIff(h, calls[0]);
      CarefulRunKeepsAll(Step(h, calls[0]), calls[1..]);
    }
  }

  // ----- Runs that lose a dependency -----

  ghost function Nothing(): History<nat, bool> {
    History(Network(Empty(), map[]), {})
  }

  /** The first call of both runs defers a dependency for a task that does not exist. */
  lemma DeferredForUnknown(from: nat, to: nat)
    ensures Step(Nothing(), Call.AddDependencies(to, [from])) ==
            History(Network(Empty(), map[from := {to}]), {(from, to)})
  {
    var n := Nothing().network;
    var nobody: set<nat> := {};
    assert nobody + {to} == {to};
    assert n.Defer(from, to) == Network(Empty(), map[from := {to}]);
    assert [from][1..] == [];
    assert n.AddDependencies(to, [from]) == n.Defer(from, to).AddDependencies(to, []);
    assert n.Recorded(to, [from]) == {(from, to)} + n.Defer(from, to).Recorded(to, []);
  }

  /** The prerequisite arrives before the task that waits for it, and the dependency is dropped. */
  lemma UnknownDependentIsDropped()
    ensures var h := Run(Nothing(), [AddDependencies(1, [0]), AddTask(0, true, [], [1]), AddTask(1, true, [], [])]);
            && (0, 1) in h.recorded && 0 in h.network.tasks.index && 1 in h.network.tasks.index
            && !h.network.tasks.HasEdge(0, 1)
  {
    var calls := [AddDependencies(1, [0]), AddTask(0, true, [], [1]), AddTask(1, true, [], [])];
    DeferredForUnknown(0, 1);
    var deferred := Step(Nothing(), calls[0]);
    var one := Step(deferred, calls[1]);
    assert [1][1..] == [];
    assert one.network.tasks == Graph(map[0 := 0], [true], []) && one.recorded == {(0, 1)};
    var two := Step(one, calls[2]);
    assert two.network.tasks.edges == [] && two.recorded == {(0, 1)};
    assert calls[1..][1..] == calls[2..] && calls[2..][1..] == [];
    assert Run(Nothing(), calls) == Run(deferred, calls[1..]) == Run(one, calls[2..]) == Run(two, []);
  }

  /** A task that waits for itself is refused as a cycle when it arrives, although it is new and lists nothing. */
  lemma SelfDependentIsRefused()
    ensures var n := Step(Nothing(), Call.AddDependencies(5, [5])).network;
            var (m, r) := n.AddTask(5, true, [], [5]);
            && Possible(n, Call.AddTask(5, true, [], [5])) && r == Err(CycleDetected)
            && 5 in m.tasks.index && 5 !in m.pending && !m.Keeps(5, 5)
  {
    DeferredForUnknown(5, 5);
    var n := Step(Nothing(), Call.AddDependencies(5, [5])).network;
    EmptyWellFormed<nat, bool>();
    AddNodeWellFormed(n.tasks, 5, true);
    var base := Inserted(n, 5, true);
    ResolveFailsIff(base, 5, [5]);
    ResolveExtends(base, 5, [5]);
    UnsafeTaskLoses(n, Call.AddTask(5, true, [], [5]), 5);
  }

  /** Deferring for an absent task does no harm when that task arrives before its prerequisite. */
  lemma UnknownDependentMayArriveFirst()
    ensures SafeRun(Nothing(), [AddDependencies(1, [0]), AddTask(1, true, [], []), AddTask(0, true, [], [1])])
  {
    var calls := [AddDependencies(1, [0]), AddTask(1, true, [], []), AddTask(0, true, [], [1])];
    DeferredForUnknown(0, 1);
    var deferred := Step(Nothing(), calls[0]);
    var one := Step(deferred, calls[1]);
    assert one.network.tasks.index == map[1 := 0] && one.network.pending == map[0 := {1}];
    assert calls[1..][1..] == calls[2..] && calls[2..][1..] == [];
    assert SafeRun(one, calls[2..]);
  }

  // ----- The mutable network -----

  class TaskNetwork<K(==, !new), T> {
    const tasks: AcyclicDigraphMap<K, T>
    var pendingDependents: map<K, set<K>>

    ghost function View(): Network<K, T>
      reads this, tasks
    {
      Network(tasks.View(), pendingDependents)
    }

    ghost predicate Valid()
      reads this, tasks
    {
      tasks.Valid()
    }

    constructor ()
      ensures Valid() && View() == Network(Empty(), map[]) && fresh(tasks)
    {
      tasks := new AcyclicDigraphMap<K, T>();
      pendingDependents := map[];
    }

    method AddDependencyOrDefer(from: K, to: K) returns (r: Result<(), GraphError<K>>)
      requires Valid()
      modifies this, tasks
      ensures Valid() && (View(), r) == old(View()).AddDependencyOrDefer(from, to)
    {
      if from in tasks.nodeIndices {
        r := tasks.AddDependency(from, to);
      } else {
        var waiting := if from in pendingDependents then pendingDependents[from] else {};
        pendingDependents := pendingDependents[from := waiting + {to}];
        r := Ok(());
      }
    }

    method AddDependencies(to: K, dependencies: seq<K>) returns (r: Result<(), GraphError<K>>)
      requires Valid()
      modifies this, tasks
      ensures Valid() && (View(), r) == old(View()).AddDependencies(to, dependencies)
    {
      for i := 0 to |dependencies|
        invariant Valid()
        invariant View().AddDependencies(to, dependencies[i..]) == old(View()).AddDependencies(to, dependencies)
      {
        r := AddDependencyOrDefer(dependencies[i], to);
        assert dependencies[i..][1..] == dependencies[i + 1..];
        if r.Err? {
          return;
        }
      }
      r := Ok(());
    }

    method ResolvePendingDependents(key: K) returns (r: Result<(), GraphError<K>>, ghost order: seq<K>)
      requires Valid()
      modifies this, tasks
      ensures Valid() && Enumerates(order, old(View()).Waiting(key))
      ensures (View(), r) == old(View()).(pending := old(pendingDependents) - {key}).Resolve(key, order)
    {
      order := [];
      if key !in pendingDependents {
        assert pendingDependents - {key} == pendingDependents;
        return Ok(()), order;
      }
      var dependents := pendingDependents[key];
      pendingDependents := pendingDependents - {key};
      ghost var start := View();
      while dependents != {}
        invariant Valid()
        invariant forall k :: k in order || k in dependents <==> k in old(View()).Waiting(key)
        invariant start.Resolve(key, order) == (View(), Ok(()))
        decreases dependents
      {
        var dependent :| dependent in dependents;
        dependents := dependents - {dependent};
        ResolveSnoc(start, key, order, dependent);
        order := order + [dependent];
        if dependent in tasks.nodeIndices {
          r := tasks.AddDependency(key, dependent);
          if r.Err? {
            ghost var rest := Enumerate(dependents);
            ResolveStopsAtError(start, key, order, rest);
            order := order + rest;
            return;
          }
        }
      }
      r := Ok(());
    }

    method AddTaskWithDependencies(key: K, task: T, dependencies: seq<K>)
      returns (r: Result<(), GraphError<K>>, ghost order: seq<K>)
      requires Valid()
      modifies this, tasks
      ensures Valid() && (View(), r) == old(View()).AddTask(key, task, dependencies, order)
      ensures Possible(old(View()), Call.AddTask(key, task, dependencies, order))
    {
      order := Enumerate(View().Waiting(key));
      var added := tasks.AddNode(key, task);
      if added.Err? {
        return Err(added.error), order;
      }
      r, order := ResolvePendingDependents(key);
      if r.Err? {
        return;
      }
      r := AddDependencies(key, dependencies);
    }

    method SetTask(key: K, task: T)
      requires Valid()
      modifies this, tasks
      ensures Valid() && View() == old(View()).(tasks := old(View()).tasks.SetValue(key, task))
    {
      tasks.SetValue(key, task);
    }

    method Clear()
      requires Valid()
      modifies this, tasks
      ensures Valid() && View() == Network(Empty(), map[])
    {
      tasks.Clear();
      pendingDependents := map[];
    }
  }

  lemma {:induction false} ResolveSnoc<K(!new), T>(n: Network<K, T>, from: K, order: seq<K>, last: K)
    ensures var (m, r) := n.Resolve(from, order);
            n.Resolve(from, order + [last]) == if r.Ok? then m.Resolve(from, [last]) else (m, r)
    decreases order
  {
    if order == [] {
      assert order + [last] == [last];
    } else {
      assert (order + [last])[1..] == order[1..] + [last];
      if order[0] !in n.tasks.index {
        ResolveSnoc(n, from, order[1..], last);
      } else {
        ResolveSnoc(n.AddDependency(from, order[0]).0, from, order[1..], last);
      }
    }
  }

  lemma {:induction false} ResolveStopsAtError<K(!new), T>(n: Network<K, T>, from: K, order: seq<K>, rest: seq<K>)
    requires n.Resolve(from, order).1.Err?
    ensures n.Resolve(from, order + rest) == n.Resolve(from, order)
    decreases order
  {
    assert (order + rest)[1..] == order[1..] + rest;
    if order[0] !in n.tasks.index {
      ResolveStopsAtError(n, from, order[1..], rest);
    } else if n.AddDependency(from, order[0]).1.Ok? {
      ResolveStopsAtError(n.AddDependency(from, order[0]).0, from, order[1..], rest);
    }
  }

  lemma {:induction false} Enumerate<K(!new)>(s: set<K>) returns (order: seq<K>)
    ensures Enumerates(order, s)
    decreases s
  {
    if s == {} {
      order := [];
    } else {
      var k :| k in s;
      var rest := Enumerate(s - {k});
      order := [k] + rest;
    }
  }
}
