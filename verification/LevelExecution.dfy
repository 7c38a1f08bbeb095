/**
 Parallel execution of a task network, as a transition system. All tasks of a level are spawned at once;
 each takes a permit, runs its handler and finishes; the next level is spawned only when every handle of
 the current one has been joined and none of them failed.
 */
module LevelExecution {
  import opened Digraph
  import opened AcyclicDigraphMaps
  import opened TaskNetworks

  datatype Event<K> = Started(key: K) | Finished(key: K, ok: bool)

  datatype Phase = Working | Succeeded | Failed

  datatype Status = Waiting | Running | Done | Broken

  /** `status` holds every task spawned so far; a waiting task has not obtained its permit yet. */
  datatype State<K(==)> = State(level: nat, status: map<K, Status>, permits: nat, phase: Phase,
                                trace: seq<Event<K>>)
  {
    ghost function With(x: Status): set<K> {
      set k | k in status && status[k] == x
    }
  }

  ghost function Members<K>(s: seq<K>): set<K> {
    set k | k in s
  }

  /** The tasks of the first `l` levels. */
  ghost function Below<K>(levels: seq<seq<K>>, l: nat): set<K>
    requires l <= |levels|
  {
    set m: nat, k | m < l && k in levels[m] :: k
  }

  lemma BelowNext<K>(levels: seq<seq<K>>, l: nat)
    requires l < |levels|
    ensures Below(levels, l + 1) == Below(levels, l) + Members(levels[l])
  {
    forall k | k in Below(levels, l) + Members(levels[l])
      ensures k in Below(levels, l + 1)
    {
      var m: nat :| m <= l && k in levels[m];
    }
  }

  ghost function Spawn<K>(s: State<K>, tasks: seq<K>): State<K> {
    s.(status := s.status + map k | k in tasks :: Waiting)
  }

  ghost function Init<K>(levels: seq<seq<K>>, max: nat): State<K> {
    if levels == [] then State(0, map[], max, Succeeded, [])
    else Spawn(State(0, map[], max, Working, []), levels[0])
  }

  ghost predicate Acquire<K>(s: State<K>, t: State<K>, k: K) {
    && s.phase == Working && k in s.status && s.status[k] == Waiting && s.permits > 0
    && t == s.(status := s.status[k := Running], permits := s.permits - 1, trace := s.trace + [Started(k)])
  }

  ghost predicate Finish<K>(s: State<K>, t: State<K>, k: K, ok: bool) {
    && s.phase == Working && k in s.status && s.status[k] == Running
    && t == s.(status := s.status[k := if ok then Done else Broken], permits := s.permits + 1,
               trace := s.trace + [Finished(k, ok)])
  }

  /** All handles of the level are joined. */
  ghost predicate Joined<K>(s: State<K>) {
    s.phase == Working && forall k :: k in s.status ==> s.status[k] != Waiting && s.status[k] != Running
  }

  ghost predicate AnyBroken<K>(s: State<K>) {
    exists k :: k in s.status && s.status[k] == Broken
  }

  ghost predicate Advance<K>(levels: seq<seq<K>>, s: State<K>, t: State<K>) {
    && Joined(s) && !AnyBroken(s)
    && t == if s.level + 1 < |levels| then Spawn(s.(level := s.level + 1), levels[s.level + 1])
            else s.(level := s.level + 1, phase := Succeeded)
  }

  ghost predicate Abort<K>(s: State<K>, t: State<K>) {
    Joined(s) && AnyBroken(s) && t == s.(phase := Failed)
  }

  ghost predicate Next<K(!new)>(levels: seq<seq<K>>, s: State<K>, t: State<K>) {
    || (exists k :: Acquire(s, t, k))
    || (exists k, ok :: Finish(s, t, k, ok))
    || Advance(levels, s, t)
    || Abort(s, t)
  }

  ghost predicate IsRun<K(!new)>(levels: seq<seq<K>>, max: nat, run: seq<State<K>>) {
    && run != []
    && run[0] == Init(levels, max)
    && forall i :: 0 <= i < |run| - 1 ==> Next(levels, run[i], run[i + 1])
  }

  /** No level is empty and every task sits on one level only. */
  ghost predicate Layered<K(!new)>(levels: seq<seq<K>>) {
    && (forall l :: 0 <= l < |levels| ==> levels[l] != [])
    && (forall l, m, k :: 0 <= l < |levels| && 0 <= m < |levels| && k in levels[l] && k in levels[m] ==> l == m)
  }

  // ----- The invariant -----

  ghost predicate Bookkeeping<K>(levels: seq<seq<K>>, s: State<K>) {
    && s.level <= |levels|
    && (s.phase == Succeeded <==> s.level == |levels|)
    && s.status.Keys == Below(levels, if s.level < |levels| then s.level + 1 else s.level)
    && (forall k :: k in Below(levels, s.level) ==> k in s.status && s.status[k] == Done)
    && (s.phase != Working ==> forall k :: k in s.status ==> s.status[k] != Waiting && s.status[k] != Running)
    && (s.phase == Failed ==> AnyBroken(s))
  }

  /** The trace records exactly the starts and finishes, each once. */
  ghost predicate Recorded<K(!new)>(s: State<K>) {
    && (forall k :: Started(k) in s.trace <==> k in s.status && s.status[k] != Waiting)
    && (forall k :: Finished(k, true) in s.trace <==> k in s.status && s.status[k] == Done)
    && (forall k :: Finished(k, false) in s.trace <==> k in s.status && s.status[k] == Broken)
    && (forall i, j :: 0 <= i < j < |s.trace| ==> s.trace[i] != s.trace[j])
  }

  ghost predicate Before<K>(trace: seq<Event<K>>, i: nat, e: Event<K>) {
    exists j :: 0 <= j < i && j < |trace| && trace[j] == e
  }

  /** A start is preceded by the successful finish of every task on a lower level. */
  ghost predicate Barrier<K(!new)>(levels: seq<seq<K>>, trace: seq<Event<K>>) {
    forall i: nat, l: nat, d ::
      i < |trace| && l < |levels| && trace[i].Started? && trace[i].key in levels[l] && d in Below(levels, l)
      ==> Before(trace, i, Finished(d, true))
  }

  /** A failure is never followed by a start on a later level. */
  ghost predicate NoStartAfterFailure<K>(levels: seq<seq<K>>, trace: seq<Event<K>>) {
    forall i: nat, j: nat, l: nat ::
      (i < j < |trace| && l < |levels| && trace[i].Finished? && !trace[i].ok && trace[i].key in Below(levels, l)
       && trace[j].Started?) ==> trace[j].key !in levels[l]
  }

  ghost predicate Inv<K(!new)>(levels: seq<seq<K>>, max: nat, s: State<K>) {
    && s.permits + |s.With(Running)| == max
    && Bookkeeping(levels, s)
    && Recorded(s)
    && Barrier(levels, s.trace)
    && NoStartAfterFailure(levels, s.trace)
  }

  lemma BarrierExtends<K(!new)>(levels: seq<seq<K>>, trace: seq<Event<K>>, e: Event<K>)
    requires Barrier(levels, trace)
    requires e.Started? ==> forall l: nat, d :: l < |levels| && e.key in levels[l] && d in Below(levels, l)
                                                ==> Finished(d, true) in trace
    ensures Barrier(levels, trace + [e])
  {
    var longer := trace + [e];
    forall i: nat, l: nat, d | i < |longer| && l < |levels| && longer[i].Started? && longer[i].key in levels[l]
                               && d in Below(levels, l)
      ensures Before(longer, i, Finished(d, true))
    {
      if i < |trace| {
        assert Before(trace, i, Finished(d, true));
        var j :| 0 <= j < i && j < |trace| && trace[j] == Finished(d, true);
        assert longer[j] == Finished(d, true);
      } else {
        var j :| 0 <= j < |trace| && trace[j] == Finished(d, true);
        assert longer[j] == Finished(d, true);
      }
    }
  }

  lemma NoStartExtends<K>(levels: seq<seq<K>>, trace: seq<Event<K>>, e: Event<K>)
    requires NoStartAfterFailure(levels, trace)
    requires e.Started? ==> forall l: nat, f :: f in trace && f.Finished? && !f.ok && l < |levels| && f.key in Below(levels, l)
                                                ==> e.key !in levels[l]
    ensures NoStartAfterFailure(levels, trace + [e])
  {
    var longer := trace + [e];
    forall i: nat, j: nat, l: nat | i < j < |longer| && l < |levels| && longer[i].Finished? && !longer[i].ok
                                    && longer[i].key in Below(levels, l) && longer[j].Started?
      ensures longer[j].key !in levels[l]
    {
      assert longer[i] == trace[i] && trace[i] in trace;
    }
  }

  lemma RecordedExtends<K(!new)>(s: State<K>, t: State<K>, k: K, e: Event<K>)
    requires Recorded(s) && k in s.status && e.key == k && t.trace == s.trace + [e]
    requires e.Started? ==> s.status[k] == Waiting && t.status == s.status[k := Running]
    requires e.Finished? ==> s.status[k] == Running && t.status == s.status[k := if e.ok then Done else Broken]
    ensures Recorded(t)
  {
    assert e !in s.trace by {
      if e.Finished? {
        assert e == Finished(k, e.ok);
      } else {
        assert e == Started(k);
      }
    }
    forall x
      ensures x in t.trace <==> x in s.trace || x == e
    {
    }
  }

  lemma AcquireBarrier<K(!new)>(levels: seq<seq<K>>, s: State<K>, k: K)
    requires Layered(levels) && Bookkeeping(levels, s) && Recorded(s)
    requires k in s.status && s.status[k] == Waiting && s.level < |levels|
    requires Barrier(levels, s.trace) && NoStartAfterFailure(levels, s.trace)
    ensures Barrier(levels, s.trace + [Started(k)]) && NoStartAfterFailure(levels, s.trace + [Started(k)])
  {
    BelowNext(levels, s.level);
    assert k in levels[s.level];
    forall f | f in s.trace && f.Finished? && !f.ok
      ensures f.key !in Below(levels, s.level)
    {
      assert f == Finished(f.key, false);
    }
    BarrierExtends(levels, s.trace, Started(k));
    NoStartExtends(levels, s.trace, Started(k));
  }

  /** A change of one spawned task of the current level keeps the bookkeeping. */
  lemma MoveBookkeeping<K>(levels: seq<seq<K>>, s: State<K>, t: State<K>, k: K, x: Status)
    requires Bookkeeping(levels, s) && s.phase == Working && k in s.status && s.status[k] != Done
    requires t.status == s.status[k := x] && t.level == s.level && t.phase == s.phase
    ensures Bookkeeping(levels, t)
  {
    assert t.status.Keys == s.status.Keys;
  }

  lemma MoveRunning<K>(s: State<K>, t: State<K>, k: K, x: Status)
    requires k in s.status && t.status == s.status[k := x] && (s.status[k] == Running) != (x == Running)
    ensures |t.With(Running)| == |s.With(Running)| + if x == Running then 1 else -1
  {
    if x == Running {
      assert t.With(Running) == s.With(Running) + {k};
    } else {
      assert k in s.With(Running);
      assert t.With(Running) == s.With(Running) - {k};
    }
  }

  lemma AcquireInv<K(!new)>(levels: seq<seq<K>>, max: nat, s: State<K>, t: State<K>, k: K)
    requires Layered(levels) && Inv(levels, max, s) && Acquire(s, t, k)
    ensures Inv(levels, max, t)
  {
    MoveBookkeeping(levels, s, t, k, Running);
    AcquireBarrier(levels, s, k);
    RecordedExtends(s, t, k, Started(k));
    MoveRunning(s, t, k, Running);
  }

  lemma FinishInv<K(!new)>(levels: seq<seq<K>>, max: nat, s: State<K>, t: State<K>, k: K, ok: bool)
    requires Layered(levels) && Inv(levels, max, s) && Finish(s, t, k, ok)
    ensures Inv(levels, max, t)
  {
    MoveBookkeeping(levels, s, t, k, if ok then Done else Broken);
    BarrierExtends(levels, s.trace, Finished(k, ok));
    NoStartExtends(levels, s.trace, Finished(k, ok));
    RecordedExtends(s, t, k, Finished(k, ok));
    MoveRunning(s, t, k, if ok then Done else Broken);
  }

  lemma SpawnBookkeeping<K(!new)>(levels: seq<seq<K>>, s: State<K>, t: State<K>)
    requires Layered(levels) && Bookkeeping(levels, s) && Joined(s) && !AnyBroken(s) && s.level + 1 < |levels|
    requires t == Spawn(s.(level := s.level + 1), levels[s.level + 1])
    ensures Bookkeeping(levels, t)
    ensures forall k :: k in s.status ==> k in t.status && t.status[k] == s.status[k]
    ensures forall k :: k in t.status && k !in s.status ==> t.status[k] == Waiting
  {
    var next := s.level + 1;
    BelowNext(levels, next);
    assert t.status.Keys == Below(levels, next + 1);
    forall k | k in s.status
      ensures k !in levels[next]
    {
      assert forall m: nat :: m < next && k in levels[m] ==> k !in levels[next];
    }
  }

  lemma AdvanceBookkeeping<K(!new)>(levels: seq<seq<K>>, s: State<K>, t: State<K>)
    requires Layered(levels) && Bookkeeping(levels, s) && Advance(levels, s, t)
    ensures Bookkeeping(levels, t) && t.With(Running) == s.With(Running)
    ensures forall k :: k in s.status ==> k in t.status && t.status[k] == s.status[k]
    ensures forall k :: k in t.status && k !in s.status ==> t.status[k] == Waiting
  {
    if s.level + 1 < |levels| {
      SpawnBookkeeping(levels, s, t);
    }
  }

  lemma SpawnRecorded<K(!new)>(s: State<K>, t: State<K>)
    requires Recorded(s) && t.trace == s.trace
    requires forall k :: k in s.status ==> k in t.status && t.status[k] == s.status[k]
    requires forall k :: k in t.status && k !in s.status ==> t.status[k] == Waiting
    ensures Recorded(t)
  {
    forall k
      ensures Started(k) in t.trace <==> k in t.status && t.status[k] != Waiting
      ensures Finished(k, true) in t.trace <==> k in t.status && t.status[k] == Done
      ensures Finished(k, false) in t.trace <==> k in t.status && t.status[k] == Broken
    {
    }
  }

  lemma AdvanceInv<K(!new)>(levels: seq<seq<K>>, max: nat, s: State<K>, t: State<K>)
    requires Layered(levels) && Inv(levels, max, s) && Advance(levels, s, t)
    ensures Inv(levels, max, t)
  {
    AdvanceBookkeeping(levels, s, t);
    SpawnRecorded(s, t);
  }

  lemma AbortBookkeeping<K>(levels: seq<seq<K>>, s: State<K>, t: State<K>)
    requires Bookkeeping(levels, s) && Abort(s, t)
    ensures Bookkeeping(levels, t) && t.With(Running) == s.With(Running)
  {
    assert AnyBroken(t);
  }

  lemma {:induction false} RunInv<K(!new)>(levels: seq<seq<K>>, max: nat, run: seq<State<K>>, i: nat)
    requires Layered(levels) && IsRun(levels, max, run) && i < |run|
    ensures Inv(levels, max, run[i])
  {
    if i == 0 {
      assert run[0].With(Running) == {};
      if levels != [] {
        BelowNext(levels, 0);
      }
    } else {
      RunInv(levels, max, run, i - 1);
      NextInv(levels, max, run[i - 1], run[i]);
    }
  }

  lemma NextInv<K(!new)>(levels: seq<seq<K>>, max: nat, s: State<K>, t: State<K>)
    requires Layered(levels) && Inv(levels, max, s) && Next(levels, s, t)
    ensures Inv(levels, max, t)
  {
    if k :| Acquire(s, t, k) {
      AcquireInv(levels, max, s, t, k);
    } else if k, ok :| Finish(s, t, k, ok) {
      FinishInv(levels, max, s, t, k, ok);
    } else if Advance(levels, s, t) {
      AdvanceInv(levels, max, s, t);
    } else {
      AbortBookkeeping(levels, s, t);
      SpawnRecorded(s, t);
    }
  }

  // ----- Safety of every run over a levelled graph -----

  ghost function KeyLevels<K, V>(levels: seq<seq<(K, V)>>): seq<seq<K>> {
    seq(|levels|, l requires 0 <= l < |levels| => Keys(levels[l]))
  }

  ghost function Keys<K, V>(level: seq<(K, V)>): seq<K> {
    seq(|level|, i requires 0 <= i < |level| => level[i].0)
  }

  lemma KeyedLevelIsLongestPath<K, V>(g: Graph<K, V>, levels: seq<seq<(K, V)>>, l: nat, k: K)
    requires IsLevelling(g, levels) && l < |levels|
    ensures k in KeyLevels(levels)[l] ==> k in g.index && LongestPathTo(g.edges, g.index[k], l)
  {
    if k in KeyLevels(levels)[l] {
      var i :| 0 <= i < |levels[l]| && Keys(levels[l])[i] == k;
      assert PlacedRight(g, levels[l][i], l);
    }
  }

  lemma KeyHasLevel<K, V>(g: Graph<K, V>, levels: seq<seq<(K, V)>>, k: K) returns (l: nat)
    requires IsLevelling(g, levels) && k in g.index
    ensures l < |levels| && k in KeyLevels(levels)[l] && LongestPathTo(g.edges, g.index[k], l)
  {
    assert Placed(levels, k);
    var m, i :| 0 <= m < |levels| && 0 <= i < |levels[m]| && levels[m][i].0 == k;
    l := m;
    assert Keys(levels[l])[i] == k;
    KeyedLevelIsLongestPath(g, levels, l, k);
  }

  lemma LevellingIsLayered<K(!new), V>(g: Graph<K, V>, levels: seq<seq<(K, V)>>)
    requires IsLevelling(g, levels)
    ensures Layered(KeyLevels(levels))
  {
    var keyed := KeyLevels(levels);
    forall l, m, k | 0 <= l < |keyed| && 0 <= m < |keyed| && k in keyed[l] && k in keyed[m]
      ensures l == m
    {
      KeyedLevelIsLongestPath(g, levels, l, k);
      KeyedLevelIsLongestPath(g, levels, m, k);
      LongestPathUnique(g.edges, g.index[k], l, m);
    }
    forall l | 0 <= l < |keyed|
      ensures keyed[l] != []
    {
      assert levels[l] != [];
    }
  }

  lemma LevelsHoldAllKeys<K(!new), V>(g: Graph<K, V>, levels: seq<seq<(K, V)>>, k: K)
    requires IsLevelling(g, levels)
    ensures k in Below(KeyLevels(levels), |levels|) <==> k in g.index
  {
    if k in g.index {
      var l := KeyHasLevel(g, levels, k);
    } else if k in Below(KeyLevels(levels), |levels|) {
      var l: nat :| l < |levels| && k in KeyLevels(levels)[l];
      KeyedLevelIsLongestPath(g, levels, l, k);
    }
  }

  /** A transitive dependency sits on a strictly lower level. */
  lemma DependencyIsLower<K, V>(g: Graph<K, V>, k: K, d: K, l: nat, m: nat)
    requires g.WellFormed() && g.DependsOn(k, d) && k != d
    requires LongestPathTo(g.edges, g.index[d], l) && LongestPathTo(g.edges, g.index[k], m)
    ensures l < m
  {
    var p :| IsPath(g.edges, p) && p[|p| - 1] == g.index[d] && |p| == l + 1;
    var q :| PathFromTo(g.edges, q, g.index[d], g.index[k]);
    assert |q| > 1;
    var longer := p + q[1..];
    assert IsPath(g.edges, longer) && longer[|longer| - 1] == g.index[k];
  }

  /** Every start comes after the successful finish of all transitive dependencies of the task. */
  ghost predicate RespectsDependencies<K(!new), V>(g: Graph<K, V>, trace: seq<Event<K>>) {
    forall i: nat, d ::
      i < |trace| && trace[i].Started? && g.DependsOn(trace[i].key, d) && d != trace[i].key
      ==> Before(trace, i, Finished(d, true))
  }

  /** In every interleaving, a task starts only after all its transitive dependencies finished successfully. */
  lemma StartsAfterDependencies<K(!new), V>(g: Graph<K, V>, levels: seq<seq<(K, V)>>, max: nat, run: seq<State<K>>, n: nat)
    requires g.WellFormed() && IsLevelling(g, levels) && IsRun(KeyLevels(levels), max, run) && n < |run|
    ensures RespectsDependencies(g, run[n].trace)
  {
    var keyed, trace := KeyLevels(levels), run[n].trace;
    LevellingIsLayered(g, levels);
    RunInv(keyed, max, run, n);
    forall i: nat, d | i < |trace| && trace[i].Started? && g.DependsOn(trace[i].key, d) && d != trace[i].key
      ensures Before(trace, i, Finished(d, true))
    {
      LowerFinishedBefore(g, levels, trace, i, d);
    }
  }

  lemma LowerFinishedBefore<K(!new), V>(g: Graph<K, V>, levels: seq<seq<(K, V)>>, trace: seq<Event<K>>, i: nat, d: K)
    requires g.WellFormed() && IsLevelling(g, levels) && Barrier(KeyLevels(levels), trace)
    requires i < |trace| && trace[i].Started? && g.DependsOn(trace[i].key, d) && d != trace[i].key
    ensures Before(trace, i, Finished(d, true))
  {
    var m := KeyHasLevel(g, levels, trace[i].key);
    var l := KeyHasLevel(g, levels, d);
    DependencyIsLower(g, trace[i].key, d, l, m);
    assert d in Below(KeyLevels(levels), m);
  }

  /** A task that starts after a failure is not on a later level than the failed task. */
  ghost predicate StopsAfterFailure<K, V>(g: Graph<K, V>, trace: seq<Event<K>>) {
    forall i: nat, j: nat, l: nat, m: nat ::
      (i < j < |trace| && trace[i].Finished? && !trace[i].ok && trace[j].Started?
       && trace[i].key in g.index && LongestPathTo(g.edges, g.index[trace[i].key], l)
       && trace[j].key in g.index && LongestPathTo(g.edges, g.index[trace[j].key], m)) ==> m <= l
  }

  /** Once a task fails, nothing on a later level ever starts. */
  lemma FailureStopsLaterLevels<K(!new), V>(g: Graph<K, V>, levels: seq<seq<(K, V)>>, max: nat, run: seq<State<K>>, n: nat)
    requires g.WellFormed() && IsLevelling(g, levels) && IsRun(KeyLevels(levels), max, run) && n < |run|
    ensures StopsAfterFailure(g, run[n].trace)
  {
    var keyed, trace := KeyLevels(levels), run[n].trace;
    LevellingIsLayered(g, levels);
    RunInv(keyed, max, run, n);
    forall i: nat, j: nat, l: nat, m: nat |
      i < j < |trace| && trace[i].Finished? && !trace[i].ok && trace[j].Started?
      && trace[i].key in g.index && LongestPathTo(g.edges, g.index[trace[i].key], l)
      && trace[j].key in g.index && LongestPathTo(g.edges, g.index[trace[j].key], m)
      ensures m <= l
    {
      var l' := KeyHasLevel(g, levels, trace[i].key);
      var m' := KeyHasLevel(g, levels, trace[j].key);
      LongestPathUnique(g.edges, g.index[trace[i].key], l, l');
      LongestPathUnique(g.edges, g.index[trace[j].key], m, m');
    }
  }

  /**
   In every state the free permits and the running handlers add up to the configured maximum, and no
   event happens twice; a successful run has finished every task of the graph, a failed one has not.
   */
  lemma RunAccounts<K(!new), V>(g: Graph<K, V>, levels: seq<seq<(K, V)>>, max: nat, run: seq<State<K>>, n: nat)
    requires g.WellFormed() && IsLevelling(g, levels) && IsRun(KeyLevels(levels), max, run) && n < |run|
    ensures run[n].permits + |run[n].With(Running)| == max
    ensures forall i, j :: 0 <= i < j < |run[n].trace| ==> run[n].trace[i] != run[n].trace[j]
    ensures run[n].phase == Succeeded ==> forall k :: k in g.index <==> Finished(k, true) in run[n].trace
    ensures run[n].phase == Failed ==> exists k :: k in g.index && Finished(k, false) in run[n].trace
  {
    var keyed := KeyLevels(levels);
    LevellingIsLayered(g, levels);
    RunInv(keyed, max, run, n);
    FinalStates(g, levels, run[n]);
  }

  lemma FinalStates<K(!new), V>(g: Graph<K, V>, levels: seq<seq<(K, V)>>, s: State<K>)
    requires IsLevelling(g, levels) && Bookkeeping(KeyLevels(levels), s) && Recorded(s)
    ensures s.phase == Succeeded ==> forall k :: k in g.index <==> Finished(k, true) in s.trace
    ensures s.phase == Failed ==> exists k :: k in g.index && Finished(k, false) in s.trace
  {
    if s.phase == Succeeded {
      forall k
        ensures k in g.index <==> Finished(k, true) in s.trace
      {
        LevelsHoldAllKeys(g, levels, k);
      }
    } else if s.phase == Failed {
      var k :| k in s.status && s.status[k] == Broken;
      assert Finished(k, false) in s.trace;
      LevelsHoldAllKeys(g, levels, k);
    }
  }

  // ----- Termination -----

  ghost function Future<K>(levels: seq<seq<K>>, from: nat): nat
    decreases |levels| - from
  {
    if from >= |levels| then 0 else |levels[from]| + Future(levels, from + 1)
  }

  /** Every task counts twice until it starts and once while it runs; every joined level counts once. */
  ghost function Measure<K>(levels: seq<seq<K>>, s: State<K>): nat {
    if s.phase != Working || s.level >= |levels| then 0
    else 2 * (|s.With(Waiting)| + Future(levels, s.level + 1)) + |s.With(Running)| + |levels| - s.level
  }

  lemma {:induction false} MembersAtMost<K>(s: seq<K>)
    ensures |Members(s)| <= |s|
  {
    if s == [] {
      assert Members(s) == {};
    } else {
      var last := |s| - 1;
      MembersAtMost(s[..last]);
      assert Members(s) == Members(s[..last]) + {s[last]};
    }
  }

  lemma AdvanceSpawnsLevel<K(!new)>(levels: seq<seq<K>>, s: State<K>, t: State<K>)
    requires Layered(levels) && Bookkeeping(levels, s) && Advance(levels, s, t) && s.level + 1 < |levels|
    ensures t.With(Waiting) == Members(levels[s.level + 1]) && t.With(Running) == {}
  {
    AdvanceBookkeeping(levels, s, t);
    forall k | k in levels[s.level + 1]
      ensures k in t.status && t.status[k] == Waiting
    {
    }
  }

  lemma NextLevelDecreases<K>(levels: seq<seq<K>>, s: State<K>, t: State<K>)
    requires s.phase == Working && t.phase == Working && t.level == s.level + 1 < |levels|
    requires t.With(Waiting) == Members(levels[t.level]) && t.With(Running) == {}
    ensures Measure(levels, t) < Measure(levels, s)
  {
    MembersAtMost(levels[t.level]);
    assert Future(levels, t.level) == |levels[t.level]| + Future(levels, t.level + 1);
  }

  lemma AdvanceDecreases<K(!new)>(levels: seq<seq<K>>, s: State<K>, t: State<K>)
    requires Layered(levels) && Bookkeeping(levels, s) && Advance(levels, s, t)
    ensures Measure(levels, t) < Measure(levels, s)
  {
    if s.level + 1 < |levels| {
      AdvanceSpawnsLevel(levels, s, t);
      NextLevelDecreases(levels, s, t);
    }
  }

  lemma HandlerDecreases<K(!new)>(levels: seq<seq<K>>, s: State<K>, t: State<K>, k: K)
    requires s.level < |levels| && (Acquire(s, t, k) || exists ok :: Finish(s, t, k, ok))
    ensures Measure(levels, t) < Measure(levels, s)
  {
    if Acquire(s, t, k) {
      assert t.With(Running) == s.With(Running) + {k} && k in s.With(Waiting);
      assert t.With(Waiting) == s.With(Waiting) - {k};
    } else {
      assert t.With(Running) == s.With(Running) - {k} && k in s.With(Running);
      assert t.With(Waiting) == s.With(Waiting);
    }
  }

  lemma NextDecreases<K(!new)>(levels: seq<seq<K>>, max: nat, s: State<K>, t: State<K>)
    requires Layered(levels) && Inv(levels, max, s) && Next(levels, s, t)
    ensures Measure(levels, t) < Measure(levels, s)
  {
    if k :| Acquire(s, t, k) {
      HandlerDecreases(levels, s, t, k);
    } else if k, ok :| Finish(s, t, k, ok) {
      HandlerDecreases(levels, s, t, k);
    } else if Advance(levels, s, t) {
      AdvanceDecreases(levels, s, t);
    }
  }

  /** Every run ends after a number of steps fixed by its first state. */
  lemma {:induction false} RunIsBounded<K(!new)>(levels: seq<seq<K>>, max: nat, run: seq<State<K>>, i: nat)
    requires Layered(levels) && IsRun(levels, max, run) && i < |run|
    ensures i + Measure(levels, run[i]) <= Measure(levels, Init(levels, max))
  {
    if i > 0 {
      RunIsBounded(levels, max, run, i - 1);
      RunInv(levels, max, run, i - 1);
      NextDecreases(levels, max, run[i - 1], run[i]);
    }
  }

  lemma HandlerCanMove<K(!new)>(levels: seq<seq<K>>, s: State<K>, k: K)
    requires s.phase == Working && k in s.status && s.permits + |s.With(Running)| > 0
    requires s.status[k] == Running || (s.status[k] == Waiting && forall j :: j in s.status ==> s.status[j] != Running)
    ensures exists t :: Next(levels, s, t)
  {
    if s.status[k] == Running {
      var t := s.(status := s.status[k := Done], permits := s.permits + 1, trace := s.trace + [Finished(k, true)]);
      assert Finish(s, t, k, true);
      assert Next(levels, s, t);
    } else {
      assert s.With(Running) == {};
      var t := s.(status := s.status[k := Running], permits := s.permits - 1, trace := s.trace + [Started(k)]);
      assert Acquire(s, t, k);
      assert Next(levels, s, t);
    }
  }

  lemma JoinedCanMove<K(!new)>(levels: seq<seq<K>>, s: State<K>)
    requires Joined(s)
    ensures exists t :: Next(levels, s, t)
  {
    if AnyBroken(s) {
      assert Next(levels, s, s.(phase := Failed));
    } else if s.level + 1 < |levels| {
      assert Next(levels, s, Spawn(s.(level := s.level + 1), levels[s.level + 1]));
    } else {
      assert Next(levels, s, s.(level := s.level + 1, phase := Succeeded));
    }
  }

  /** With at least one permit a run can only stop by returning. */
  lemma NeverStuck<K(!new)>(levels: seq<seq<K>>, max: nat, s: State<K>)
    requires s.permits + |s.With(Running)| == max > 0
    ensures s.phase == Working <==> exists t :: Next(levels, s, t)
  {
    if s.phase == Working {
      if k :| k in s.status && s.status[k] == Running {
        HandlerCanMove(levels, s, k);
      } else if k :| k in s.status && s.status[k] == Waiting {
        HandlerCanMove(levels, s, k);
      } else {
        JoinedCanMove(levels, s);
      }
    }
  }

  /** Without permits a non-empty network never takes a step. */
  lemma NoPermitsNoStep<K(!new)>(levels: seq<seq<K>>, t: State<K>)
    requires Layered(levels) && levels != []
    ensures !Next(levels, Init(levels, 0), t)
  {
    var s := Init(levels, 0);
    assert levels[0][0] in s.status;
    assert forall k :: k in s.status ==> s.status[k] == Waiting;
  }

  // ----- The whole call -----

  /**
   One call on network `n`: a network without tasks returns at once; otherwise some run over its levels comes
   to an end, and only a successful one clears the network. The call answers `ok` and leaves `m` behind.
   */
  ghost predicate IsCall<K(!new), T>(n: Network<K, T>, levels: seq<seq<(K, T)>>, max: nat, run: seq<State<K>>,
                                     ok: bool, m: Network<K, T>)
  {
    if n.tasks.values == [] then ok && m == n
    else
      && IsLevelling(n.tasks, levels) && IsRun(KeyLevels(levels), max, run)
      && run[|run| - 1].phase != Working
      && ok == (run[|run| - 1].phase == Succeeded)
      && m == if ok then Network(Empty(), map[]) else n
  }

  /**
   A call that answers Ok has run every task to success and leaves no task behind; it leaves nothing deferred
   exactly when the network had a task or nothing was deferred. A call that fails leaves the network alone
   and one of its tasks has failed.
   */
  lemma SuccessLeavesNothingIff<K(!new), T>(n: Network<K, T>, levels: seq<seq<(K, T)>>, max: nat, run: seq<State<K>>,
                                            ok: bool, m: Network<K, T>)
    requires n.tasks.WellFormed() && IsCall(n, levels, max, run, ok, m)
    ensures ok ==> m.tasks.index == map[] && m.tasks.values == []
    ensures ok ==> (m.pending == map[] <==> n.tasks.index != map[] || n.pending == map[])
    ensures ok ==> forall k :: k in n.tasks.index ==> run != [] && Finished(k, true) in run[|run| - 1].trace
    ensures !ok ==> m == n && run != []
    ensures !ok ==> exists k :: k in n.tasks.index && Finished(k, false) in run[|run| - 1].trace
  {
    EmptyIff(n.tasks);
    if n.tasks.values != [] {
      RunAccounts(n.tasks, levels, max, run, |run| - 1);
    }
  }

  lemma EmptyIff<K(!new), V>(g: Graph<K, V>)
    requires g.WellFormed()
    ensures g.values == [] <==> g.index == map[]
  {
    assert forall k :: k in g.index ==> g.index[k] < |g.values|;
    if g.values != [] {
      assert HasKeyFor(g.index, 0);
    }
  }

  /** Where every waiting task exists, success leaves nothing at all. */
  lemma SoundSuccessLeavesNothing<K(!new), T>(n: Network<K, T>, levels: seq<seq<(K, T)>>, max: nat, run: seq<State<K>>,
                                              m: Network<K, T>)
    requires n.Sound() && IsCall(n, levels, max, run, true, m)
    ensures m.tasks.index == map[] && m.pending == map[]
  {
    SuccessLeavesNothingIff(n, levels, max, run, true, m);
    if n.pending != map[] {
      var f :| f in n.pending;
      var t :| t in n.pending[f];
      assert t in n.tasks.index;
    }
  }

  /** The early return answers Ok and leaves a dependency deferred for an absent task behind. */
  lemma EarlyReturnLeavesDeferred(max: nat, ok: bool, m: Network<nat, bool>)
    requires IsCall(Step(Nothing(), Call.AddDependencies(1, [0])).network, [], max, [], ok, m)
    ensures ok && m.tasks.index == map[] && m.pending == map[0 := {1}]
  {
    DeferredForUnknown(0, 1);
  }
}
