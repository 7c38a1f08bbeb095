/**
 The task manager: one task per identifier, each with a queue of historical events and a linked map that
 keeps only the latest event per key.
 */
module TaskManagers {
  import opened Results
  import opened AcyclicDigraphMaps
  import opened TaskNetworks

  type TaskId = nat
  type EventKey = nat

  datatype IndexingMode = Historical | Latest(key: EventKey)

  datatype ParallelizedEvent<P> = ParallelizedEvent(mode: IndexingMode, payload: P)

  /** `latest` is the linked map in link order; inserting an existing key moves it to the back. */
  datatype TaskData<P> = TaskData(events: seq<ParallelizedEvent<P>>, latest: seq<(EventKey, ParallelizedEvent<P>)>)

  function Without<P>(entries: seq<(EventKey, P)>, key: EventKey): seq<(EventKey, P)> {
    if entries == [] then []
    else (if entries[0].0 == key then [] else [entries[0]]) + Without(entries[1..], key)
  }

  function Absorb<P>(d: TaskData<P>, e: ParallelizedEvent<P>): TaskData<P> {
    match e.mode
    case Latest(key) => d.(latest := Without(d.latest, key) + [(key, e)])
    case Historical => d.(events := d.events + [e])
  }

  /** The events in the order in which the handler of a task goes through them. */
  function Visits<P>(d: TaskData<P>): seq<ParallelizedEvent<P>> {
    d.events + seq(|d.latest|, i requires 0 <= i < |d.latest| => d.latest[i].1)
  }

  // ----- Arrivals -----

  /** One call, with the order in which tasks waiting for a new task happen to be iterated. */
  datatype Arrival<P> = Arrival(task: TaskId, dependencies: seq<TaskId>, event: ParallelizedEvent<P>,
                                order: seq<TaskId>)

  ghost function Data<P>(n: Network<TaskId, TaskData<P>>, task: TaskId): TaskData<P>
    requires n.tasks.WellFormed()
  {
    if task in n.tasks.index then n.tasks.values[n.tasks.index[task]] else TaskData([], [])
  }

  /** Refused dependencies are only logged: the event is stored either way. */
  ghost function Add<P>(n: Network<TaskId, TaskData<P>>, a: Arrival<P>): Network<TaskId, TaskData<P>>
    requires n.tasks.WellFormed()
  {
    var d := Absorb(Data(n, a.task), a.event);
    if a.task in n.tasks.index
    then n.(tasks := n.tasks.SetValue(a.task, d)).AddDependencies(a.task, a.dependencies).0
    else n.AddTask(a.task, d, a.dependencies, a.order).0
  }

  ghost predicate ArrivesFor<P>(arrivals: seq<Arrival<P>>, task: TaskId) {
    exists a :: a in arrivals && a.task == task
  }

  ghost predicate IsHistory<P>(states: seq<Network<TaskId, TaskData<P>>>, arrivals: seq<Arrival<P>>) {
    && |states| == |arrivals| + 1
    && states[0] == Network(Empty(), map[])
    && forall i :: 0 <= i < |arrivals| ==> Follows(states[i], arrivals[i], states[i + 1])
  }

  ghost predicate Follows<P>(n: Network<TaskId, TaskData<P>>, a: Arrival<P>, m: Network<TaskId, TaskData<P>>) {
    n.tasks.WellFormed() && Enumerates(a.order, n.Waiting(a.task)) && m == Add(n, a)
  }

  // ----- The reference: filters over the whole arrival sequence -----

  ghost function HistoricalOf<P>(arrivals: seq<Arrival<P>>, task: TaskId): seq<ParallelizedEvent<P>> {
    if arrivals == [] then []
    else
      HistoricalAt(arrivals[0], task) + HistoricalOf(arrivals[1..], task)
  }

  ghost predicate Supersedes<P>(later: Arrival<P>, earlier: Arrival<P>) {
    later.task == earlier.task && later.event.mode == earlier.event.mode && earlier.event.mode.Latest?
  }

  ghost predicate Superseded<P>(a: Arrival<P>, later: seq<Arrival<P>>) {
    exists b :: b in later && Supersedes(b, a)
  }

  ghost function Kept<P>(a: Arrival<P>, later: seq<Arrival<P>>, task: TaskId): seq<(EventKey, ParallelizedEvent<P>)> {
    if a.task == task && a.event.mode.Latest? && !Superseded(a, later) then [(a.event.mode.key, a.event)] else []
  }

  /** The latest-only events of a task that no later arrival with the same key replaces, in arrival order. */
  ghost function LatestOf<P>(arrivals: seq<Arrival<P>>, task: TaskId): seq<(EventKey, ParallelizedEvent<P>)> {
    if arrivals == [] then [] else Kept(arrivals[0], arrivals[1..], task) + LatestOf(arrivals[1..], task)
  }

  ghost function HistoricalAt<P>(a: Arrival<P>, task: TaskId): seq<ParallelizedEvent<P>> {
    if a.task == task && a.event.mode == Historical then [a.event] else []
  }

  lemma SupersededSnoc<P>(a: Arrival<P>, later: seq<Arrival<P>>, b: Arrival<P>)
    ensures Superseded(a, later + [b]) <==> Superseded(a, later) || Supersedes(b, a)
  {
    if Supersedes(b, a) {
      assert b in later + [b];
    }
    if c :| c in later && Supersedes(c, a) {
      assert c in later + [b];
    }
  }

  lemma {:induction false} WithoutConcat<P>(s: seq<(EventKey, P)>, t: seq<(EventKey, P)>, key: EventKey)
    ensures Without(s + t, key) == Without(s, key) + Without(t, key)
  {
    if s == [] {
      assert s + t == t;
    } else {
      assert (s + t)[1..] == s[1..] + t;
      WithoutConcat(s[1..], t, key);
    }
  }

  /** A new arrival drops an earlier one exactly when it has the same key. */
  lemma KeptSnoc<P>(head: Arrival<P>, later: seq<Arrival<P>>, a: Arrival<P>, task: TaskId)
    ensures Kept(head, later + [a], task) ==
            if a.task == task && a.event.mode.Latest? then Without(Kept(head, later, task), a.event.mode.key)
            else Kept(head, later, task)
  {
    SupersededSnoc(head, later, a);
    var kept := Kept(head, later, task);
    if kept != [] {
      assert kept[1..] == [];
    }
  }

  lemma {:induction false} HistoricalSnoc<P>(arrivals: seq<Arrival<P>>, a: Arrival<P>, task: TaskId)
    ensures HistoricalOf(arrivals + [a], task) == HistoricalOf(arrivals, task) + HistoricalAt(a, task)
  {
    var all := arrivals + [a];
    if arrivals == [] {
      assert all[1..] == [] && HistoricalOf(all[1..], task) == [];
    } else {
      assert all[0] == arrivals[0] && all[1..] == arrivals[1..] + [a];
      HistoricalSnoc(arrivals[1..], a, task);
    }
  }

  lemma {:induction false} LatestSnoc<P>(arrivals: seq<Arrival<P>>, a: Arrival<P>, task: TaskId)
    ensures LatestOf(arrivals + [a], task) ==
            if a.task == task && a.event.mode.Latest?
            then Without(LatestOf(arrivals, task), a.event.mode.key) + [(a.event.mode.key, a.event)]
            else LatestOf(arrivals, task)
  {
    var all := arrivals + [a];
    if arrivals == [] {
      assert all[1..] == [] && LatestOf(all[1..], task) == [];
      assert !Superseded(a, []);
    } else {
      var head, rest := arrivals[0], arrivals[1..];
      assert all[0] == head && all[1..] == rest + [a];
      LatestSnoc(rest, a, task);
      KeptSnoc(head, rest, a, task);
      if a.task == task && a.event.mode.Latest? {
        WithoutConcat(Kept(head, rest, task), LatestOf(rest, task), a.event.mode.key);
      }
    }
  }

  /** One arrival changes only the data of its own task, whether or not its dependencies are accepted. */
  lemma AddStores<P>(n: Network<TaskId, TaskData<P>>, a: Arrival<P>, task: TaskId)
    requires n.Sound() && Enumerates(a.order, n.Waiting(a.task))
    ensures Add(n, a).Sound()
    ensures task in Add(n, a).tasks.index <==> task in n.tasks.index || task == a.task
    ensures Data(Add(n, a), task) == if task == a.task then Absorb(Data(n, task), a.event) else Data(n, task)
  {
    var d := Absorb(Data(n, a.task), a.event);
    if a.task in n.tasks.index {
      ReplaceWellFormed(n.tasks, a.task, d);
      AddDependenciesTracks(n.(tasks := n.tasks.SetValue(a.task, d)), a.task, a.dependencies);
    } else {
      AddTaskTracks(n, a.task, d, a.dependencies, a.order);
    }
  }

  /**
   For every arrival sequence, the data of a task is its historical events in arrival order together with
   its latest-only events reduced to the last arrival per key, in order of that last arrival.
   */
  lemma {:induction false} EveryArrivalSequence<P>(states: seq<Network<TaskId, TaskData<P>>>,
                                                   arrivals: seq<Arrival<P>>, task: TaskId)
    requires IsHistory(states, arrivals)
    ensures states[|arrivals|].Sound()
    ensures task in states[|arrivals|].tasks.index <==> ArrivesFor(arrivals, task)
    ensures Data(states[|arrivals|], task) == TaskData(HistoricalOf(arrivals, task), LatestOf(arrivals, task))
    decreases |arrivals|
  {
    if arrivals == [] {
      EmptyWellFormed<TaskId, TaskData<P>>();
    } else {
      var last := |arrivals| - 1;
      var front, a := arrivals[..last], arrivals[last];
      assert arrivals == front + [a];
      var earlier := states[..last + 1];
      forall i | 0 <= i < |front|
        ensures Follows(earlier[i], front[i], earlier[i + 1])
      {
        assert Follows(states[i], arrivals[i], states[i + 1]);
      }
      EveryArrivalSequence(earlier, front, task);
      assert Follows(states[last], arrivals[last], states[last + 1]);
      AddStores(states[last], a, task);
      Snoc(front, a, task);
    }
  }

  lemma Snoc<P>(arrivals: seq<Arrival<P>>, a: Arrival<P>, task: TaskId)
    ensures ArrivesFor(arrivals + [a], task) <==> ArrivesFor(arrivals, task) || a.task == task
    ensures var before := TaskData(HistoricalOf(arrivals, task), LatestOf(arrivals, task));
            TaskData(HistoricalOf(arrivals + [a], task), LatestOf(arrivals + [a], task)) ==
            if a.task == task then Absorb(before, a.event) else before
  {
    HistoricalSnoc(arrivals, a, task);
    LatestSnoc(arrivals, a, task);
    if b :| b in arrivals && b.task == task {
      assert b in arrivals + [a];
    }
    assert a in arrivals + [a];
  }

  ghost function EventsOf<P>(entries: seq<(EventKey, ParallelizedEvent<P>)>): seq<ParallelizedEvent<P>> {
    seq(|entries|, i requires 0 <= i < |entries| => entries[i].1)
  }

  /** After any arrivals, the handler of a task goes through its historical events and then its latest ones. */
  lemma HandlerVisits<P>(states: seq<Network<TaskId, TaskData<P>>>, arrivals: seq<Arrival<P>>, task: TaskId)
    requires IsHistory(states, arrivals)
    ensures states[|arrivals|].tasks.WellFormed()
    ensures Visits(Data(states[|arrivals|], task)) == HistoricalOf(arrivals, task) + EventsOf(LatestOf(arrivals, task))
  {
    EveryArrivalSequence(states, arrivals, task);
  }

  /** The arrival at `j` stands for the one at `i`: it is the same, or a later one with the same key. */
  ghost predicate StandsFor<P>(arrivals: seq<Arrival<P>>, j: nat, i: nat) {
    i <= j < |arrivals| && (i == j || Supersedes(arrivals[j], arrivals[i]))
  }

  /** The event that arrived at `j` is among those its task holds. */
  ghost predicate IsHeld<P>(arrivals: seq<Arrival<P>>, j: nat) {
    && j < |arrivals|
    && match arrivals[j].event.mode
       case Historical => arrivals[j].event in HistoricalOf(arrivals, arrivals[j].task)
       case Latest(key) => (key, arrivals[j].event) in LatestOf(arrivals, arrivals[j].task)
  }

  lemma {:induction false} NotSupersededIsKept<P>(arrivals: seq<Arrival<P>>, i: nat)
    requires i < |arrivals| && !Superseded(arrivals[i], arrivals[i + 1..])
    ensures IsHeld(arrivals, i)
    decreases i
  {
    if i > 0 {
      assert arrivals[1..][i - 1 + 1..] == arrivals[i + 1..];
      NotSupersededIsKept(arrivals[1..], i - 1);
    }
  }

  /** No event is lost: its task holds it, or a later one with the same key that replaces it. */
  lemma {:induction false} NoEventIsLost<P>(arrivals: seq<Arrival<P>>, i: nat)
    requires i < |arrivals|
    ensures exists j: nat :: StandsFor(arrivals, j, i) && IsHeld(arrivals, j)
    decreases |arrivals| - i
  {
    if Superseded(arrivals[i], arrivals[i + 1..]) {
      var k := SupersededAt(arrivals, i);
      NoEventIsLost(arrivals, k);
      var j: nat :| StandsFor(arrivals, j, k) && IsHeld(arrivals, j);
      assert StandsFor(arrivals, j, i);
    } else {
      NotSupersededIsKept(arrivals, i);
      assert StandsFor(arrivals, i, i);
    }
  }

  lemma SupersededAt<P>(arrivals: seq<Arrival<P>>, i: nat) returns (k: nat)
    requires i < |arrivals| && Superseded(arrivals[i], arrivals[i + 1..])
    ensures i < k < |arrivals| && Supersedes(arrivals[k], arrivals[i])
  {
    var b :| b in arrivals[i + 1..] && Supersedes(b, arrivals[i]);
    var n :| 0 <= n < |arrivals[i + 1..]| && arrivals[i + 1..][n] == b;
    k := i + 1 + n;
  }

  // ----- The handler and the mutable manager -----

  /** What a processor does with an event: whether it accepts it, wants it, and handles it without an error. */
  datatype Processor<!P> = Processor(validates: ParallelizedEvent<P> -> bool, shouldProcess: ParallelizedEvent<P> -> bool,
                                     succeeds: ParallelizedEvent<P> -> bool)

  /** The processors registered for the contract type and the first key of an event, if any. */
  type Lookup<!P> = ParallelizedEvent<P> -> Option<seq<Processor<P>>>

  /** `NoProcessor` is the panic when processors are registered and none accepts the event. */
  datatype Outcome = Skipped | Processed | ProcessorFailed | NoProcessor {
    predicate Stops() {
      this == ProcessorFailed || this == NoProcessor
    }

    predicate Ran() {
      this == Processed || this == ProcessorFailed
    }
  }

  /** Processor `i` is the first that accepts the event. */
  ghost predicate Chosen<P>(processors: seq<Processor<P>>, e: ParallelizedEvent<P>, i: nat) {
    i < |processors| && processors[i].validates(e) && forall j :: 0 <= j < i ==> !processors[j].validates(e)
  }

  function FirstAccepting<P>(processors: seq<Processor<P>>, e: ParallelizedEvent<P>): (r: Option<nat>)
    ensures r.None? <==> forall i :: 0 <= i < |processors| ==> !processors[i].validates(e)
    ensures r.Some? ==> Chosen(processors, e, r.value)
  {
    if processors == [] then None
    else if processors[0].validates(e) then Some(0)
    else match FirstAccepting(processors[1..], e) case None => None case Some(i) => Some(i + 1)
  }

  /** What becomes of an event, told by the processors registered for it. */
  ghost predicate IsOutcome<P>(lookup: Lookup<P>, e: ParallelizedEvent<P>, o: Outcome) {
    match lookup(e)
    case None => o == Skipped
    case Some(processors) =>
      match o
      case NoProcessor => forall i :: 0 <= i < |processors| ==> !processors[i].validates(e)
      case Skipped => exists i: nat :: Chosen(processors, e, i) && !processors[i].shouldProcess(e)
      case Processed =>
        exists i: nat :: Chosen(processors, e, i) && processors[i].shouldProcess(e) && processors[i].succeeds(e)
      case ProcessorFailed =>
        exists i: nat :: Chosen(processors, e, i) && processors[i].shouldProcess(e) && !processors[i].succeeds(e)
  }

  function Dispatch<P>(lookup: Lookup<P>, e: ParallelizedEvent<P>): (o: Outcome)
    ensures IsOutcome(lookup, e, o)
  {
    match lookup(e)
    case None => Skipped
    case Some(processors) =>
      match FirstAccepting(processors, e)
      case None => NoProcessor
      case Some(i) =>
        if !processors[i].shouldProcess(e) then Skipped else if processors[i].succeeds(e) then Processed else ProcessorFailed
  }

  /** An event has one outcome. */
  lemma OutcomeIsUnique<P>(lookup: Lookup<P>, e: ParallelizedEvent<P>, o: Outcome)
    ensures IsOutcome(lookup, e, o) <==> o == Dispatch(lookup, e)
  {
  }

  /** The events on which a processor is run, in order. */
  function RanOn<P>(lookup: Lookup<P>, events: seq<ParallelizedEvent<P>>): seq<ParallelizedEvent<P>> {
    if events == [] then []
    else
      var last := events[|events| - 1];
      RanOn(lookup, events[..|events| - 1]) + if Dispatch(lookup, last).Ran() then [last] else []
  }

  lemma RanOnSnoc<P>(lookup: Lookup<P>, events: seq<ParallelizedEvent<P>>, e: ParallelizedEvent<P>)
    ensures RanOn(lookup, events + [e]) == RanOn(lookup, events) + if Dispatch(lookup, e).Ran() then [e] else []
  {
    assert (events + [e])[..|events|] == events;
  }

  /** Finds the processor of an event and runs it. */
  method RunProcessor<P>(lookup: Lookup<P>, e: ParallelizedEvent<P>) returns (o: Outcome)
    ensures o == Dispatch(lookup, e) && IsOutcome(lookup, e, o)
  {
    var processors := lookup(e);
    if processors.None? {
      return Skipped;
    }
    var found := FirstAccepting(processors.value, e);
    if found.None? {
      return NoProcessor;
    }
    var processor := processors.value[found.value];
    if !processor.shouldProcess(e) {
      return Skipped;
    }
    o := if processor.succeeds(e) then Processed else ProcessorFailed;
  }

  /** A processor runs on exactly the events that it processes or fails on. */
  lemma {:induction false} RanOnMembers<P>(lookup: Lookup<P>, events: seq<ParallelizedEvent<P>>, e: ParallelizedEvent<P>)
    ensures e in RanOn(lookup, events) <==>
            e in events && (IsOutcome(lookup, e, Processed) || IsOutcome(lookup, e, ProcessorFailed))
  {
    OutcomeIsUnique(lookup, e, Processed);
    OutcomeIsUnique(lookup, e, ProcessorFailed);
    if events != [] {
      var last := |events| - 1;
      assert events == events[..last] + [events[last]];
      RanOnMembers(lookup, events[..last], e);
    }
  }

  /** The handler goes on after an event that was skipped or processed. */
  ghost predicate GoesOn<P>(lookup: Lookup<P>, e: ParallelizedEvent<P>) {
    IsOutcome(lookup, e, Skipped) || IsOutcome(lookup, e, Processed)
  }

  /**
   Goes through the events of a task one after the other, runs the first processor that accepts each, and stops
   right after the first failure or panic.
   */
  method HandleTask<P>(d: TaskData<P>, lookup: Lookup<P>)
    returns (visited: seq<ParallelizedEvent<P>>, ran: seq<ParallelizedEvent<P>>, last: Outcome)
    ensures visited <= Visits(d) && ran == RanOn(lookup, visited)
    ensures last == Skipped || last == Processed ==>
              visited == Visits(d) && forall i :: 0 <= i < |visited| ==> GoesOn(lookup, visited[i])
    ensures last == ProcessorFailed || last == NoProcessor ==>
              visited != [] && IsOutcome(lookup, visited[|visited| - 1], last)
    ensures forall i :: 0 <= i < |visited| - 1 ==> GoesOn(lookup, visited[i])
  {
    var queue := Visits(d);
    visited, ran, last := [], [], Skipped;
    for i := 0 to |queue|
      invariant visited == queue[..i] && ran == RanOn(lookup, visited)
      invariant forall j :: 0 <= j < i ==> GoesOn(lookup, queue[j])
      invariant !last.Stops()
    {
      last := RunProcessor(lookup, queue[i]);
      RanOnSnoc(lookup, visited, queue[i]);
      visited := visited + [queue[i]];
      if last.Ran() {
        ran := ran + [queue[i]];
      }
      if last.Stops() {
        return;
      }
      assert GoesOn(lookup, queue[i]);
    }
  }

  class TaskManager<P> {
    const taskNetwork: TaskNetwork<TaskId, TaskData<P>>

    ghost predicate Valid()
      reads this, taskNetwork, taskNetwork.tasks
    {
      taskNetwork.Valid()
    }

    ghost function View(): Network<TaskId, TaskData<P>>
      reads this, taskNetwork, taskNetwork.tasks
    {
      taskNetwork.View()
    }

    constructor ()
      ensures Valid() && View() == Network(Empty(), map[])
    {
      taskNetwork := new TaskNetwork<TaskId, TaskData<P>>();
    }

    method AddParallelizedEventWithDependencies(task: TaskId, dependencies: seq<TaskId>, event: ParallelizedEvent<P>)
      returns (ghost order: seq<TaskId>)
      requires Valid()
      modifies taskNetwork, taskNetwork.tasks
      ensures Valid() && Enumerates(order, old(View()).Waiting(task))
      ensures View() == Add(old(View()), Arrival(task, dependencies, event, order))
    {
      var found := taskNetwork.tasks.Get(task);
      match found {
        case Some(data) =>
          order := Enumerate(View().Waiting(task));
          taskNetwork.SetTask(task, Absorb(data, event));
          var r := taskNetwork.AddDependencies(task, dependencies);
        case None =>
          var r;
          r, order := taskNetwork.AddTaskWithDependencies(task, Absorb(TaskData([], []), event), dependencies);
      }
    }
  }
}
