/**
 Progress of the token registration protocol: a token that is not registered can always still be, no state is
 a deadlock, and without new tasks every run comes to an end.
 */
module RegistrationProgress {
  import opened ErcLedger
  import opened TokenRegistration

  /** The effect of one task registering its token while all others stand still. */
  ghost predicate Registers(s: State, e: State, id: nat, t: TokenId) {
    e.IsRegistered(t) && t in e.stored && e.tasks == s.tasks[id := Task(t, Returned(true))]
  }

  lemma StoredRegisters(s: State, id: nat) returns (steps: seq<Step>)
    requires id in s.tasks && s.tasks[id].point.Stored? && s.tasks[id].token in s.stored
    ensures IsRun(s, steps) && Registers(s, Run(s, steps), id, s.tasks[id].token)
  {
    var s1 := Do(s, id, Mark);
    var s2 := Do(s1, id, Count);
    var none: seq<Step> := [];
    assert IsRun(s2, none) && Run(s2, none) == s2;
    steps := Prepend(s1, Step(id, Count), none);
    steps := Prepend(s, Step(id, Mark), steps);
  }

  lemma FetchedRegisters(s: State, id: nat) returns (steps: seq<Step>)
    requires id in s.tasks && s.tasks[id].point.Fetching?
    ensures IsRun(s, steps) && Registers(s, Run(s, steps), id, s.tasks[id].token)
  {
    steps := StoredRegisters(Do(s, id, Store), id);
    steps := Prepend(s, Step(id, Store), steps);
  }

  lemma HolderRegisters(s: State, id: nat) returns (steps: seq<Step>)
    requires Enabled(s, id, Recheck) && !s.IsRegistered(s.tasks[id].token)
    ensures IsRun(s, steps) && Registers(s, Run(s, steps), id, s.tasks[id].token)
  {
    steps := FetchedRegisters(Do(s, id, Recheck), id);
    steps := Prepend(s, Step(id, Recheck), steps);
  }

  lemma ContenderRegisters(s: State, id: nat) returns (steps: seq<Step>)
    requires Enabled(s, id, Lock) && !s.IsRegistered(s.tasks[id].token)
    ensures IsRun(s, steps) && Registers(s, Run(s, steps), id, s.tasks[id].token)
  {
    steps := HolderRegisters(Do(s, id, Lock), id);
    steps := Prepend(s, Step(id, Lock), steps);
  }

  ghost predicate PastLock(s: State, i: nat, t: TokenId) {
    i in s.tasks && s.tasks[i].token == t && s.tasks[i].HasMutex() && !s.tasks[i].point.Contending?
  }

  /** A lock that no task of its token has passed is free. */
  lemma LockIsFree(base: set<TokenId>, s: State, id: nat)
    requires MutexInv(base, s) && id in s.tasks && s.tasks[id].point.Contending?
    requires forall i :: !PastLock(s, i, s.tasks[id].token)
    ensures Enabled(s, id, Lock)
  {
    var m := s.tasks[id].point.mutex;
    forall i | i in s.tasks
      ensures !s.tasks[i].Locks(m)
    {
      assert !PastLock(s, i, s.tasks[id].token);
    }
  }

  lemma PassedRegisters(base: set<TokenId>, s: State, i: nat, t: TokenId) returns (steps: seq<Step>)
    requires StoreInv(base, s) && PastLock(s, i, t) && !s.IsRegistered(t)
    ensures IsRun(s, steps) && Registers(s, Run(s, steps), i, t)
  {
    assert StorePoint(s, i);
    match s.tasks[i].point {
      case Holding(_) => steps := HolderRegisters(s, i);
      case Fetching(_) => steps := FetchedRegisters(s, i);
      case Stored(_) => steps := StoredRegisters(s, i);
    }
  }

  lemma {:induction false} FreshId(ids: set<nat>) returns (id: nat)
    ensures forall i :: i in ids ==> i < id
  {
    id := 0;
    if ids != {} {
      var i :| i in ids;
      var rest := FreshId(ids - {i});
      id := if rest > i then rest else i + 1;
      assert forall j :: j in ids ==> j == i || j in ids - {i};
    }
  }

  ghost function Entered(s: State, id: nat, t: TokenId): State
    requires id !in s.tasks
  {
    Do(Do(s, id, Spawn(t)), id, GetMutex)
  }

  lemma EnteredIsContender(s: State, id: nat, t: TokenId)
    requires id !in s.tasks && !s.IsRegistered(t) && forall i :: !PastLock(s, i, t)
    ensures var e := Entered(s, id, t);
            && id in e.tasks && e.tasks == s.tasks[id := e.tasks[id]] && e.tasks[id].token == t
            && e.tasks[id].point.Contending? && !e.IsRegistered(t) && forall i :: !PastLock(e, i, t)
  {
    var spawned := Do(s, id, Spawn(t));
    assert spawned.tasks[id] == Task(t, Entry) && !spawned.IsRegistered(t);
    forall i
      ensures !PastLock(Entered(s, id, t), i, t)
    {
      assert !PastLock(s, i, t);
    }
  }

  lemma EnteredMutexInv(base: set<TokenId>, s: State, id: nat, t: TokenId)
    requires MutexInv(base, s) && id !in s.tasks && forall b :: b in base ==> s.IsRegistered(b)
    ensures MutexInv(base, Entered(s, id, t))
  {
    DoMutexInv(base, s, id, Spawn(t));
    DoMutexInv(base, Do(s, id, Spawn(t)), id, GetMutex);
  }

  /** A new task gets the lock when no task of the token has passed it. */
  lemma NewcomerRegisters(base: set<TokenId>, s: State, id: nat, t: TokenId) returns (steps: seq<Step>)
    requires MutexInv(base, s) && forall b :: b in base ==> s.IsRegistered(b)
    requires id !in s.tasks && !s.IsRegistered(t) && forall i :: !PastLock(s, i, t)
    ensures IsRun(s, steps) && Registers(s, Run(s, steps), id, t)
  {
    EnteredIsContender(s, id, t);
    EnteredMutexInv(base, s, id, t);
    steps := FreeContenderRegisters(base, Entered(s, id, t), id, t);
    RegistersFrom(s, Entered(s, id, t), Run(Entered(s, id, t), steps), id, t);
    steps := PrependEntry(s, id, t, steps);
  }

  lemma FreeContenderRegisters(base: set<TokenId>, s: State, id: nat, t: TokenId) returns (steps: seq<Step>)
    requires MutexInv(base, s) && id in s.tasks && s.tasks[id].token == t && s.tasks[id].point.Contending?
    requires !s.IsRegistered(t) && forall i :: !PastLock(s, i, t)
    ensures IsRun(s, steps) && Registers(s, Run(s, steps), id, t)
  {
    LockIsFree(base, s, id);
    steps := ContenderRegisters(s, id);
  }

  lemma RegistersFrom(s: State, entered: State, e: State, id: nat, t: TokenId)
    requires id in entered.tasks && entered.tasks == s.tasks[id := entered.tasks[id]] && Registers(entered, e, id, t)
    ensures Registers(s, e, id, t)
  {
  }

  lemma PrependEntry(s: State, id: nat, t: TokenId, rest: seq<Step>) returns (steps: seq<Step>)
    requires id !in s.tasks && IsRun(Entered(s, id, t), rest)
    ensures IsRun(s, steps) && Run(s, steps) == Run(Entered(s, id, t), rest)
  {
    steps := Prepend(Do(s, id, Spawn(t)), Step(id, GetMutex), rest);
    steps := Prepend(s, Step(id, Spawn(t)), steps);
  }

  /**
   Whatever failed before and whoever waits, a token that is not registered can still be: some task, one that
   passed the lock, a waiting one or a new one, registers it while all others stand still.
   */
  lemma RetrySucceeds(base: set<TokenId>, s: State, t: TokenId) returns (steps: seq<Step>, id: nat)
    requires Inv(base, s) && !s.IsRegistered(t)
    ensures IsRun(s, steps) && Registers(s, Run(s, steps), id, t)
    ensures id in s.tasks ==> s.tasks[id].token == t && s.tasks[id].HasMutex()
    ensures Quiescent(s) ==> Quiescent(Run(s, steps))
  {
    if i :| PastLock(s, i, t) {
      id := i;
      steps := PassedRegisters(base, s, i, t);
    } else if i :| i in s.tasks && s.tasks[i].token == t && s.tasks[i].point.Contending? {
      id := i;
      steps := FreeContenderRegisters(base, s, i, t);
    } else {
      id := FreshId(s.tasks.Keys);
      steps := NewcomerRegisters(base, s, id, t);
    }
  }

  // ----- Progress -----

  /** While some task has not returned, some task can take a step: there is no deadlock. */
  lemma NeverDeadlocked(s: State)
    ensures !Quiescent(s) <==> exists id, a: Action :: !a.Spawn? && Enabled(s, id, a)
  {
    if id, a: Action :| !a.Spawn? && Enabled(s, id, a) {
      assert !s.tasks[id].point.Returned?;
    }
    if id :| id in s.tasks && !s.tasks[id].point.Returned? {
      if s.tasks[id].point.Contending? && !Free(s, s.tasks[id].point.mutex) {
        var j :| j in s.tasks && s.tasks[j].Locks(s.tasks[id].point.mutex);
        OwnStep(s, j);
      } else {
        OwnStep(s, id);
      }
    }
  }

  lemma OwnStep(s: State, id: nat)
    requires id in s.tasks && !s.tasks[id].point.Returned?
    requires s.tasks[id].point.Contending? ==> Free(s, s.tasks[id].point.mutex)
    ensures exists a: Action :: !a.Spawn? && Enabled(s, id, a)
  {
    var a := match s.tasks[id].point
      case Entry => GetMutex
      case Contending(_) => Lock
      case Holding(_) => Recheck
      case Fetching(_) => Store
      case Stored(_) => Mark
      case Marked(_) => Count;
    assert !a.Spawn? && Enabled(s, id, a);
  }

  /** The most steps a task can still take. */
  ghost function StepsLeft(p: Point): nat {
    match p
    case Entry => 6 case Contending(_) => 5 case Holding(_) => 4 case Fetching(_) => 3
    case Stored(_) => 2 case Marked(_) => 1 case Returned(_) => 0
  }

  ghost function Work(tasks: map<nat, Task>): nat
    decreases tasks.Keys
  {
    if tasks.Keys == {} then 0
    else
      var id := Pick(tasks.Keys);
      StepsLeft(tasks[id].point) + Work(tasks - {id})
  }

  lemma {:induction false} WorkWithout(tasks: map<nat, Task>, id: nat)
    requires id in tasks
    ensures Work(tasks) == StepsLeft(tasks[id].point) + Work(tasks - {id})
    decreases tasks.Keys
  {
    var first := Pick(tasks.Keys);
    if first != id {
      WorkWithout(tasks - {first}, id);
      WorkWithout(tasks - {id}, first);
      assert tasks - {first} - {id} == tasks - {id} - {first};
    }
  }

  lemma StepLowersWork(s: State, id: nat, a: Action)
    requires Enabled(s, id, a) && !a.Spawn?
    ensures Work(Do(s, id, a).tasks) < Work(s.tasks)
  {
    var after := Do(s, id, a).tasks;
    WorkWithout(s.tasks, id);
    WorkWithout(after, id);
    assert after - {id} == s.tasks - {id};
    PointAdvances(s, id, a);
  }

  lemma PointAdvances(s: State, id: nat, a: Action)
    requires Enabled(s, id, a) && !a.Spawn?
    ensures id in Do(s, id, a).tasks && StepsLeft(Do(s, id, a).tasks[id].point) < StepsLeft(s.tasks[id].point)
  {
  }

  /** Without new tasks a run is bounded by the work left at its start, so it ends with every task returned. */
  lemma {:induction false} RunIsBounded(s: State, steps: seq<Step>)
    requires IsRun(s, steps) && forall i :: 0 <= i < |steps| ==> !steps[i].action.Spawn?
    ensures |steps| + Work(Run(s, steps).tasks) <= Work(s.tasks)
    decreases steps
  {
    if steps != [] {
      StepLowersWork(s, steps[0].id, steps[0].action);
      RunIsBounded(Do(s, steps[0].id, steps[0].action), steps[1..]);
    }
  }

  lemma Prepend(s: State, first: Step, rest: seq<Step>) returns (steps: seq<Step>)
    requires Enabled(s, first.id, first.action) && IsRun(Do(s, first.id, first.action), rest)
    ensures steps == [first] + rest && IsRun(s, steps)
    ensures Run(s, steps) == Run(Do(s, first.id, first.action), rest)
  {
    steps := [first] + rest;
    assert steps[1..] == rest;
  }
}
