/**
 The token registration protocol, run by any number of concurrent tasks: take the lock object of the token
 from the registry, lock it, check the registry again, store the token, mark it registered and count it.
 Storing and fetching may fail at any time; an early return releases the lock.
 */
module TokenRegistration {
  import opened ErcLedger

  datatype TokenState = Registered | Registering(mutex: nat) | NotRegistered

  /** Where a task is; from `Holding` to `Marked` it holds the lock. */
  datatype Point =
    | Entry
    | Contending(mutex: nat)
    | Holding(mutex: nat)
    | Fetching(mutex: nat)
    | Stored(mutex: nat)
    | Marked(mutex: nat)
    | Returned(ok: bool)

  datatype Task = Task(token: TokenId, point: Point) {
    predicate HasMutex() {
      !point.Entry? && !point.Returned?
    }

    predicate Locks(m: nat) {
      HasMutex() && !point.Contending? && point.mutex == m
    }
  }

  /** `mutexes` and `stored` are the history of lock objects created and of tokens stored successfully. */
  datatype State = State(registry: map<TokenId, TokenState>, tasks: map<nat, Task>, supply: map<Felt, nat>,
                         nextMutex: nat, mutexes: map<nat, TokenId>, stored: set<TokenId>, counted: set<TokenId>)
  {
    ghost predicate IsRegistered(t: TokenId) {
      t in registry && registry[t] == Registered
    }

    function Goto(id: nat, p: Point): State
      requires id in tasks
    {
      this.(tasks := tasks[id := tasks[id].(point := p)])
    }

    function SupplyOf(c: Felt): nat {
      if c in supply then supply[c] else 0
    }
  }

  datatype Action = Spawn(token: TokenId) | GetMutex | Lock | Recheck | Fail | Store | Mark | Count

  ghost predicate Free(s: State, m: nat) {
    forall id :: id in s.tasks ==> !s.tasks[id].Locks(m)
  }

  ghost predicate Enabled(s: State, id: nat, a: Action) {
    match a
    case Spawn(_) => id !in s.tasks
    case GetMutex => id in s.tasks && s.tasks[id].point.Entry?
    case Lock => id in s.tasks && s.tasks[id].point.Contending? && Free(s, s.tasks[id].point.mutex)
    case Recheck => id in s.tasks && s.tasks[id].point.Holding?
    case Fail => id in s.tasks && s.tasks[id].point.Fetching?
    case Store => id in s.tasks && s.tasks[id].point.Fetching?
    case Mark => id in s.tasks && s.tasks[id].point.Stored?
    case Count => id in s.tasks && s.tasks[id].point.Marked?
  }

  ghost function Do(s: State, id: nat, a: Action): State
    requires Enabled(s, id, a)
  {
    if a.Spawn? then s.(tasks := s.tasks[id := Task(a.token, Entry)])
    else
      var token := s.tasks[id].token;
      match a
      case GetMutex =>
        if s.IsRegistered(token) then s.Goto(id, Returned(true))
        else if token in s.registry && s.registry[token].Registering?
        then s.Goto(id, Contending(s.registry[token].mutex))
        else
          var m := s.nextMutex;
          s.Goto(id, Contending(m)).(registry := s.registry[token := Registering(m)], nextMutex := m + 1,
                                     mutexes := s.mutexes[m := token])
      case Lock => s.Goto(id, Holding(s.tasks[id].point.mutex))
      case Recheck => s.Goto(id, if s.IsRegistered(token) then Returned(true) else Fetching(s.tasks[id].point.mutex))
      case Fail => s.Goto(id, Returned(false))
      case Store => s.Goto(id, Stored(s.tasks[id].point.mutex)).(stored := s.stored + {token})
      case Mark => s.Goto(id, Marked(s.tasks[id].point.mutex)).(registry := s.registry[token := Registered])
      case Count =>
        s.Goto(id, Returned(true)).(
          counted := s.counted + {token},
          supply := if token.Nft? then s.supply[token.address := s.SupplyOf(token.address) + 1] else s.supply)
  }

  ghost predicate Init(s: State) {
    && s.tasks == map[] && s.mutexes == map[] && s.stored == {} && s.counted == {} && s.supply == map[]
    && forall t :: t in s.registry ==> !s.registry[t].Registering?
  }

  // ----- The invariant -----

  /** Each token has at most one lock object, and every task of the token uses it. */
  ghost predicate MutexInv(base: set<TokenId>, s: State) {
    && (forall m :: m in s.mutexes ==> m < s.nextMutex)
    && (forall m, n :: m in s.mutexes && n in s.mutexes && s.mutexes[m] == s.mutexes[n] ==> m == n)
    && (forall m :: m in s.mutexes ==>
          s.mutexes[m] in s.registry && s.registry[s.mutexes[m]] != NotRegistered && s.mutexes[m] !in base)
    && (forall t :: t in s.registry && s.registry[t].Registering? ==>
          s.registry[t].mutex in s.mutexes && s.mutexes[s.registry[t].mutex] == t)
    && (forall id :: id in s.tasks && s.tasks[id].HasMutex() ==>
          s.tasks[id].point.mutex in s.mutexes && s.mutexes[s.tasks[id].point.mutex] == s.tasks[id].token)
  }

  /** A lock has one holder. */
  ghost predicate ExclusionInv(s: State) {
    forall i, j, m :: i in s.tasks && j in s.tasks && s.tasks[i].Locks(m) && s.tasks[j].Locks(m) ==> i == j
  }

  ghost predicate Between(s: State, t: TokenId, counting: bool) {
    exists id :: IsBetween(s, id, t, counting)
  }

  /** A task that has stored its token and not yet marked, or counted, it. */
  ghost predicate IsBetween(s: State, id: nat, t: TokenId, counting: bool) {
    id in s.tasks && s.tasks[id].token == t && (s.tasks[id].point.Stored? || (counting && s.tasks[id].point.Marked?))
  }

  /** The registered tokens are those of the start and those stored since, except for one not marked yet. */
  ghost predicate StoreInv(base: set<TokenId>, s: State) {
    && (forall t :: s.IsRegistered(t) ==> t in base || t in s.stored)
    && (forall t :: t in base ==> s.IsRegistered(t) && t !in s.stored)
    && (forall t :: t in s.stored ==> s.IsRegistered(t) || Between(s, t, false))
    && (forall id :: id in s.tasks ==> StorePoint(s, id))
  }

  ghost predicate CountInv(s: State) {
    && s.counted <= s.stored
    && (forall t :: t in s.stored && t !in s.counted ==> Between(s, t, true))
    && (forall id :: id in s.tasks && (s.tasks[id].point.Stored? || s.tasks[id].point.Marked?) ==> s.tasks[id].token !in s.counted)
    && (forall c :: s.SupplyOf(c) == |NftsOf(s.counted, c)|)
  }

  ghost predicate Inv(base: set<TokenId>, s: State) {
    MutexInv(base, s) && ExclusionInv(s) && StoreInv(base, s) && CountInv(s)
  }

  ghost function Base(s: State): set<TokenId> {
    set t | t in s.registry && s.registry[t] == Registered
  }

  lemma InitInv(s: State)
    requires Init(s)
    ensures Inv(Base(s), s)
  {
    forall c
      ensures s.SupplyOf(c) == |NftsOf(s.counted, c)|
    {
      assert NftsOf(s.counted, c) == {};
    }
  }

  lemma DoInv(base: set<TokenId>, s: State, id: nat, a: Action)
    requires Enabled(s, id, a) && Inv(base, s)
    ensures Inv(base, Do(s, id, a))
  {
    DoMutexInv(base, s, id, a);
    DoExclusionInv(base, s, id, a);
    DoStoreInv(base, s, id, a);
    DoCountInv(base, s, id, a);
  }

  // ----- Every interleaving -----

  datatype Step = Step(id: nat, action: Action)

  ghost predicate IsRun(s: State, steps: seq<Step>)
    decreases steps
  {
    steps != [] ==> Enabled(s, steps[0].id, steps[0].action) && IsRun(Do(s, steps[0].id, steps[0].action), steps[1..])
  }

  ghost function Run(s: State, steps: seq<Step>): State
    requires IsRun(s, steps)
    decreases steps
  {
    if steps == [] then s else Run(Do(s, steps[0].id, steps[0].action), steps[1..])
  }

  /** The number of times a token is stored during a run. */
  ghost function Stores(s: State, steps: seq<Step>, t: TokenId): nat
    requires IsRun(s, steps)
    decreases steps
  {
    if steps == [] then 0
    else
      (if steps[0].action == Store && s.tasks[steps[0].id].token == t then 1 else 0) +
      Stores(Do(s, steps[0].id, steps[0].action), steps[1..], t)
  }

  lemma {:induction false} RunKeepsInv(base: set<TokenId>, s: State, steps: seq<Step>)
    requires Inv(base, s) && IsRun(s, steps)
    ensures Inv(base, Run(s, steps))
    decreases steps
  {
    if steps != [] {
      DoInv(base, s, steps[0].id, steps[0].action);
      RunKeepsInv(base, Do(s, steps[0].id, steps[0].action), steps[1..]);
    }
  }

  lemma {:induction false} StoresOnce(base: set<TokenId>, s: State, steps: seq<Step>, t: TokenId)
    requires Inv(base, s) && IsRun(s, steps)
    ensures Stores(s, steps, t) == (if t in Run(s, steps).stored then 1 else 0) - (if t in s.stored then 1 else 0)
    decreases steps
  {
    if steps != [] {
      var Step(id, a) := steps[0];
      DoInv(base, s, id, a);
      OnlyStoreAndMark(s, id, a, t);
      assert a == Store ==> StorePoint(s, id);
      StoresOnce(base, Do(s, id, a), steps[1..], t);
    }
  }

  ghost predicate Quiescent(s: State) {
    forall id :: id in s.tasks ==> s.tasks[id].point.Returned?
  }

  /**
   In every interleaving each token has at most one lock object and is stored at most once, and never if
   it was registered at the start.
   */
  lemma RegisteredOnce(s: State, steps: seq<Step>, t: TokenId, m: nat, n: nat)
    requires Init(s) && IsRun(s, steps)
    ensures Stores(s, steps, t) <= if s.IsRegistered(t) then 0 else 1
    ensures var e := Run(s, steps);
            m in e.mutexes && n in e.mutexes && e.mutexes[m] == t && e.mutexes[n] == t ==> m == n
  {
    InitInv(s);
    RunKeepsInv(Base(s), s, steps);
    StoresOnce(Base(s), s, steps, t);
  }

  /**
   Once all tasks have returned, the newly registered tokens are exactly the stored ones, and the supply
   counted for a contract is the number of its newly registered NFTs.
   */
  lemma QuiescentCounts(s: State, steps: seq<Step>, c: Felt)
    requires Init(s) && IsRun(s, steps) && Quiescent(Run(s, steps))
    ensures var e := Run(s, steps);
            && Base(e) == Base(s) + e.stored && Base(s) !! e.stored
            && e.SupplyOf(c) == |NftsOf(Base(e) - Base(s), c)|
  {
    var e := Run(s, steps);
    InitInv(s);
    RunKeepsInv(Base(s), s, steps);
    forall t | t in e.stored
      ensures t in e.counted && e.IsRegistered(t)
    {
      assert !Between(e, t, false) && !Between(e, t, true);
    }
    assert e.counted == e.stored == Base(e) - Base(s);
  }

  /** A task that returned without an error has its token registered, and every stored token has a task. */
  ghost predicate ReturnInv(s: State) {
    && (forall id :: id in s.tasks && s.tasks[id].point == Returned(true) ==> s.IsRegistered(s.tasks[id].token))
    && (forall t :: t in s.stored ==> HasTask(s, t))
  }

  ghost predicate HasTask(s: State, t: TokenId) {
    exists id :: id in s.tasks && s.tasks[id].token == t
  }

  lemma TaskStays(s: State, id: nat, a: Action, t: TokenId)
    requires Enabled(s, id, a) && (HasTask(s, t) || (a == Store && s.tasks[id].token == t))
    ensures HasTask(Do(s, id, a), t)
  {
    if a == Store && s.tasks[id].token == t {
      assert Do(s, id, a).tasks[id].token == t;
    } else {
      var i :| i in s.tasks && s.tasks[i].token == t;
      assert i in Do(s, id, a).tasks && Do(s, id, a).tasks[i].token == t;
    }
  }

  lemma DoReturnInv(base: set<TokenId>, s: State, id: nat, a: Action)
    requires Enabled(s, id, a) && StoreInv(base, s) && ReturnInv(s)
    ensures ReturnInv(Do(s, id, a))
  {
    var e := Do(s, id, a);
    forall t | t in e.stored
      ensures HasTask(e, t)
    {
      TaskStays(s, id, a, t);
    }
    forall i | i in e.tasks && e.tasks[i].point == Returned(true)
      ensures e.IsRegistered(e.tasks[i].token)
    {
      assert a == Count ==> StorePoint(s, id);
      assert i in s.tasks && s.IsRegistered(s.tasks[i].token);
      OnlyStoreAndMark(s, id, a, s.tasks[i].token);
    }
  }

  lemma {:induction false} RunKeepsReturnInv(base: set<TokenId>, s: State, steps: seq<Step>)
    requires Inv(base, s) && ReturnInv(s) && IsRun(s, steps)
    ensures ReturnInv(Run(s, steps))
    decreases steps
  {
    if steps != [] {
      DoInv(base, s, steps[0].id, steps[0].action);
      DoReturnInv(base, s, steps[0].id, steps[0].action);
      RunKeepsReturnInv(base, Do(s, steps[0].id, steps[0].action), steps[1..]);
    }
  }

  // ----- Each step keeps the invariant -----

  /** Two tasks of one token that both passed the lock are the same task. */
  lemma SameTokenSameHolder(base: set<TokenId>, s: State, i: nat, j: nat)
    requires MutexInv(base, s) && ExclusionInv(s) && i in s.tasks && j in s.tasks
    requires s.tasks[i].token == s.tasks[j].token
    requires s.tasks[i].HasMutex() && !s.tasks[i].point.Contending?
    requires s.tasks[j].HasMutex() && !s.tasks[j].point.Contending?
    ensures i == j
  {
    assert s.tasks[i].Locks(s.tasks[i].point.mutex) && s.tasks[j].Locks(s.tasks[i].point.mutex);
  }

  /** Moving a task keeps the lock objects in order when the lock it carries belongs to its token. */
  lemma GotoMutexInv(base: set<TokenId>, s: State, id: nat, p: Point)
    requires MutexInv(base, s) && id in s.tasks
    requires !p.Entry? && !p.Returned? ==> p.mutex in s.mutexes && s.mutexes[p.mutex] == s.tasks[id].token
    ensures MutexInv(base, s.Goto(id, p))
  {
  }

  /** A new lock object for a token that has none. */
  lemma NewMutexInv(base: set<TokenId>, s: State, token: TokenId)
    requires MutexInv(base, s) && token !in base && (token in s.registry ==> s.registry[token] == NotRegistered)
    ensures MutexInv(base, s.(registry := s.registry[token := Registering(s.nextMutex)], nextMutex := s.nextMutex + 1,
                              mutexes := s.mutexes[s.nextMutex := token]))
  {
    assert forall m :: m in s.mutexes ==> s.mutexes[m] != token;
  }

  lemma MarkMutexInv(base: set<TokenId>, s: State, token: TokenId)
    requires MutexInv(base, s)
    ensures MutexInv(base, s.(registry := s.registry[token := Registered]))
  {
  }

  lemma GetMutexMutexInv(base: set<TokenId>, s: State, id: nat)
    requires Enabled(s, id, GetMutex) && MutexInv(base, s)
    requires forall t :: t in base ==> s.IsRegistered(t)
    ensures MutexInv(base, Do(s, id, GetMutex))
  {
    var token := s.tasks[id].token;
    if s.IsRegistered(token) {
      GotoMutexInv(base, s, id, Returned(true));
    } else if token in s.registry && s.registry[token].Registering? {
      GotoMutexInv(base, s, id, Contending(s.registry[token].mutex));
    } else {
      var m := s.nextMutex;
      NewMutexInv(base, s, token);
      var created := s.(registry := s.registry[token := Registering(m)], nextMutex := m + 1, mutexes := s.mutexes[m := token]);
      GotoMutexInv(base, created, id, Contending(m));
      assert Do(s, id, GetMutex) == created.Goto(id, Contending(m));
    }
  }

  /** Histories and counters do not matter for the lock objects. */
  lemma MutexInvFrame(base: set<TokenId>, s: State, t: State)
    requires MutexInv(base, s) && t.registry == s.registry && t.tasks == s.tasks
    requires t.mutexes == s.mutexes && t.nextMutex == s.nextMutex
    ensures MutexInv(base, t)
  {
  }

  lemma DoMutexInv(base: set<TokenId>, s: State, id: nat, a: Action)
    requires Enabled(s, id, a) && MutexInv(base, s)
    requires forall t :: t in base ==> s.IsRegistered(t)
    ensures MutexInv(base, Do(s, id, a))
  {
    var s' := Do(s, id, a);
    match a {
      case Spawn(_) =>
      case GetMutex => GetMutexMutexInv(base, s, id);
      case Mark =>
        MarkMutexInv(base, s, s.tasks[id].token);
        GotoMutexInv(base, s.(registry := s'.registry), id, s'.tasks[id].point);
      case _ =>
        GotoMutexInv(base, s, id, s'.tasks[id].point);
        MutexInvFrame(base, s.Goto(id, s'.tasks[id].point), s');
    }
  }

  /** Only `Lock` lets a task hold a lock it did not hold before, and it finds the lock free. */
  lemma HeldBefore(s: State, id: nat, a: Action, i: nat, m: nat)
    requires Enabled(s, id, a) && i in Do(s, id, a).tasks && Do(s, id, a).tasks[i].Locks(m)
    ensures (i in s.tasks && s.tasks[i].Locks(m)) || (i == id && a == Lock && Free(s, m))
  {
  }

  lemma DoExclusionInv(base: set<TokenId>, s: State, id: nat, a: Action)
    requires Enabled(s, id, a) && MutexInv(base, s) && ExclusionInv(s)
    ensures ExclusionInv(Do(s, id, a))
  {
    var s' := Do(s, id, a);
    forall i, j, m | i in s'.tasks && j in s'.tasks && s'.tasks[i].Locks(m) && s'.tasks[j].Locks(m)
      ensures i == j
    {
      HeldBefore(s, id, a, i, m);
      HeldBefore(s, id, a, j, m);
    }
  }

  /** Tasks other than the moving one keep their witness role. */
  lemma BetweenKept(s: State, id: nat, a: Action, t: TokenId, counting: bool)
    requires Enabled(s, id, a) && Between(s, t, counting)
    requires id in s.tasks && s.tasks[id].token == t ==> a == Store || (counting && a == Mark) || !(s.tasks[id].point.Stored? || s.tasks[id].point.Marked?)
    ensures Between(Do(s, id, a), t, counting)
  {
    var i :| IsBetween(s, i, t, counting);
    assert IsBetween(Do(s, id, a), i, t, counting);
  }

  /** A step changes whether a token is stored or registered only by storing or marking it. */
  lemma OnlyStoreAndMark(s: State, id: nat, a: Action, t: TokenId)
    requires Enabled(s, id, a)
    ensures t in Do(s, id, a).stored <==> t in s.stored || (a == Store && s.tasks[id].token == t)
    ensures Do(s, id, a).IsRegistered(t) <==> s.IsRegistered(t) || (a == Mark && s.tasks[id].token == t)
  {
  }

  lemma StoredTokenAt(base: set<TokenId>, s: State, id: nat, a: Action, t: TokenId)
    requires Enabled(s, id, a) && StoreInv(base, s) && t in Do(s, id, a).stored
    ensures Do(s, id, a).IsRegistered(t) || Between(Do(s, id, a), t, false)
  {
    OnlyStoreAndMark(s, id, a, t);
    if a == Store && t == s.tasks[id].token {
      assert IsBetween(Do(s, id, a), id, t, false);
    } else if !Do(s, id, a).IsRegistered(t) {
      BetweenKept(s, id, a, t, false);
    }
  }

  lemma DoStoredTokens(base: set<TokenId>, s: State, id: nat, a: Action)
    requires Enabled(s, id, a) && StoreInv(base, s)
    ensures var s' := Do(s, id, a);
            && (forall t :: s'.IsRegistered(t) ==> t in base || t in s'.stored)
            && (forall t :: t in base ==> s'.IsRegistered(t) && t !in s'.stored)
            && (forall t :: t in s'.stored ==> s'.IsRegistered(t) || Between(s', t, false))
  {
    var s' := Do(s, id, a);
    assert id in s.tasks ==> StorePoint(s, id);
    forall t
      ensures s'.IsRegistered(t) ==> t in base || t in s'.stored
      ensures t in base ==> s'.IsRegistered(t) && t !in s'.stored
      ensures t in s'.stored ==> s'.IsRegistered(t) || Between(s', t, false)
    {
      OnlyStoreAndMark(s, id, a, t);
      if t in s'.stored {
        StoredTokenAt(base, s, id, a, t);
      }
    }
  }

  ghost predicate StorePoint(s: State, i: nat)
    requires i in s.tasks
  {
    var token := s.tasks[i].token;
    && (s.tasks[i].point.Fetching? ==> !s.IsRegistered(token) && token !in s.stored)
    && (s.tasks[i].point.Stored? ==> !s.IsRegistered(token) && token in s.stored)
    && (s.tasks[i].point.Marked? ==> s.IsRegistered(token) && token in s.stored)
  }

  lemma MovedStorePoint(base: set<TokenId>, s: State, id: nat, a: Action)
    requires Enabled(s, id, a) && MutexInv(base, s) && ExclusionInv(s) && StoreInv(base, s)
    ensures StorePoint(Do(s, id, a), id)
  {
    if a == Recheck && s.tasks[id].token in s.stored && !s.IsRegistered(s.tasks[id].token) {
      assert Between(s, s.tasks[id].token, false);
      var j :| IsBetween(s, j, s.tasks[id].token, false);
      SameTokenSameHolder(base, s, id, j);
    }
  }

  lemma OtherStorePoint(base: set<TokenId>, s: State, id: nat, a: Action, i: nat)
    requires Enabled(s, id, a) && MutexInv(base, s) && ExclusionInv(s)
    requires i in s.tasks && i != id && StorePoint(s, i)
    ensures i in Do(s, id, a).tasks && StorePoint(Do(s, id, a), i)
  {
    assert Do(s, id, a).tasks[i] == s.tasks[i];
    var p := s.tasks[i].point;
    if p.Fetching? || p.Stored? || p.Marked? {
      if (a == Store || a == Mark) && s.tasks[id].token == s.tasks[i].token {
        SameTokenSameHolder(base, s, id, i);
      }
      OnlyStoreAndMark(s, id, a, s.tasks[i].token);
    }
  }

  lemma DoStoreInv(base: set<TokenId>, s: State, id: nat, a: Action)
    requires Enabled(s, id, a) && MutexInv(base, s) && ExclusionInv(s) && StoreInv(base, s)
    ensures StoreInv(base, Do(s, id, a))
  {
    DoStoredTokens(base, s, id, a);
    forall i | i in Do(s, id, a).tasks
      ensures StorePoint(Do(s, id, a), i)
    {
      if i == id {
        MovedStorePoint(base, s, id, a);
      } else {
        OtherStorePoint(base, s, id, a, i);
      }
    }
  }

  lemma CountAdds(s: State, id: nat, c: Felt)
    requires Enabled(s, id, Count) && CountInv(s)
    ensures Do(s, id, Count).SupplyOf(c) == |NftsOf(Do(s, id, Count).counted, c)|
  {
    assert s.tasks[id].token !in s.counted;
    OneMoreNft(s.counted, s.tasks[id].token, c);
    assert s.SupplyOf(c) == |NftsOf(s.counted, c)|;
  }

  lemma OneMoreNft(tokens: set<TokenId>, t: TokenId, c: Felt)
    requires t !in tokens
    ensures |NftsOf(tokens + {t}, c)| == |NftsOf(tokens, c)| + if t.Nft? && t.address == c then 1 else 0
  {
    if t.Nft? && t.address == c {
      assert NftsOf(tokens + {t}, c) == NftsOf(tokens, c) + {t};
    } else {
      assert NftsOf(tokens + {t}, c) == NftsOf(tokens, c);
    }
  }

  /** A task that still has to count its token. */
  ghost predicate Owes(s: State, i: nat) {
    i in s.tasks && (s.tasks[i].point.Stored? || s.tasks[i].point.Marked?)
  }

  lemma MovedUncounted(s: State, id: nat, a: Action)
    requires Enabled(s, id, a) && (a == Store ==> s.tasks[id].token !in s.counted)
    requires Owes(s, id) ==> s.tasks[id].token !in s.counted
    ensures Owes(Do(s, id, a), id) ==> Do(s, id, a).tasks[id].token !in Do(s, id, a).counted
  {
  }

  lemma OtherUncounted(base: set<TokenId>, s: State, id: nat, a: Action, i: nat)
    requires Enabled(s, id, a) && MutexInv(base, s) && ExclusionInv(s)
    requires Owes(Do(s, id, a), i) && i != id && (Owes(s, i) ==> s.tasks[i].token !in s.counted)
    ensures Do(s, id, a).tasks[i].token !in Do(s, id, a).counted
  {
    assert Owes(s, i) && Do(s, id, a).tasks[i] == s.tasks[i];
    if a == Count && s.tasks[i].token == s.tasks[id].token {
      SameTokenSameHolder(base, s, id, i);
    }
  }

  /** A token is not counted before its task has come to count it. */
  lemma DoUncounted(base: set<TokenId>, s: State, id: nat, a: Action)
    requires Enabled(s, id, a) && Inv(base, s)
    ensures var s' := Do(s, id, a);
            forall i :: i in s'.tasks && (s'.tasks[i].point.Stored? || s'.tasks[i].point.Marked?) ==> s'.tasks[i].token !in s'.counted
  {
    var s' := Do(s, id, a);
    StoringUncounted(base, s, id, a);
    forall i | Owes(s', i)
      ensures s'.tasks[i].token !in s'.counted
    {
      if i == id {
        MovedUncounted(s, id, a);
      } else {
        OtherUncounted(base, s, id, a, i);
      }
    }
  }

  lemma StoringUncounted(base: set<TokenId>, s: State, id: nat, a: Action)
    requires Enabled(s, id, a) && StoreInv(base, s) && CountInv(s)
    ensures a == Store ==> s.tasks[id].token !in s.counted
    ensures forall i :: Owes(s, i) ==> s.tasks[i].token !in s.counted
  {
    if a == Store {
      assert StorePoint(s, id);
    }
  }

  lemma DoCountInv(base: set<TokenId>, s: State, id: nat, a: Action)
    requires Enabled(s, id, a) && Inv(base, s)
    ensures CountInv(Do(s, id, a))
  {
    var s' := Do(s, id, a);
    forall t | t in s'.stored && t !in s'.counted
      ensures Between(s', t, true)
    {
      if a == Store && t == s.tasks[id].token {
        assert IsBetween(s', id, t, true);
      } else {
        BetweenKept(s, id, a, t, true);
      }
    }
    DoUncounted(base, s, id, a);
    if a == Count {
      forall c
        ensures s'.SupplyOf(c) == |NftsOf(s'.counted, c)|
      {
        CountAdds(s, id, c);
      }
    }
  }
}
