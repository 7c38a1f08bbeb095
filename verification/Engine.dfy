/**
 The indexing loop: fetch a segment of the chain, process it against the pending transaction, then commit;
 on a processing error roll everything back and retry the same segment. Processing is a sequence of small
 steps that may fail between any two of them.
 */
module Engine {
  import opened Results
  import opened SignedMagnitude
  import opened ErcLedger
  import opened Sequences

  /** A registered model, as far as it matters here: a name for its current version. */
  type Model = nat

  /** One view of the storage; `cursor` is the length of the processed chain prefix, `models` maps selectors. */
  datatype Store = Store(values: map<Entry, nat>, tokens: set<TokenId>, models: map<Felt, Model>, cursor: nat) {
    function ValueOf(e: Entry): nat {
      if e in values then values[e] else 0
    }
  }

  const EMPTY_STORE := Store(map[], {}, map[], 0)

  ghost function Entries(d: Diffs): set<Entry> {
    (set id | id in d.balances :: Balance(id)) + (set k | k in d.supplies :: Supply(k))
  }

  /**
   The stored value after a diff. A balance that would become negative is replaced by the value queried
   from the chain, a negative supply by zero.
   */
  ghost function Adjusted(current: nat, e: Entry, x: I256, rpc: Entry -> nat): nat {
    if x.negative then
      if current < x.value then (if e.Balance? then rpc(e) else 0) else current - x.value
    else current + x.value
  }

  /** `None` is an overflow abort. */
  ghost function ApplyDiffs(s: Store, d: Diffs, rpc: Entry -> nat): Option<Store> {
    if exists e :: e in Entries(d) && !d.Get(e).value.negative && s.ValueOf(e) + d.Get(e).value.value >= LIMIT then None
    else Some(s.(values := s.values + map e | e in Entries(d) :: Adjusted(s.ValueOf(e), e, d.Get(e).value, rpc)))
  }

  // ----- What a chain prefix amounts to -----

  function TokensOf(t: Transfer): set<TokenId> {
    {Contract(t.token.address), t.token}
  }

  function TokensOfAll(ts: seq<Transfer>): set<TokenId> {
    if ts == [] then {} else TokensOfAll(ts[..|ts| - 1]) + TokensOf(ts[|ts| - 1])
  }

  /** Registering an NFT adds one to its contract. */
  function RegistrationUpdates(t: TokenId): seq<Update> {
    if t.Nft? then UpdatesOf(Transfer(Contract(t.address), 0, 1, 1)) else []
  }

  ghost function RegistrationNet(tokens: set<TokenId>, e: Entry): int {
    match e
    case Supply(Contract(c)) => |NftsOf(tokens, c)|
    case Balance(BalanceId(1, Contract(c))) => |NftsOf(tokens, c)|
    case _ => 0
  }

  ghost function PrefixNet(events: seq<Transfer>, e: Entry): int {
    Sum(UpdatesOfAll(events), e, Net) + RegistrationNet(TokensOfAll(events), e)
  }

  /** A token is named by the events if one of them moves it, or moves an NFT of this contract. */
  ghost predicate Named(events: seq<Transfer>, t: TokenId) {
    exists x :: x in events && (x.token == t || Contract(x.token.address) == t)
  }

  /** The distinct NFTs of a contract that the events move. */
  ghost function NftsNamed(events: seq<Transfer>, c: Felt): set<TokenId> {
    set x | x in events && x.token.Nft? && x.token.address == c :: x.token
  }

  /**
   What the events amount to: received minus sent, minted minus burnt, and at contract level one more for each
   distinct NFT, credited to account one.
   */
  ghost function ChainSum(events: seq<Transfer>, e: Entry): int {
    TransferNet(events, e) +
    match e
    case Supply(Contract(c)) => |NftsNamed(events, c)|
    case Balance(BalanceId(1, Contract(c))) => |NftsNamed(events, c)|
    case _ => 0
  }

  /** Processing the events registers exactly the tokens they name. */
  lemma {:induction false} TokensAreNamed(events: seq<Transfer>, t: TokenId)
    ensures t in TokensOfAll(events) <==> Named(events, t)
  {
    if events != [] {
      var last := |events| - 1;
      var front, x := events[..last], events[last];
      TokensAreNamed(front, t);
      assert events == front + [x];
      if Named(front, t) {
        var y :| y in front && (y.token == t || Contract(y.token.address) == t);
        assert y in events;
      }
      if x.token == t || Contract(x.token.address) == t {
        assert x in events;
      }
    }
  }

  lemma ChainSumIsNet(events: seq<Transfer>, e: Entry)
    ensures PrefixNet(events, e) == ChainSum(events, e)
  {
    NetOfTransfers(events, e);
    forall c
      ensures NftsOf(TokensOfAll(events), c) == NftsNamed(events, c)
    {
      forall t
        ensures t in NftsOf(TokensOfAll(events), c) <==> t in NftsNamed(events, c)
      {
        TokensAreNamed(events, t);
      }
    }
  }

  lemma {:induction false} UpdatesOfConcat(ts: seq<Transfer>, us: seq<Transfer>)
    ensures UpdatesOfAll(ts + us) == UpdatesOfAll(ts) + UpdatesOfAll(us)
    ensures TokensOfAll(ts + us) == TokensOfAll(ts) + TokensOfAll(us)
  {
    if us == [] {
      assert ts + us == ts;
    } else {
      var last := |us| - 1;
      var front, t := us[..last], us[last];
      assert (ts + us)[..|ts + us| - 1] == ts + front && (ts + us)[|ts + us| - 1] == t;
      UpdatesOfConcat(ts, front);
      ConcatAssociative(UpdatesOfAll(ts), UpdatesOfAll(front), UpdatesOf(t));
    }
  }

  lemma RegistrationNetDisjoint(a: set<TokenId>, b: set<TokenId>, e: Entry)
    requires a !! b
    ensures RegistrationNet(a + b, e) == RegistrationNet(a, e) + RegistrationNet(b, e)
  {
    forall c
      ensures |NftsOf(a + b, c)| == |NftsOf(a, c)| + |NftsOf(b, c)|
    {
      assert NftsOf(a + b, c) == NftsOf(a, c) + NftsOf(b, c);
    }
  }

  lemma RegistrationNetSingle(t: TokenId, e: Entry)
    ensures RegistrationNet({t}, e) == Sum(RegistrationUpdates(t), e, Net)
  {
    forall c
      ensures NftsOf({t}, c) == if t.Nft? && t.address == c then {t} else {}
    {
    }
    if t.Nft? {
      var credit := Update(Balance(BalanceId(1, Contract(t.address))), 1, false);
      var mint := Update(Supply(Contract(t.address)), 1, false);
      assert RegistrationUpdates(t) == [credit] + [mint];
      SumConcat([credit], [mint], e, Net);
      SumSingle(credit, e, Net);
      SumSingle(mint, e, Net);
    }
  }

  // ----- The loop as a transition system -----

  /** A fetched segment of the chain. */
  datatype Batch = Batch(from: nat, to: nat)

  datatype Phase = Idle | Enqueuing | Handling | Joined | Applied | Cleared | Ready | Halted

  /**
   `registered` are the tokens the cache registry marks Registered, `models` the cached models, `queued` the
   events in the task network, `todo` and `done` the entry updates the handlers still owe and have made.
   `snapshots` is the history of the committed store, one per completed batch.
   */
  datatype State = State(committed: Store, pending: Store, diffs: Diffs, registered: set<TokenId>,
                         models: map<Felt, Model>, queued: seq<Transfer>, cachedFetch: Option<Batch>, phase: Phase,
                         todo: seq<Update>, done: seq<Update>, snapshots: seq<Store>)

  datatype Action =
    | Fetch(to: nat)
    | FetchError
    | Retry
    | Enqueue
    | Start
    | Register(token: TokenId)
    | RegisterModel(selector: Felt, model: Model)
    | Touch(i: nat)
    | Join
    | Apply(rpc: Entry -> nat)
    | Clear
    | UpdateCursors
    | Commit
    | CommitError(applied: bool)
    | ProcessingError
    | RecoveryError
    | Shutdown

  ghost function Events(chain: seq<Transfer>, b: Batch): seq<Transfer> {
    if b.from <= b.to <= |chain| then chain[b.from..b.to] else []
  }

  ghost predicate Processing(p: Phase) {
    p == Enqueuing || p == Handling || p == Joined || p == Applied || p == Cleared
  }

  ghost predicate Enabled(chain: seq<Transfer>, s: State, a: Action) {
    match a
    case Fetch(to) => s.phase == Idle && s.cachedFetch.None? && s.committed.cursor <= to <= |chain|
    case FetchError => s.phase == Idle && s.cachedFetch.None?
    case Retry => s.phase == Idle && s.cachedFetch.Some?
    case Enqueue =>
      s.phase == Enqueuing && s.cachedFetch.Some? && |s.queued| < |Events(chain, s.cachedFetch.value)|
    case Start => s.phase == Enqueuing && s.cachedFetch.Some? && s.queued == Events(chain, s.cachedFetch.value)
    case Register(token) => s.phase == Handling && token in TokensOfAll(s.queued) && token !in s.registered
    case RegisterModel(_, _) => s.phase == Handling
    case Touch(i) => s.phase == Handling && i < |s.todo| && ApplyUpdate(s.diffs, s.todo[i]).Some?
    case Join => s.phase == Handling && s.todo == [] && TokensOfAll(s.queued) <= s.registered
    case Apply(rpc) => s.phase == Joined && ApplyDiffs(s.pending, s.diffs, rpc).Some?
    case Clear => s.phase == Applied
    case UpdateCursors => s.phase == Cleared && s.cachedFetch.Some?
    case Commit => s.phase == Ready
    case CommitError(_) => s.phase == Ready
    case ProcessingError => Processing(s.phase)
    case RecoveryError => Processing(s.phase)
    case Shutdown => s.phase == Idle
  }

  ghost function Do(chain: seq<Transfer>, s: State, a: Action): State
    requires Enabled(chain, s, a)
  {
    match a
    case Fetch(to) => s.(cachedFetch := Some(Batch(s.committed.cursor, to)), phase := Enqueuing)
    case FetchError => s.(cachedFetch := None)
    case Retry => s.(phase := Enqueuing)
    case Enqueue => s.(queued := s.queued + [Events(chain, s.cachedFetch.value)[|s.queued|]])
    case Start => s.(phase := Handling, todo := UpdatesOfAll(s.queued), done := [])
    case Register(token) =>
      s.(registered := s.registered + {token}, pending := s.pending.(tokens := s.pending.tokens + {token}),
         todo := s.todo + RegistrationUpdates(token))
    case RegisterModel(selector, model) =>
      s.(pending := s.pending.(models := s.pending.models[selector := model]), models := s.models[selector := model])
    case Touch(i) =>
      s.(diffs := ApplyUpdate(s.diffs, s.todo[i]).value, done := s.done + [s.todo[i]], todo := RemoveAt(s.todo, i))
    case Join => s.(queued := [], phase := Joined)
    case Apply(rpc) => s.(pending := ApplyDiffs(s.pending, s.diffs, rpc).value, phase := Applied)
    case Clear => s.(diffs := NO_DIFFS, phase := Cleared)
    case UpdateCursors => s.(pending := s.pending.(cursor := s.cachedFetch.value.to), phase := Ready)
    case Commit =>
      s.(cachedFetch := None, committed := s.pending, snapshots := s.snapshots + [s.pending], phase := Idle)
    case CommitError(applied) =>
      if applied
      then s.(cachedFetch := None, committed := s.pending, snapshots := s.snapshots + [s.pending], phase := Halted)
      else s.(cachedFetch := None, phase := Halted)
    case ProcessingError =>
      s.(pending := s.committed, diffs := NO_DIFFS, registered := s.committed.tokens, models := map[], queued := [],
         phase := Idle)
    case RecoveryError => s.(phase := Halted)
    case Shutdown => s.(phase := Halted)
  }

  const INITIAL := State(EMPTY_STORE, EMPTY_STORE, NO_DIFFS, {}, map[], [], None, Idle, [], [], [EMPTY_STORE])

  // ----- The invariant -----

  ghost predicate ValidChain(chain: seq<Transfer>) {
    forall t :: t in chain ==> t.value < LIMIT
  }

  ghost predicate ValidBatch(chain: seq<Transfer>, s: State) {
    s.cachedFetch.Some? && s.cachedFetch.value.from == s.committed.cursor <= s.cachedFetch.value.to <= |chain|
  }

  ghost function Current(chain: seq<Transfer>, s: State): seq<Transfer> {
    if s.cachedFetch.Some? then Events(chain, s.cachedFetch.value) else []
  }

  /** The diffs hold exactly the updates made, and together with the ones still owed they make up the batch. */
  ghost predicate WorkInv(chain: seq<Transfer>, s: State) {
    && Holds(s.diffs, s.done)
    && (forall u :: u in s.todo ==> u.amount < LIMIT)
    && (forall e :: Magnitude(Sum(s.done, e, Net)) < LIMIT)
    && (forall e :: Sum(s.done, e, Net) + Sum(s.todo, e, Net) ==
          Sum(UpdatesOfAll(Current(chain, s)), e, Net) + RegistrationNet(s.registered - s.committed.tokens, e))
  }

  /** Every cached model is the stored one. */
  ghost predicate CacheAgrees(s: State) {
    forall k :: k in s.models ==> k in s.pending.models && s.pending.models[k] == s.models[k]
  }

  ghost predicate TokensInv(chain: seq<Transfer>, s: State) {
    && s.pending == s.committed.(tokens := s.registered, models := s.pending.models) && CacheAgrees(s)
    && s.committed.tokens <= s.registered <= s.committed.tokens + TokensOfAll(Current(chain, s))
  }

  /** What one batch adds to an entry. */
  ghost function BatchNet(chain: seq<Transfer>, s: State, e: Entry): int {
    Sum(UpdatesOfAll(Current(chain, s)), e, Net) +
    RegistrationNet(TokensOfAll(Current(chain, s)) - s.committed.tokens, e)
  }

  ghost predicate PendingInv(chain: seq<Transfer>, s: State) {
    && s.pending.tokens == s.registered == s.committed.tokens + TokensOfAll(Current(chain, s)) && CacheAgrees(s)
    && forall e :: s.committed.ValueOf(e) + BatchNet(chain, s, e) >= 0 ==>
         s.pending.ValueOf(e) == s.committed.ValueOf(e) + BatchNet(chain, s, e)
  }

  /** The sum over the chain prefix a store has processed. */
  ghost function PrefixSum(chain: seq<Transfer>, s: Store, e: Entry): int {
    if s.cursor <= |chain| then ChainSum(chain[..s.cursor], e) else 0
  }

  ghost predicate NonNegative(chain: seq<Transfer>, snapshots: seq<Store>, k: nat, e: Entry) {
    k < |snapshots| && forall j :: 0 <= j <= k ==> PrefixSum(chain, snapshots[j], e) >= 0
  }

  ghost predicate SnapshotInv(chain: seq<Transfer>, snapshots: seq<Store>, k: nat)
    requires k < |snapshots|
  {
    && snapshots[k].cursor <= |chain|
    && snapshots[k].tokens == TokensOfAll(chain[..snapshots[k].cursor])
    && forall e :: NonNegative(chain, snapshots, k, e) ==> snapshots[k].ValueOf(e) == PrefixSum(chain, snapshots[k], e)
  }

  ghost predicate HistoryInv(chain: seq<Transfer>, s: State) {
    && s.snapshots != [] && s.snapshots[|s.snapshots| - 1] == s.committed
    && (forall k :: 0 <= k < |s.snapshots| ==> SnapshotInv(chain, s.snapshots, k))
    && (forall j, k :: 0 <= j <= k < |s.snapshots| ==> s.snapshots[j].cursor <= s.snapshots[k].cursor)
  }

  /** Nothing of an earlier attempt is left over. */
  ghost predicate AtRest(s: State) {
    s.pending == s.committed && s.diffs == NO_DIFFS && s.registered == s.committed.tokens && CacheAgrees(s)
  }

  ghost predicate PhaseInv(chain: seq<Transfer>, s: State) {
    match s.phase
    case Idle => AtRest(s) && s.queued == [] && (s.cachedFetch.Some? ==> ValidBatch(chain, s))
    case Enqueuing => AtRest(s) && ValidBatch(chain, s) && s.queued <= Current(chain, s)
    case Handling => ValidBatch(chain, s) && s.queued == Current(chain, s) && TokensInv(chain, s) && WorkInv(chain, s)
    case Joined =>
      && ValidBatch(chain, s) && s.queued == [] && TokensInv(chain, s) && WorkInv(chain, s)
      && s.todo == [] && TokensOfAll(Current(chain, s)) <= s.registered
    case Applied => ValidBatch(chain, s) && s.queued == [] && PendingInv(chain, s)
    case Cleared => ValidBatch(chain, s) && s.queued == [] && PendingInv(chain, s) && s.diffs == NO_DIFFS
    case Ready =>
      && ValidBatch(chain, s) && s.queued == [] && PendingInv(chain, s) && s.diffs == NO_DIFFS
      && s.pending.cursor == s.cachedFetch.value.to
    case Halted => true
  }

  ghost predicate Inv(chain: seq<Transfer>, s: State) {
    HistoryInv(chain, s) && PhaseInv(chain, s)
  }

  // ----- Each step keeps it -----

  lemma StartWork(chain: seq<Transfer>, s: State)
    requires ValidChain(chain) && Inv(chain, s) && Enabled(chain, s, Start)
    ensures WorkInv(chain, Do(chain, s, Start))
  {
    var s' := Do(chain, s, Start);
    forall e
      ensures s'.diffs.Get(e) == Expected(TallyOf(s'.done, e))
      ensures Magnitude(Sum(s'.done, e, Net)) < LIMIT
      ensures Sum(s'.done, e, Net) + Sum(s'.todo, e, Net) ==
              Sum(UpdatesOfAll(Current(chain, s')), e, Net) + RegistrationNet(s'.registered - s'.committed.tokens, e)
    {
      assert s'.registered - s'.committed.tokens == {};
      RegistrationNetNothing(e);
    }
    AmountsOfAll(s.queued);
  }

  lemma RegistrationNetNothing(e: Entry)
    ensures RegistrationNet({}, e) == 0
  {
    forall c
      ensures NftsOf({}, c) == {}
    {
    }
  }

  lemma {:induction false} AmountsOfAll(ts: seq<Transfer>)
    requires forall t :: t in ts ==> t.value < LIMIT
    ensures forall u :: u in UpdatesOfAll(ts) ==> u.amount < LIMIT
  {
    if ts != [] {
      AmountsOfAll(ts[..|ts| - 1]);
      assert ts[|ts| - 1] in ts;
    }
  }

  lemma RegisterWork(chain: seq<Transfer>, s: State, token: TokenId)
    requires Inv(chain, s) && Enabled(chain, s, Register(token))
    ensures WorkInv(chain, Do(chain, s, Register(token)))
  {
    var s' := Do(chain, s, Register(token));
    forall e
      ensures Sum(s'.done, e, Net) + Sum(s'.todo, e, Net) ==
              Sum(UpdatesOfAll(Current(chain, s')), e, Net) + RegistrationNet(s'.registered - s'.committed.tokens, e)
    {
      OwedByRegistration(s.todo, token, e);
      NewlyRegistered(s.registered, s.committed.tokens, token, e);
    }
  }

  lemma OwedByRegistration(todo: seq<Update>, token: TokenId, e: Entry)
    ensures Sum(todo + RegistrationUpdates(token), e, Net) == Sum(todo, e, Net) + RegistrationNet({token}, e)
  {
    SumConcat(todo, RegistrationUpdates(token), e, Net);
    RegistrationNetSingle(token, e);
  }

  lemma NewlyRegistered(registered: set<TokenId>, committed: set<TokenId>, token: TokenId, e: Entry)
    requires token !in registered && committed <= registered
    ensures RegistrationNet((registered + {token}) - committed, e) ==
            RegistrationNet(registered - committed, e) + RegistrationNet({token}, e)
  {
    RegistrationNetDisjoint(registered - committed, {token}, e);
    assert (registered + {token}) - committed == (registered - committed) + {token};
  }

  lemma TouchWork(chain: seq<Transfer>, s: State, i: nat)
    requires Inv(chain, s) && Enabled(chain, s, Touch(i))
    ensures WorkInv(chain, Do(chain, s, Touch(i)))
  {
    var s', u := Do(chain, s, Touch(i)), s.todo[i];
    assert u in s.todo;
    UpdateHolds(s.diffs, s.done, u);
    forall e
      ensures Sum(s'.done, e, Net) == Sum(s.done, e, Net) + Weight(u, e, Net)
      ensures Sum(s.todo, e, Net) == Sum(s'.todo, e, Net) + Weight(u, e, Net)
    {
      SumConcat(s.done, [u], e, Net);
      SumSingle(u, e, Net);
      RemoveAtLaws(s.todo, i, e, Net);
    }
    forall e
      ensures Magnitude(Sum(s'.done, e, Net)) < LIMIT
    {
      if e != u.entry {
        assert Sum(s'.done, e, Net) == Sum(s.done, e, Net);
      }
    }
  }

  lemma AppliedValue(s: Store, d: Diffs, rpc: Entry -> nat, e: Entry)
    requires ApplyDiffs(s, d, rpc).Some? && s.ValueOf(e) + d.ValueOf(e) >= 0
    ensures ApplyDiffs(s, d, rpc).value.ValueOf(e) == s.ValueOf(e) + d.ValueOf(e)
  {
    assert e in Entries(d) <==> d.Get(e).Some?;
  }

  /** A balance that would become negative is replaced by the answer of the chain, a supply by zero. */
  lemma NegativeIsReplaced(s: Store, d: Diffs, rpc: Entry -> nat, e: Entry)
    requires ApplyDiffs(s, d, rpc).Some? && s.ValueOf(e) + d.ValueOf(e) < 0
    ensures ApplyDiffs(s, d, rpc).value.ValueOf(e) == if e.Balance? then rpc(e) else 0
  {
    assert e in Entries(d) <==> d.Get(e).Some?;
  }

  /** Applying the diffs aborts exactly when some stored value would not fit 256 bits. */
  lemma AppliesIff(s: Store, d: Diffs, rpc: Entry -> nat)
    requires forall e :: s.ValueOf(e) < LIMIT
    ensures ApplyDiffs(s, d, rpc).None? <==> exists e :: s.ValueOf(e) + d.ValueOf(e) >= LIMIT
  {
    if e :| s.ValueOf(e) + d.ValueOf(e) >= LIMIT {
      assert e in Entries(d) && !d.Get(e).value.negative;
    }
    if e :| e in Entries(d) && !d.Get(e).value.negative && s.ValueOf(e) + d.Get(e).value.value >= LIMIT {
      assert s.ValueOf(e) + d.ValueOf(e) >= LIMIT;
    }
  }

  lemma JoinedDiffs(chain: seq<Transfer>, s: State, e: Entry)
    requires TokensInv(chain, s) && WorkInv(chain, s)
    requires s.todo == [] && TokensOfAll(Current(chain, s)) <= s.registered
    ensures s.diffs.ValueOf(e) == BatchNet(chain, s, e)
    ensures s.registered == s.committed.tokens + TokensOfAll(Current(chain, s))
  {
    HeldValue(s.diffs, s.done, e);
    assert s.registered - s.committed.tokens == TokensOfAll(Current(chain, s)) - s.committed.tokens;
  }

  lemma ApplyPendingAt(chain: seq<Transfer>, s: State, rpc: Entry -> nat, e: Entry)
    requires TokensInv(chain, s) && WorkInv(chain, s) && ApplyDiffs(s.pending, s.diffs, rpc).Some?
    requires s.todo == [] && TokensOfAll(Current(chain, s)) <= s.registered
    ensures s.registered == s.committed.tokens + TokensOfAll(Current(chain, s))
    ensures s.committed.ValueOf(e) + BatchNet(chain, s, e) >= 0 ==>
            ApplyDiffs(s.pending, s.diffs, rpc).value.ValueOf(e) == s.committed.ValueOf(e) + BatchNet(chain, s, e)
  {
    JoinedDiffs(chain, s, e);
    assert s.pending.ValueOf(e) == s.committed.ValueOf(e);
    if s.committed.ValueOf(e) + BatchNet(chain, s, e) >= 0 {
      AppliedValue(s.pending, s.diffs, rpc, e);
    }
  }

  lemma ApplyPending(chain: seq<Transfer>, s: State, rpc: Entry -> nat)
    requires PhaseInv(chain, s) && Enabled(chain, s, Apply(rpc))
    ensures PendingInv(chain, Do(chain, s, Apply(rpc)))
  {
    var s' := Do(chain, s, Apply(rpc));
    forall e
      ensures s.registered == s.committed.tokens + TokensOfAll(Current(chain, s))
      ensures s'.committed.ValueOf(e) + BatchNet(chain, s', e) >= 0 ==>
              s'.pending.ValueOf(e) == s'.committed.ValueOf(e) + BatchNet(chain, s', e)
    {
      ApplyPendingAt(chain, s, rpc, e);
      assert BatchNet(chain, s', e) == BatchNet(chain, s, e);
    }
  }

  /** The prefix sum grows by what the batch adds. */
  lemma PrefixGrows(chain: seq<Transfer>, s: State, e: Entry)
    requires ValidBatch(chain, s) && s.committed.tokens == TokensOfAll(chain[..s.committed.cursor])
    ensures var to := s.cachedFetch.value.to;
            && PrefixNet(chain[..to], e) == PrefixNet(chain[..s.committed.cursor], e) + BatchNet(chain, s, e)
            && TokensOfAll(chain[..to]) == s.committed.tokens + TokensOfAll(Current(chain, s))
  {
    var before, now := chain[..s.committed.cursor], Current(chain, s);
    assert chain[..s.cachedFetch.value.to] == before + now;
    UpdatesOfConcat(before, now);
    SumConcat(UpdatesOfAll(before), UpdatesOfAll(now), e, Net);
    var newTokens := TokensOfAll(now) - s.committed.tokens;
    RegistrationNetDisjoint(s.committed.tokens, newTokens, e);
    assert s.committed.tokens + newTokens == TokensOfAll(before + now);
  }

  lemma CommitHistory(chain: seq<Transfer>, s: State, snapshots: seq<Store>)
    requires HistoryInv(chain, s) && ValidBatch(chain, s) && PendingInv(chain, s)
    requires s.pending.cursor == s.cachedFetch.value.to && snapshots == s.snapshots + [s.pending]
    ensures forall k :: 0 <= k < |snapshots| ==> SnapshotInv(chain, snapshots, k)
    ensures forall j, k :: 0 <= j <= k < |snapshots| ==> snapshots[j].cursor <= snapshots[k].cursor
  {
    var last := |s.snapshots| - 1;
    assert SnapshotInv(chain, s.snapshots, last);
    forall k | 0 <= k < |snapshots|
      ensures SnapshotInv(chain, snapshots, k)
    {
      if k <= last {
        assert SnapshotInv(chain, s.snapshots, k);
        forall e | NonNegative(chain, snapshots, k, e)
          ensures NonNegative(chain, s.snapshots, k, e)
        {
          assert forall j :: 0 <= j <= k ==> snapshots[j] == s.snapshots[j];
        }
      } else {
        NewSnapshot(chain, s, snapshots, Supply(Contract(0)));
        forall e
          ensures NonNegative(chain, snapshots, k, e) ==> s.pending.ValueOf(e) == PrefixSum(chain, s.pending, e)
        {
          NewSnapshot(chain, s, snapshots, e);
        }
      }
    }
  }

  lemma NewSnapshot(chain: seq<Transfer>, s: State, snapshots: seq<Store>, e: Entry)
    requires HistoryInv(chain, s) && ValidBatch(chain, s) && PendingInv(chain, s)
    requires s.pending.cursor == s.cachedFetch.value.to && snapshots == s.snapshots + [s.pending]
    ensures TokensOfAll(chain[..s.pending.cursor]) == s.pending.tokens
    ensures NonNegative(chain, snapshots, |s.snapshots|, e) ==>
            s.pending.ValueOf(e) == PrefixSum(chain, s.pending, e)
  {
    var last := |s.snapshots| - 1;
    assert SnapshotInv(chain, s.snapshots, last);
    PrefixGrows(chain, s, e);
    ChainSumIsNet(chain[..s.committed.cursor], e);
    ChainSumIsNet(chain[..s.pending.cursor], e);
    if NonNegative(chain, snapshots, |s.snapshots|, e) {
      assert forall j :: 0 <= j <= last ==> snapshots[j] == s.snapshots[j];
      assert NonNegative(chain, s.snapshots, last, e);
      assert snapshots[|s.snapshots|] == s.pending;
    }
  }

  lemma DoHistory(chain: seq<Transfer>, s: State, a: Action)
    requires Inv(chain, s) && Enabled(chain, s, a)
    ensures HistoryInv(chain, Do(chain, s, a))
  {
    if a.Commit? || a.CommitError? {
      CommitHistory(chain, s, s.snapshots + [s.pending]);
    }
  }

  lemma StartPhase(chain: seq<Transfer>, s: State, a: Action)
    requires ValidChain(chain) && Inv(chain, s) && Enabled(chain, s, a)
    ensures a.Start? ==> PhaseInv(chain, Do(chain, s, a))
  {
    if a.Start? {
      StartWork(chain, s);
    }
  }

  lemma RegisterPhase(chain: seq<Transfer>, s: State, a: Action)
    requires Inv(chain, s) && Enabled(chain, s, a)
    ensures a.Register? ==> PhaseInv(chain, Do(chain, s, a))
  {
    if a.Register? {
      RegisterWork(chain, s, a.token);
    }
  }

  lemma TouchPhase(chain: seq<Transfer>, s: State, a: Action)
    requires Inv(chain, s) && Enabled(chain, s, a)
    ensures a.Touch? ==> PhaseInv(chain, Do(chain, s, a))
  {
    if a.Touch? {
      TouchWork(chain, s, a.i);
    }
  }

  lemma ApplyPhase(chain: seq<Transfer>, s: State, a: Action)
    requires PhaseInv(chain, s) && Enabled(chain, s, a)
    ensures a.Apply? ==> PhaseInv(chain, Do(chain, s, a))
  {
    if a.Apply? {
      ApplyPending(chain, s, a.rpc);
    }
  }

  lemma LoadPhase(chain: seq<Transfer>, s: State, a: Action)
    requires PhaseInv(chain, s) && Enabled(chain, s, a)
    ensures a.Fetch? || a.FetchError? || a.Retry? || a.Enqueue? || a.RegisterModel? || a.Join? ==> PhaseInv(chain, Do(chain, s, a))
  {
  }

  lemma FinishPhase(chain: seq<Transfer>, s: State, a: Action)
    requires PhaseInv(chain, s) && Enabled(chain, s, a)
    ensures a.Clear? || a.UpdateCursors? || a.Commit? ==> PhaseInv(chain, Do(chain, s, a))
  {
  }

  lemma FailPhase(chain: seq<Transfer>, s: State, a: Action)
    requires PhaseInv(chain, s) && Enabled(chain, s, a)
    ensures a.ProcessingError? || a.RecoveryError? || a.CommitError? || a.Shutdown? ==> PhaseInv(chain, Do(chain, s, a))
  {
  }

  lemma DoPhase(chain: seq<Transfer>, s: State, a: Action)
    requires ValidChain(chain) && Inv(chain, s) && Enabled(chain, s, a)
    ensures PhaseInv(chain, Do(chain, s, a))
  {
    StartPhase(chain, s, a);
    RegisterPhase(chain, s, a);
    TouchPhase(chain, s, a);
    ApplyPhase(chain, s, a);
    LoadPhase(chain, s, a);
    FinishPhase(chain, s, a);
    FailPhase(chain, s, a);
  }

  lemma DoInv(chain: seq<Transfer>, s: State, a: Action)
    requires ValidChain(chain) && Inv(chain, s) && Enabled(chain, s, a)
    ensures Inv(chain, Do(chain, s, a))
  {
    DoHistory(chain, s, a);
    DoPhase(chain, s, a);
  }

  // ----- Every run -----

  ghost predicate IsRun(chain: seq<Transfer>, s: State, actions: seq<Action>)
    decreases actions
  {
    actions != [] ==> Enabled(chain, s, actions[0]) && IsRun(chain, Do(chain, s, actions[0]), actions[1..])
  }

  ghost function Run(chain: seq<Transfer>, s: State, actions: seq<Action>): State
    requires IsRun(chain, s, actions)
    decreases actions
  {
    if actions == [] then s else Run(chain, Do(chain, s, actions[0]), actions[1..])
  }

  lemma {:induction false} RunKeepsInv(chain: seq<Transfer>, s: State, actions: seq<Action>)
    requires ValidChain(chain) && Inv(chain, s) && IsRun(chain, s, actions)
    ensures Inv(chain, Run(chain, s, actions))
    decreases actions
  {
    if actions != [] {
      DoInv(chain, s, actions[0]);
      RunKeepsInv(chain, Do(chain, s, actions[0]), actions[1..]);
    }
  }

  lemma InitialInv(chain: seq<Transfer>)
    ensures Inv(chain, INITIAL)
  {
    assert chain[..0] == [];
    forall e
      ensures ChainSum([], e) == 0
    {
      RegistrationNetNothing(e);
      ChainSumIsNet([], e);
    }
    assert SnapshotInv(chain, INITIAL.snapshots, 0);
  }

  /**
   At every loop head of every run, pending equals committed, the diffs and the task network are empty and
   the Registered tokens are exactly the committed ones, which are those that the committed chain prefix names;
   every cached model is the committed one.
   */
  lemma LoopHeadIsClean(chain: seq<Transfer>, actions: seq<Action>)
    requires ValidChain(chain) && IsRun(chain, INITIAL, actions) && Run(chain, INITIAL, actions).phase == Idle
    ensures var s := Run(chain, INITIAL, actions);
            && s.pending == s.committed && s.diffs == NO_DIFFS && s.queued == []
            && s.registered == s.committed.tokens
            && (forall k :: k in s.models ==> k in s.committed.models && s.committed.models[k] == s.models[k])
            && s.committed.cursor <= |chain|
            && (forall t :: t in s.committed.tokens <==> Named(chain[..s.committed.cursor], t))
  {
    InitialInv(chain);
    RunKeepsInv(chain, INITIAL, actions);
    var s := Run(chain, INITIAL, actions);
    assert SnapshotInv(chain, s.snapshots, |s.snapshots| - 1);
    forall t
      ensures t in s.committed.tokens <==> Named(chain[..s.committed.cursor], t)
    {
      TokensAreNamed(chain[..s.committed.cursor], t);
    }
  }

  /**
   Over every run with any failures and retries, the committed value of an entry is the sum of the processed
   chain prefix at every commit, if and only if that sum never ends a batch below zero.
   */
  lemma CommittedIsPrefixSum(chain: seq<Transfer>, actions: seq<Action>, e: Entry)
    requires ValidChain(chain) && IsRun(chain, INITIAL, actions)
    ensures var h := Run(chain, INITIAL, actions).snapshots;
            (forall k :: 0 <= k < |h| ==> h[k].ValueOf(e) == PrefixSum(chain, h[k], e)) <==>
            (forall k :: 0 <= k < |h| ==> PrefixSum(chain, h[k], e) >= 0)
  {
    InitialInv(chain);
    RunKeepsInv(chain, INITIAL, actions);
    SnapshotsExactIff(chain, Run(chain, INITIAL, actions).snapshots, e);
  }

  lemma SnapshotsExactIff(chain: seq<Transfer>, h: seq<Store>, e: Entry)
    requires forall k :: 0 <= k < |h| ==> SnapshotInv(chain, h, k)
    ensures (forall k :: 0 <= k < |h| ==> h[k].ValueOf(e) == PrefixSum(chain, h[k], e)) <==>
            (forall k :: 0 <= k < |h| ==> PrefixSum(chain, h[k], e) >= 0)
  {
    if forall k :: 0 <= k < |h| ==> PrefixSum(chain, h[k], e) >= 0 {
      forall k | 0 <= k < |h|
        ensures h[k].ValueOf(e) == PrefixSum(chain, h[k], e)
      {
        assert SnapshotInv(chain, h, k);
        assert NonNegative(chain, h, k, e);
      }
    }
  }

  // ----- A run whose committed balance is not the sum -----

  const OVERDRAWN := Balance(BalanceId(5, Contract(7)))

  /** A burn of tokens that were never indexed as minted. */
  const OVERDRAFT := [Transfer(Contract(7), 5, 0, 3)]

  lemma Prepend(chain: seq<Transfer>, s: State, a: Action, rest: seq<Action>) returns (actions: seq<Action>)
    requires Enabled(chain, s, a) && IsRun(chain, Do(chain, s, a), rest)
    ensures IsRun(chain, s, actions) && Run(chain, s, actions) == Run(chain, Do(chain, s, a), rest)
  {
    actions := [a] + rest;
    assert actions[1..] == rest;
  }

  /** Once the handlers are done, a batch that meets no further failure is committed. */
  lemma CommitJoined(chain: seq<Transfer>, s: State, rpc: Entry -> nat) returns (actions: seq<Action>)
    requires Enabled(chain, s, Apply(rpc)) && s.cachedFetch.Some?
    ensures IsRun(chain, s, actions)
    ensures var e := Run(chain, s, actions);
            && e.phase == Idle
            && e.committed == ApplyDiffs(s.pending, s.diffs, rpc).value.(cursor := s.cachedFetch.value.to)
  {
    var s1 := Do(chain, s, Apply(rpc));
    var s2 := Do(chain, s1, Clear);
    var s3 := Do(chain, s2, UpdateCursors);
    var none: seq<Action> := [];
    assert IsRun(chain, Do(chain, s3, Commit), none);
    actions := Prepend(chain, s3, Commit, none);
    actions := Prepend(chain, s2, UpdateCursors, actions);
    actions := Prepend(chain, s1, Clear, actions);
    actions := Prepend(chain, s, Apply(rpc), actions);
  }

  lemma OverdraftUpdates()
    ensures UpdatesOfAll(OVERDRAFT) == [Update(OVERDRAWN, 3, true), Update(Supply(Contract(7)), 3, true)]
    ensures TokensOfAll(OVERDRAFT) == {Contract(7)}
    ensures ChainSum(OVERDRAFT, OVERDRAWN) == -3
  {
    var debit, burn := Update(OVERDRAWN, 3, true), Update(Supply(Contract(7)), 3, true);
    assert OVERDRAFT[..0] == [];
    assert UpdatesOfAll(OVERDRAFT) == [debit] + [burn];
    SumConcat([debit], [burn], OVERDRAWN, Net);
    SumSingle(debit, OVERDRAWN, Net);
    SumSingle(burn, OVERDRAWN, Net);
    assert RegistrationNet({Contract(7)}, OVERDRAWN) == 0;
    ChainSumIsNet(OVERDRAFT, OVERDRAWN);
  }

  /** The state after the handlers of the overdraft have finished. */
  ghost function OverdraftJoined(): State {
    State(EMPTY_STORE, EMPTY_STORE.(tokens := {Contract(7)}),
          Diffs(map[OVERDRAWN.id := I256(3, true)], map[Contract(7) := I256(3, true)]),
          {Contract(7)}, map[], [], Some(Batch(0, 1)), Joined, [], UpdatesOfAll(OVERDRAFT), [EMPTY_STORE])
  }

  lemma OverdraftDiffs()
    ensures var d := Diffs(map[OVERDRAWN.id := I256(3, true)], map[]);
            && ApplyUpdate(NO_DIFFS, Update(OVERDRAWN, 3, true)) == Some(d)
            && ApplyUpdate(d, Update(Supply(Contract(7)), 3, true)) == Some(OverdraftJoined().diffs)
  {
  }

  /** The state when the handlers of the overdraft are spawned. */
  ghost function OverdraftStarted(): State {
    INITIAL.(queued := OVERDRAFT, cachedFetch := Some(Batch(0, 1)), phase := Handling, todo := UpdatesOfAll(OVERDRAFT))
  }

  lemma OverdraftStarts(rest: seq<Action>) returns (actions: seq<Action>)
    requires IsRun(OVERDRAFT, OverdraftStarted(), rest)
    ensures IsRun(OVERDRAFT, INITIAL, actions)
    ensures Run(OVERDRAFT, INITIAL, actions) == Run(OVERDRAFT, OverdraftStarted(), rest)
  {
    var s1 := Do(OVERDRAFT, INITIAL, Fetch(1));
    assert Events(OVERDRAFT, Batch(0, 1)) == OVERDRAFT;
    var s2 := Do(OVERDRAFT, s1, Enqueue);
    assert s2.queued == OVERDRAFT;
    assert Do(OVERDRAFT, s2, Start) == OverdraftStarted();
    actions := Prepend(OVERDRAFT, s2, Start, rest);
    actions := Prepend(OVERDRAFT, s1, Enqueue, actions);
    actions := Prepend(OVERDRAFT, INITIAL, Fetch(1), actions);
  }

  ghost function OverdraftRegistered(): State {
    OverdraftStarted().(registered := {Contract(7)}, pending := EMPTY_STORE.(tokens := {Contract(7)}))
  }

  lemma OverdraftRegisters(rest: seq<Action>) returns (actions: seq<Action>)
    requires IsRun(OVERDRAFT, OverdraftRegistered(), rest)
    ensures IsRun(OVERDRAFT, OverdraftStarted(), actions)
    ensures Run(OVERDRAFT, OverdraftStarted(), actions) == Run(OVERDRAFT, OverdraftRegistered(), rest)
  {
    OverdraftUpdates();
    var s := OverdraftStarted();
    assert Do(OVERDRAFT, s, Register(Contract(7))).todo == UpdatesOfAll(OVERDRAFT);
    assert Do(OVERDRAFT, s, Register(Contract(7))) == OverdraftRegistered();
    actions := Prepend(OVERDRAFT, s, Register(Contract(7)), rest);
  }

  lemma OverdraftHandled(rest: seq<Action>) returns (actions: seq<Action>)
    requires IsRun(OVERDRAFT, OverdraftJoined(), rest)
    ensures IsRun(OVERDRAFT, OverdraftRegistered(), actions)
    ensures Run(OVERDRAFT, OverdraftRegistered(), actions) == Run(OVERDRAFT, OverdraftJoined(), rest)
  {
    OverdraftUpdates();
    OverdraftDiffs();
    var s4 := OverdraftRegistered();
    var s5 := Do(OVERDRAFT, s4, Touch(0));
    assert s5.todo == [Update(Supply(Contract(7)), 3, true)];
    var s6 := Do(OVERDRAFT, s5, Touch(0));
    assert s6.todo == [] && s6.done == UpdatesOfAll(OVERDRAFT);
    assert Do(OVERDRAFT, s6, Join) == OverdraftJoined();
    actions := Prepend(OVERDRAFT, s6, Join, rest);
    actions := Prepend(OVERDRAFT, s5, Touch(0), actions);
    actions := Prepend(OVERDRAFT, s4, Touch(0), actions);
  }

  lemma OverdraftApplied(rpc: Entry -> nat)
    ensures var r := ApplyDiffs(OverdraftJoined().pending, OverdraftJoined().diffs, rpc);
            r.Some? && r.value.ValueOf(OVERDRAWN) == rpc(OVERDRAWN)
  {
    var d := OverdraftJoined().diffs;
    assert forall e :: e in Entries(d) ==> d.Get(e).value.negative;
    assert OVERDRAWN in Entries(d) && d.Get(OVERDRAWN) == Some(I256(3, true));
  }

  /** An overdrawn balance is committed as whatever the chain answers, not as the sum of the processed prefix. */
  lemma OverdraftIsReplaced(rpc: Entry -> nat) returns (actions: seq<Action>)
    ensures IsRun(OVERDRAFT, INITIAL, actions)
    ensures var s := Run(OVERDRAFT, INITIAL, actions);
            && s.phase == Idle && s.committed.cursor == 1
            && s.committed.ValueOf(OVERDRAWN) == rpc(OVERDRAWN) && PrefixSum(OVERDRAFT, s.committed, OVERDRAWN) == -3
  {
    OverdraftApplied(rpc);
    OverdraftUpdates();
    actions := CommitJoined(OVERDRAFT, OverdraftJoined(), rpc);
    actions := OverdraftHandled(actions);
    actions := OverdraftRegisters(actions);
    actions := OverdraftStarts(actions);
    assert OVERDRAFT[..1] == OVERDRAFT;
  }

  // ----- Models -----

  /** The model registrations of the committed batches and of the current attempt, in order. */
  datatype Log = Log(committed: seq<(Felt, Model)>, attempt: seq<(Felt, Model)>)

  ghost function Extended(log: Log, a: Action): Log {
    match a
    case RegisterModel(selector, model) => log.(attempt := log.attempt + [(selector, model)])
    case ProcessingError => log.(attempt := [])
    case Commit => Log(log.committed + log.attempt, [])
    case CommitError(applied) => if applied then Log(log.committed + log.attempt, []) else log
    case _ => log
  }

  ghost function LogOf(log: Log, actions: seq<Action>): Log
    decreases actions
  {
    if actions == [] then log else LogOf(Extended(log, actions[0]), actions[1..])
  }

  /** The last model registered for a selector. */
  ghost function LastOf(log: seq<(Felt, Model)>, selector: Felt): Option<Model> {
    if log == [] then None
    else if log[|log| - 1].0 == selector then Some(log[|log| - 1].1)
    else LastOf(log[..|log| - 1], selector)
  }

  ghost predicate Recorded(models: map<Felt, Model>, log: seq<(Felt, Model)>) {
    forall k :: LastOf(log, k) == if k in models then Some(models[k]) else None
  }

  ghost predicate LogInv(s: State, log: Log) {
    && Recorded(s.committed.models, log.committed)
    && (s.phase != Halted ==> Recorded(s.pending.models, log.committed + log.attempt))
  }

  lemma RecordOne(models: map<Felt, Model>, log: seq<(Felt, Model)>, k: Felt, m: Model)
    requires Recorded(models, log)
    ensures Recorded(models[k := m], log + [(k, m)])
  {
    assert (log + [(k, m)])[..|log|] == log;
  }

  lemma DoLog(chain: seq<Transfer>, s: State, log: Log, a: Action)
    requires Inv(chain, s) && Enabled(chain, s, a) && LogInv(s, log)
    ensures LogInv(Do(chain, s, a), Extended(log, a))
  {
    assert log.committed + [] == log.committed;
    if a.RegisterModel? {
      RecordOne(s.pending.models, log.committed + log.attempt, a.selector, a.model);
      ConcatAssociative(log.committed, log.attempt, [(a.selector, a.model)]);
    } else if a.Commit? || (a.CommitError? && a.applied) {
      assert log.committed + log.attempt + [] == log.committed + log.attempt;
    } else if a.Apply? {
      assert Do(chain, s, a).pending.models == s.pending.models;
    }
  }

  lemma {:induction false} RunLog(chain: seq<Transfer>, s: State, log: Log, actions: seq<Action>)
    requires ValidChain(chain) && Inv(chain, s) && IsRun(chain, s, actions) && LogInv(s, log)
    ensures LogInv(Run(chain, s, actions), LogOf(log, actions))
    decreases actions
  {
    if actions != [] {
      DoLog(chain, s, log, actions[0]);
      DoInv(chain, s, actions[0]);
      RunLog(chain, Do(chain, s, actions[0]), Extended(log, actions[0]), actions[1..]);
    }
  }

  /** Over every run, a committed model is the last one registered for its selector in a committed batch. */
  lemma CommittedModelIsLast(chain: seq<Transfer>, actions: seq<Action>, k: Felt)
    requires ValidChain(chain) && IsRun(chain, INITIAL, actions)
    ensures var models := Run(chain, INITIAL, actions).committed.models;
            LastOf(LogOf(Log([], []), actions).committed, k) == if k in models then Some(models[k]) else None
  {
    InitialInv(chain);
    RunLog(chain, INITIAL, Log([], []), actions);
  }

  // ----- Batches -----

  lemma {:induction false} SnapshotsGrow(chain: seq<Transfer>, s: State, actions: seq<Action>)
    requires IsRun(chain, s, actions)
    ensures s.snapshots <= Run(chain, s, actions).snapshots
    decreases actions
  {
    if actions != [] {
      SnapshotsGrow(chain, Do(chain, s, actions[0]), actions[1..]);
    }
  }

  /** No step but a commit gives up the fetched batch or moves the committed store. */
  lemma StepKeepsBatch(chain: seq<Transfer>, s: State, a: Action, b: Batch)
    requires PhaseInv(chain, s) && Enabled(chain, s, a) && s.cachedFetch == Some(b)
    ensures b.from == s.committed.cursor
    ensures var s' := Do(chain, s, a);
            || (s'.cachedFetch == Some(b) && s'.committed == s.committed && s'.snapshots == s.snapshots)
            || (s'.phase == Halted && s'.snapshots == s.snapshots)
            || (s'.snapshots == s.snapshots + [s.pending] && s.pending.cursor == b.to)
  {
  }

  /**
   Over every run, with any failures and retries, a fetched batch is kept until it is committed: either the
   loop still holds it and the committed store has not moved, or the next commit covers exactly this batch.
   */
  lemma {:induction false} BatchIsKept(chain: seq<Transfer>, s: State, actions: seq<Action>, b: Batch)
    requires ValidChain(chain) && Inv(chain, s) && IsRun(chain, s, actions) && s.cachedFetch == Some(b)
    ensures var e := Run(chain, s, actions);
            && s.snapshots <= e.snapshots
            && (|e.snapshots| == |s.snapshots| && e.phase != Halted ==> e.cachedFetch == Some(b) && e.committed == s.committed)
            && (|e.snapshots| > |s.snapshots| ==>
                  b.from == s.committed.cursor && e.snapshots[|s.snapshots|].cursor == b.to)
    decreases actions
  {
    if actions != [] {
      var s' := Do(chain, s, actions[0]);
      StepKeepsBatch(chain, s, actions[0], b);
      SnapshotsGrow(chain, s', actions[1..]);
      if s'.phase == Halted {
        HaltedStays(chain, s', actions[1..]);
      } else if s'.snapshots == s.snapshots {
        DoInv(chain, s, actions[0]);
        BatchIsKept(chain, s', actions[1..], b);
      }
    }
  }

  lemma HaltedStays(chain: seq<Transfer>, s: State, actions: seq<Action>)
    requires IsRun(chain, s, actions) && s.phase == Halted
    ensures Run(chain, s, actions) == s
  {
  }
}
