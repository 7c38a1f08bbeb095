/**
 The balance and supply diffs of the ERC cache: every transfer becomes at most three atomic updates of map
 entries, and concurrent tasks interleave those updates in any order.
 */
module ErcLedger {
  import opened Results
  import opened SignedMagnitude

  type Felt = nat

  datatype TokenId = Contract(address: Felt) | Nft(address: Felt, id: nat)

  /** The NFTs of one contract. */
  ghost function NftsOf(tokens: set<TokenId>, c: Felt): set<TokenId> {
    set t | t in tokens && t.Nft? && t.address == c
  }

  datatype BalanceId = BalanceId(account: Felt, token: TokenId)

  datatype Entry = Balance(id: BalanceId) | Supply(token: TokenId)

  datatype Transfer = Transfer(token: TokenId, from: Felt, to: Felt, value: nat)

  /** One atomic update of one entry. */
  datatype Update = Update(entry: Entry, amount: nat, debit: bool) {
    function Delta(): int {
      if debit then -(amount as int) else amount
    }
  }

  datatype Diffs = Diffs(balances: map<BalanceId, I256>, supplies: map<TokenId, I256>) {

    function Get(e: Entry): Option<I256> {
      match e
      case Balance(id) => if id in balances then Some(balances[id]) else None
      case Supply(token) => if token in supplies then Some(supplies[token]) else None
    }

    function Set(e: Entry, x: I256): Diffs {
      match e
      case Balance(id) => this.(balances := balances[id := x])
      case Supply(token) => this.(supplies := supplies[token := x])
    }

    /** Absent entries count as zero. */
    function ValueOf(e: Entry): int {
      match Get(e)
      case None => 0
      case Some(x) => x.Denotes()
    }
  }

  const NO_DIFFS := Diffs(map[], map[])

  /** Modify the entry, or insert the first amount with its raw sign; `None` is an overflow abort. */
  function ApplyUpdate(d: Diffs, u: Update): Option<Diffs> {
    match d.Get(u.entry)
    case None => Some(d.Set(u.entry, I256(u.amount, u.debit)))
    case Some(x) =>
      match if u.debit then Sub(x, I256(u.amount, false)) else Add(x, I256(u.amount, false))
      case None => None
      case Some(y) => Some(d.Set(u.entry, y))
  }

  function RunFrom(d: Diffs, us: seq<Update>): Option<Diffs>
    decreases us
  {
    if us == [] then Some(d)
    else
      match ApplyUpdate(d, us[0])
      case None => None
      case Some(after) => RunFrom(after, us[1..])
  }

  /** Debit, credit and supply of a transfer; address zero mints and burns. */
  function UpdatesOf(t: Transfer): seq<Update> {
    (if t.from != 0 then [Update(Balance(BalanceId(t.from, t.token)), t.value, true)] else []) +
    (if t.to != 0 then [Update(Balance(BalanceId(t.to, t.token)), t.value, false)] else []) +
    (if t.from == 0 && t.to != 0 then [Update(Supply(t.token), t.value, false)]
     else if t.from != 0 && t.to == 0 then [Update(Supply(t.token), t.value, true)]
     else [])
  }

  function UpdatesOfAll(ts: seq<Transfer>): seq<Update> {
    if ts == [] then [] else UpdatesOfAll(ts[..|ts| - 1]) + UpdatesOf(ts[|ts| - 1])
  }

  // ----- What an entry should hold -----

  datatype Component = Touches | Debits | Net | Amount

  function Weight(u: Update, e: Entry, c: Component): int {
    if u.entry != e then 0
    else match c case Touches => 1 case Debits => (if u.debit then 1 else 0) case Net => u.Delta() case Amount => u.amount
  }

  function Sum(us: seq<Update>, e: Entry, c: Component): int {
    if us == [] then 0 else Weight(us[0], e, c) + Sum(us[1..], e, c)
  }

  /** How often an entry is touched and debited, the exact sum of its deltas and of its amounts. */
  datatype Tally = Tally(touches: int, debits: int, net: int, magnitude: int)

  function TallyOf(us: seq<Update>, e: Entry): Tally {
    Tally(Sum(us, e, Touches), Sum(us, e, Debits), Sum(us, e, Net), Sum(us, e, Amount))
  }

  function Extend(t: Tally, u: Update, e: Entry): Tally {
    Tally(t.touches + Weight(u, e, Touches), t.debits + Weight(u, e, Debits), t.net + Weight(u, e, Net),
          t.magnitude + Weight(u, e, Amount))
  }

  /** The exact sum of the deltas; the raw sign survives only in an entry touched once. */
  function Expected(t: Tally): Option<I256> {
    if t.touches == 0 then None
    else Some(I256(Magnitude(t.net), if t.touches == 1 then t.debits == 1 else t.net < 0))
  }

  ghost predicate Amounts(us: seq<Update>) {
    forall u :: u in us ==> u.amount < LIMIT
  }

  lemma {:induction false} TallyShape(us: seq<Update>, e: Entry)
    ensures var t := TallyOf(us, e);
            && 0 <= t.debits <= t.touches && Magnitude(t.net) <= t.magnitude
            && (t.touches == 0 ==> t.net == 0)
            && (t.touches == 1 ==> (t.debits == 1 && t.net <= 0) || (t.debits == 0 && t.net >= 0))
  {
    if us != [] {
      TallyShape(us[1..], e);
    }
  }

  /** Every entry of the diffs holds the exact sum of what was applied to it. */
  ghost predicate Holds(d: Diffs, us: seq<Update>) {
    forall e :: d.Get(e) == Expected(TallyOf(us, e))
  }

  lemma {:induction false} SumConcat(us: seq<Update>, vs: seq<Update>, e: Entry, c: Component)
    ensures Sum(us + vs, e, c) == Sum(us, e, c) + Sum(vs, e, c)
  {
    if us == [] {
      assert us + vs == vs;
    } else {
      SumConcat(us[1..], vs, e, c);
      assert (us + vs)[1..] == us[1..] + vs;
    }
  }

  lemma SumSingle(u: Update, e: Entry, c: Component)
    ensures Sum([u], e, c) == Weight(u, e, c)
  {
    assert [u][1..] == [];
  }

  lemma TallySnoc(us: seq<Update>, u: Update, e: Entry)
    ensures TallyOf(us + [u], e) == Extend(TallyOf(us, e), u, e)
  {
    forall c: Component
      ensures Sum(us + [u], e, c) == Sum(us, e, c) + Weight(u, e, c)
    {
      SumConcat(us, [u], e, c);
      SumSingle(u, e, c);
    }
  }

  lemma {:induction false} RunSnoc(d: Diffs, us: seq<Update>, u: Update)
    ensures RunFrom(d, us + [u]) ==
            match RunFrom(d, us) case None => None case Some(after) => ApplyUpdate(after, u)
    decreases us
  {
    if us == [] {
      assert us + [u] == [u] && [u][1..] == [];
    } else {
      assert (us + [u])[1..] == us[1..] + [u];
      if ApplyUpdate(d, us[0]).Some? {
        RunSnoc(ApplyUpdate(d, us[0]).value, us[1..], u);
      }
    }
  }

  lemma UpdatedEntry(x: I256, t: Tally, u: Update)
    requires t.touches > 0 && Expected(t) == Some(x) && Magnitude(t.net) < LIMIT && u.amount < LIMIT
    requires t.touches == 1 ==> (t.debits == 1 && t.net <= 0) || (t.debits == 0 && t.net >= 0)
    ensures (if u.debit then Sub(x, I256(u.amount, false)) else Add(x, I256(u.amount, false))) ==
            if Magnitude(t.net + u.Delta()) < LIMIT then Some(Canon(t.net + u.Delta())) else None
  {
    AddIsExact(x, I256(u.amount, false));
    SubIsExact(x, I256(u.amount, false));
  }

  lemma UpdateHoldsAt(d: Diffs, t: Tally, u: Update, e: Entry, f: Tally)
    requires d.Get(u.entry) == Expected(t) && d.Get(e) == Expected(f) && (e == u.entry ==> f == t)
    requires u.amount < LIMIT && Magnitude(t.net) < LIMIT && t.touches >= 0 && (t.touches == 0 ==> t.net == 0 && t.debits == 0)
    requires t.touches == 1 ==> (t.debits == 1 && t.net <= 0) || (t.debits == 0 && t.net >= 0)
    ensures ApplyUpdate(d, u).Some? <==> Magnitude(t.net + u.Delta()) < LIMIT
    ensures ApplyUpdate(d, u).Some? ==> ApplyUpdate(d, u).value.Get(e) == Expected(Extend(f, u, e))
  {
    if t.touches > 0 {
      UpdatedEntry(d.Get(u.entry).value, t, u);
    }
  }

  lemma UpdateHolds(d: Diffs, us: seq<Update>, u: Update)
    requires Holds(d, us) && u.amount < LIMIT
    requires Magnitude(TallyOf(us, u.entry).net) < LIMIT
    ensures ApplyUpdate(d, u).Some? <==> Magnitude(TallyOf(us + [u], u.entry).net) < LIMIT
    ensures ApplyUpdate(d, u).Some? ==> Holds(ApplyUpdate(d, u).value, us + [u])
  {
    forall e
      ensures ApplyUpdate(d, u).Some? <==> Magnitude(TallyOf(us + [u], u.entry).net) < LIMIT
      ensures ApplyUpdate(d, u).Some? ==> ApplyUpdate(d, u).value.Get(e) == Expected(TallyOf(us + [u], e))
    {
      TallyShape(us, u.entry);
      TallySnoc(us, u, u.entry);
      TallySnoc(us, u, e);
      UpdateHoldsAt(d, TallyOf(us, u.entry), u, e, TallyOf(us, e));
    }
  }

  ghost predicate PrefixFits(us: seq<Update>, i: nat) {
    i <= |us| && forall e :: Magnitude(TallyOf(us[..i], e).net) < LIMIT
  }

  /** A run is defined exactly when no partial sum overflows, and then every entry is exact. */
  lemma {:induction false} RunIsExact(us: seq<Update>)
    requires Amounts(us)
    ensures RunFrom(NO_DIFFS, us).Some? <==> forall i: nat :: i <= |us| ==> PrefixFits(us, i)
    ensures RunFrom(NO_DIFFS, us).Some? ==> Holds(RunFrom(NO_DIFFS, us).value, us)
  {
    if us == [] {
      assert PrefixFits(us, 0);
    } else {
      var last := |us| - 1;
      var front := us[..last];
      assert us == front + [us[last]] && us[..|us|] == us;
      RunIsExact(front);
      RunSnoc(NO_DIFFS, front, us[last]);
      assert forall i: nat :: i <= last ==> front[..i] == us[..i];
      assert forall i: nat :: i <= last ==> (PrefixFits(front, i) <==> PrefixFits(us, i));
      if RunFrom(NO_DIFFS, front).Some? {
        assert PrefixFits(front, last) && front[..last] == front;
        UpdateHolds(RunFrom(NO_DIFFS, front).value, front, us[last]);
        forall e
          ensures e != us[last].entry ==> TallyOf(us, e) == TallyOf(front, e)
        {
          TallySnoc(front, us[last], e);
        }
        assert RunFrom(NO_DIFFS, us).Some? <==> PrefixFits(us, |us|);
      }
    }
  }

  // ----- Order does not matter -----

  function RemoveAt(us: seq<Update>, i: nat): seq<Update>
    requires i < |us|
  {
    us[..i] + us[i + 1..]
  }

  lemma RemoveAtLaws(us: seq<Update>, i: nat, e: Entry, c: Component)
    requires i < |us|
    ensures multiset(RemoveAt(us, i)) == multiset(us) - multiset{us[i]}
    ensures Sum(us, e, c) == Weight(us[i], e, c) + Sum(RemoveAt(us, i), e, c)
  {
    assert us == us[..i] + [us[i]] + us[i + 1..];
    SumConcat(us[..i], us[i + 1..], e, c);
    SumConcat(us[..i], us[i..], e, c);
    assert us == us[..i] + us[i..] && us[i..][1..] == us[i + 1..];
  }

  lemma {:induction false} SumPermutes(us: seq<Update>, vs: seq<Update>, e: Entry, c: Component)
    requires multiset(us) == multiset(vs)
    ensures Sum(us, e, c) == Sum(vs, e, c)
    decreases |us|
  {
    if us == [] {
      assert |multiset(vs)| == 0;
    } else {
      assert us[0] in multiset(vs);
      var i :| 0 <= i < |vs| && vs[i] == us[0];
      RemoveAtLaws(us, 0, e, c);
      RemoveAtLaws(vs, i, e, c);
      SumPermutes(RemoveAt(us, 0), RemoveAt(vs, i), e, c);
    }
  }

  lemma TallyPermutes(us: seq<Update>, vs: seq<Update>, e: Entry)
    requires multiset(us) == multiset(vs)
    ensures TallyOf(us, e) == TallyOf(vs, e)
  {
    forall c: Component
      ensures Sum(us, e, c) == Sum(vs, e, c)
    {
      SumPermutes(us, vs, e, c);
    }
  }

  lemma SameEntriesSameDiffs(c: Diffs, d: Diffs)
    requires forall e :: c.Get(e) == d.Get(e)
    ensures c == d
  {
    forall id
      ensures id in c.balances <==> id in d.balances
      ensures id in c.balances ==> c.balances[id] == d.balances[id]
    {
      assert c.Get(Balance(id)) == d.Get(Balance(id));
    }
    assert c.balances == d.balances;
    forall token
      ensures token in c.supplies <==> token in d.supplies
      ensures token in c.supplies ==> c.supplies[token] == d.supplies[token]
    {
      assert c.Get(Supply(token)) == d.Get(Supply(token));
    }
    assert c.supplies == d.supplies;
  }

  /** Two orders of the same updates that both complete end in identical maps, negative zeros included. */
  lemma OrderIrrelevant(us: seq<Update>, vs: seq<Update>)
    requires multiset(us) == multiset(vs) && Amounts(us)
    requires RunFrom(NO_DIFFS, us).Some? && RunFrom(NO_DIFFS, vs).Some?
    ensures RunFrom(NO_DIFFS, us) == RunFrom(NO_DIFFS, vs)
  {
    forall v | v in vs
      ensures v.amount < LIMIT
    {
      assert v in multiset(vs);
    }
    RunIsExact(us);
    RunIsExact(vs);
    forall e
      ensures RunFrom(NO_DIFFS, us).value.Get(e) == RunFrom(NO_DIFFS, vs).value.Get(e)
    {
      TallyPermutes(us, vs, e);
    }
    SameEntriesSameDiffs(RunFrom(NO_DIFFS, us).value, RunFrom(NO_DIFFS, vs).value);
  }

  lemma {:induction false} PrefixMagnitude(us: seq<Update>, i: nat, e: Entry)
    requires i <= |us|
    ensures TallyOf(us[..i], e).magnitude <= TallyOf(us, e).magnitude
  {
    SumConcat(us[..i], us[i..], e, Amount);
    assert us[..i] + us[i..] == us;
    TallyShape(us[i..], e);
  }

  /** If the amounts of every entry sum below 2^256, every order completes. */
  lemma BoundedRunsComplete(us: seq<Update>)
    requires Amounts(us) && forall e :: TallyOf(us, e).magnitude < LIMIT
    ensures RunFrom(NO_DIFFS, us).Some?
  {
    forall i: nat | i <= |us|
      ensures PrefixFits(us, i)
    {
      forall e
        ensures Magnitude(TallyOf(us[..i], e).net) < LIMIT
      {
        PrefixMagnitude(us, i, e);
        TallyShape(us[..i], e);
      }
    }
    RunIsExact(us);
  }

  /** Task `i` makes the update `u` next. */
  ghost predicate IsNext(tasks: seq<seq<Update>>, i: nat, u: Update) {
    i < |tasks| && tasks[i] != [] && tasks[i][0] == u
  }

  /** `us` is some interleaving of the update sequences of concurrent tasks. */
  ghost predicate Interleaves(tasks: seq<seq<Update>>, us: seq<Update>)
    decreases |us|
  {
    if us == [] then forall i :: 0 <= i < |tasks| ==> tasks[i] == []
    else exists i: nat :: IsNext(tasks, i, us[0]) && Interleaves(tasks[i := tasks[i][1..]], us[1..])
  }

  function Flatten(tasks: seq<seq<Update>>): seq<Update> {
    if tasks == [] then [] else tasks[0] + Flatten(tasks[1..])
  }

  lemma FlattenCons(first: seq<Update>, rest: seq<seq<Update>>)
    ensures multiset(Flatten([first] + rest)) == multiset(first) + multiset(Flatten(rest))
  {
    assert ([first] + rest)[1..] == rest;
  }

  lemma {:induction false} FlattenPops(tasks: seq<seq<Update>>, i: nat)
    requires i < |tasks| && tasks[i] != []
    ensures multiset(Flatten(tasks)) == multiset{tasks[i][0]} + multiset(Flatten(tasks[i := tasks[i][1..]]))
  {
    var first, rest := tasks[0], tasks[1..];
    assert tasks == [first] + rest;
    FlattenCons(first, rest);
    if i == 0 {
      assert tasks[i := first[1..]] == [first[1..]] + rest;
      FlattenCons(first[1..], rest);
      HeadOfMultiset(first);
    } else {
      var popped := rest[i - 1 := tasks[i][1..]];
      assert tasks[i := tasks[i][1..]] == [first] + popped;
      FlattenCons(first, popped);
      FlattenPops(rest, i - 1);
    }
  }

  lemma {:induction false} FlattenEmpty(tasks: seq<seq<Update>>)
    requires forall i :: 0 <= i < |tasks| ==> tasks[i] == []
    ensures Flatten(tasks) == []
  {
    if tasks != [] {
      assert tasks[0] == [];
      FlattenEmpty(tasks[1..]);
    }
  }

  lemma {:induction false} InterleavingPermutes(tasks: seq<seq<Update>>, us: seq<Update>)
    requires Interleaves(tasks, us)
    ensures multiset(us) == multiset(Flatten(tasks))
    decreases |us|
  {
    if us == [] {
      FlattenEmpty(tasks);
    } else {
      var i: nat :| IsNext(tasks, i, us[0]) && Interleaves(tasks[i := tasks[i][1..]], us[1..]);
      InterleavingPermutes(tasks[i := tasks[i][1..]], us[1..]);
      FlattenPops(tasks, i);
      HeadOfMultiset(us);
    }
  }

  lemma HeadOfMultiset(us: seq<Update>)
    requires us != []
    ensures multiset(us) == multiset{us[0]} + multiset(us[1..])
  {
    assert us == [us[0]] + us[1..];
  }

  /** Every interleaving of bounded tasks gives the maps of running the tasks one after the other. */
  lemma EveryInterleavingAgrees(tasks: seq<seq<Update>>, us: seq<Update>)
    requires Interleaves(tasks, us)
    requires Amounts(Flatten(tasks)) && forall e :: TallyOf(Flatten(tasks), e).magnitude < LIMIT
    ensures RunFrom(NO_DIFFS, us).Some? && RunFrom(NO_DIFFS, us) == RunFrom(NO_DIFFS, Flatten(tasks))
  {
    InterleavingPermutes(tasks, us);
    forall u | u in us
      ensures u.amount < LIMIT
    {
      assert u in multiset(Flatten(tasks));
    }
    forall e
      ensures TallyOf(us, e).magnitude < LIMIT
    {
      TallyPermutes(us, Flatten(tasks), e);
    }
    BoundedRunsComplete(us);
    BoundedRunsComplete(Flatten(tasks));
    OrderIrrelevant(us, Flatten(tasks));
  }

  // ----- Conservation -----

  ghost function Pick(accounts: set<Felt>): (a: Felt)
    requires accounts != {}
    ensures a in accounts
  {
    var a :| a in accounts;
    a
  }

  ghost function NetOf(us: seq<Update>, token: TokenId, account: Felt): int {
    TallyOf(us, Balance(BalanceId(account, token))).net
  }

  /** The sum of the deltas of a token over a set of accounts. */
  ghost function NetOver(us: seq<Update>, token: TokenId, accounts: set<Felt>): int {
    if accounts == {} then 0
    else NetOf(us, token, Pick(accounts)) + NetOver(us, token, accounts - {Pick(accounts)})
  }

  lemma {:induction false} NetOverConcat(us: seq<Update>, vs: seq<Update>, token: TokenId, accounts: set<Felt>)
    ensures NetOver(us + vs, token, accounts) == NetOver(us, token, accounts) + NetOver(vs, token, accounts)
    decreases accounts
  {
    if accounts != {} {
      SumConcat(us, vs, Balance(BalanceId(Pick(accounts), token)), Net);
      NetOverConcat(us, vs, token, accounts - {Pick(accounts)});
    }
  }

  lemma {:induction false} NetOverSingle(u: Update, token: TokenId, accounts: set<Felt>)
    ensures NetOver([u], token, accounts) ==
            if u.entry.Balance? && u.entry.id.token == token && u.entry.id.account in accounts then u.Delta() else 0
    decreases accounts
  {
    if accounts != {} {
      var a := Pick(accounts);
      SumSingle(u, Balance(BalanceId(a, token)), Net);
      NetOverSingle(u, token, accounts - {a});
    }
  }

  lemma {:induction false} NetOverNothing(token: TokenId, accounts: set<Felt>)
    ensures NetOver([], token, accounts) == 0
    decreases accounts
  {
    if accounts != {} {
      NetOverNothing(token, accounts - {Pick(accounts)});
    }
  }

  ghost predicate Covers(accounts: set<Felt>, t: Transfer) {
    (t.from != 0 ==> t.from in accounts) && (t.to != 0 ==> t.to in accounts)
  }

  ghost predicate CoversAll(accounts: set<Felt>, ts: seq<Transfer>, token: TokenId) {
    forall t :: t in ts && t.token == token ==> Covers(accounts, t)
  }

  /** How much a sequence of updates adds to the accounts beyond what it adds to the supply. */
  ghost function Surplus(us: seq<Update>, token: TokenId, accounts: set<Felt>): int {
    NetOver(us, token, accounts) - TallyOf(us, Supply(token)).net
  }

  lemma SurplusConcat(us: seq<Update>, vs: seq<Update>, token: TokenId, accounts: set<Felt>)
    ensures Surplus(us + vs, token, accounts) == Surplus(us, token, accounts) + Surplus(vs, token, accounts)
  {
    NetOverConcat(us, vs, token, accounts);
    SumConcat(us, vs, Supply(token), Net);
  }

  lemma SurplusSingle(u: Update, token: TokenId, accounts: set<Felt>)
    ensures Surplus([u], token, accounts) ==
            match u.entry
            case Balance(id) => if id.token == token && id.account in accounts then u.Delta() else 0
            case Supply(k) => if k == token then -u.Delta() else 0
  {
    NetOverSingle(u, token, accounts);
    SumSingle(u, Supply(token), Net);
  }

  /** One transfer moves as much between the accounts of its token as it adds to the supply. */
  lemma TransferConserves(t: Transfer, token: TokenId, accounts: set<Felt>)
    requires t.token == token ==> Covers(accounts, t)
    ensures Surplus(UpdatesOf(t), token, accounts) == 0
  {
    var debit, credit := Update(Balance(BalanceId(t.from, t.token)), t.value, true), Update(Balance(BalanceId(t.to, t.token)), t.value, false);
    var mint, burn := Update(Supply(t.token), t.value, false), Update(Supply(t.token), t.value, true);
    SurplusSingle(debit, token, accounts);
    SurplusSingle(credit, token, accounts);
    SurplusSingle(mint, token, accounts);
    SurplusSingle(burn, token, accounts);
    if t.from == 0 && t.to == 0 {
      NetOverNothing(token, accounts);
    } else if t.from == 0 {
      assert UpdatesOf(t) == [credit] + [mint];
      SurplusConcat([credit], [mint], token, accounts);
    } else if t.to == 0 {
      assert UpdatesOf(t) == [debit] + [burn];
      SurplusConcat([debit], [burn], token, accounts);
    } else {
      assert UpdatesOf(t) == [debit] + [credit];
      SurplusConcat([debit], [credit], token, accounts);
    }
  }

  lemma {:induction false} TransfersConserve(ts: seq<Transfer>, token: TokenId, accounts: set<Felt>)
    requires CoversAll(accounts, ts, token)
    ensures Surplus(UpdatesOfAll(ts), token, accounts) == 0
  {
    if ts == [] {
      NetOverNothing(token, accounts);
    } else {
      var last := |ts| - 1;
      assert ts[last] in ts;
      TransfersConserve(ts[..last], token, accounts);
      TransferConserves(ts[last], token, accounts);
      SurplusConcat(UpdatesOfAll(ts[..last]), UpdatesOf(ts[last]), token, accounts);
    }
  }

  /** The accounts with a balance diff in a token. */
  ghost function Accounts(d: Diffs, token: TokenId): set<Felt> {
    set id | id in d.balances && id.token == token :: id.account
  }

  ghost function SumOver(d: Diffs, token: TokenId, accounts: set<Felt>): int {
    if accounts == {} then 0
    else
      d.ValueOf(Balance(BalanceId(Pick(accounts), token))) + SumOver(d, token, accounts - {Pick(accounts)})
  }

  lemma HeldValue(d: Diffs, us: seq<Update>, e: Entry)
    requires Holds(d, us)
    ensures d.ValueOf(e) == TallyOf(us, e).net
  {
    TallyShape(us, e);
    assert d.Get(e) == Expected(TallyOf(us, e));
  }

  lemma {:induction false} SumOverIsNet(d: Diffs, us: seq<Update>, token: TokenId, accounts: set<Felt>)
    requires Holds(d, us)
    ensures SumOver(d, token, accounts) == NetOver(us, token, accounts)
    decreases accounts
  {
    if accounts != {} {
      HeldValue(d, us, Balance(BalanceId(Pick(accounts), token)));
      SumOverIsNet(d, us, token, accounts - {Pick(accounts)});
    }
  }

  lemma {:induction false} TouchedByTransfer(ts: seq<Transfer>, t: Transfer, account: Felt)
    requires t in ts && account != 0 && (t.from == account || t.to == account)
    ensures TallyOf(UpdatesOfAll(ts), Balance(BalanceId(account, t.token))).touches > 0
  {
    var last := |ts| - 1;
    var e := Balance(BalanceId(account, t.token));
    var before, now := UpdatesOfAll(ts[..last]), UpdatesOf(ts[last]);
    SumConcat(before, now, e, Touches);
    TallyShape(before, e);
    TallyShape(now, e);
    if ts[last] == t {
      var i := if t.from == account then 0 else |now| - 1 - (if t.from == 0 || t.to == 0 then 1 else 0);
      TouchedAt(now, i, e);
    } else {
      TouchedByTransfer(ts[..last], t, account);
    }
  }

  lemma TouchedAt(us: seq<Update>, i: nat, e: Entry)
    requires i < |us| && us[i].entry == e
    ensures Sum(us, e, Touches) > 0
  {
    SumConcat(us[..i], us[i..], e, Touches);
    assert us == us[..i] + us[i..];
    TallyShape(us[..i], e);
    TallyShape(us[i..][1..], e);
  }

  lemma AccountTouched(ts: seq<Transfer>, us: seq<Update>, d: Diffs, t: Transfer, a: Felt)
    requires multiset(us) == multiset(UpdatesOfAll(ts)) && Holds(d, us)
    requires t in ts && a != 0 && (t.from == a || t.to == a)
    ensures a in Accounts(d, t.token)
  {
    var e := Balance(BalanceId(a, t.token));
    TouchedByTransfer(ts, t, a);
    TallyPermutes(us, UpdatesOfAll(ts), e);
    assert d.Get(e) == Expected(TallyOf(us, e));
  }

  lemma AccountsCover(ts: seq<Transfer>, us: seq<Update>, d: Diffs, token: TokenId)
    requires multiset(us) == multiset(UpdatesOfAll(ts)) && Holds(d, us)
    ensures CoversAll(Accounts(d, token), ts, token)
  {
    forall t | t in ts && t.token == token
      ensures Covers(Accounts(d, token), t)
    {
      if t.from != 0 {
        AccountTouched(ts, us, d, t, t.from);
      }
      if t.to != 0 {
        AccountTouched(ts, us, d, t, t.to);
      }
    }
  }

  /**
   Conservation: in whatever order the updates of a list of transfers are applied, the balance diffs of a
   token sum to its supply diff.
   */
  lemma Conservation(ts: seq<Transfer>, us: seq<Update>, token: TokenId)
    requires multiset(us) == multiset(UpdatesOfAll(ts)) && Amounts(us)
    requires RunFrom(NO_DIFFS, us).Some?
    ensures var d := RunFrom(NO_DIFFS, us).value;
            SumOver(d, token, Accounts(d, token)) == d.ValueOf(Supply(token))
  {
    var d := RunFrom(NO_DIFFS, us).value;
    var accounts := Accounts(d, token);
    RunIsExact(us);
    AccountsCover(ts, us, d, token);
    TransfersConserve(ts, token, accounts);
    SumOverIsNet(d, us, token, accounts);
    NetOverPermutes(us, UpdatesOfAll(ts), token, accounts);
    TallyPermutes(us, UpdatesOfAll(ts), Supply(token));
    HeldValue(d, us, Supply(token));
  }

  lemma {:induction false} NetOverPermutes(us: seq<Update>, vs: seq<Update>, token: TokenId, accounts: set<Felt>)
    requires multiset(us) == multiset(vs)
    ensures NetOver(us, token, accounts) == NetOver(vs, token, accounts)
    decreases accounts
  {
    if accounts != {} {
      TallyPermutes(us, vs, Balance(BalanceId(Pick(accounts), token)));
      NetOverPermutes(us, vs, token, accounts - {Pick(accounts)});
    }
  }

  // ----- What transfers mean for an entry -----

  /** What an account receives in a token. */
  ghost function Received(ts: seq<Transfer>, account: Felt, token: TokenId): int {
    if ts == [] then 0
    else
      var t := ts[|ts| - 1];
      Received(ts[..|ts| - 1], account, token) + if t.token == token && t.to == account then t.value else 0
  }

  /** What an account sends in a token. */
  ghost function Sent(ts: seq<Transfer>, account: Felt, token: TokenId): int {
    if ts == [] then 0
    else
      var t := ts[|ts| - 1];
      Sent(ts[..|ts| - 1], account, token) + if t.token == token && t.from == account then t.value else 0
  }

  /** What comes from address zero to an account. */
  ghost function Minted(ts: seq<Transfer>, token: TokenId): int {
    if ts == [] then 0
    else
      var t := ts[|ts| - 1];
      Minted(ts[..|ts| - 1], token) + if t.token == token && t.from == 0 && t.to != 0 then t.value else 0
  }

  /** What goes from an account to address zero. */
  ghost function Burnt(ts: seq<Transfer>, token: TokenId): int {
    if ts == [] then 0
    else
      var t := ts[|ts| - 1];
      Burnt(ts[..|ts| - 1], token) + if t.token == token && t.from != 0 && t.to == 0 then t.value else 0
  }

  /** Received minus sent for an account, minted minus burnt for the supply; address zero has no balance. */
  ghost function TransferNet(ts: seq<Transfer>, e: Entry): int {
    match e
    case Balance(id) => if id.account == 0 then 0 else Received(ts, id.account, id.token) - Sent(ts, id.account, id.token)
    case Supply(token) => Minted(ts, token) - Burnt(ts, token)
  }

  lemma SumPair(u: Update, v: Update, e: Entry)
    ensures Sum([u] + [v], e, Net) == Weight(u, e, Net) + Weight(v, e, Net)
  {
    SumConcat([u], [v], e, Net);
    SumSingle(u, e, Net);
    SumSingle(v, e, Net);
  }

  lemma OneTransferNet(ts: seq<Transfer>, t: Transfer, e: Entry)
    requires ts != [] && ts[|ts| - 1] == t
    ensures TransferNet(ts, e) == TransferNet(ts[..|ts| - 1], e) + Sum(UpdatesOf(t), e, Net)
  {
    var debit, credit := Update(Balance(BalanceId(t.from, t.token)), t.value, true), Update(Balance(BalanceId(t.to, t.token)), t.value, false);
    var mint, burn := Update(Supply(t.token), t.value, false), Update(Supply(t.token), t.value, true);
    if t.from == 0 && t.to != 0 {
      assert UpdatesOf(t) == [credit] + [mint];
      SumPair(credit, mint, e);
    } else if t.from != 0 && t.to == 0 {
      assert UpdatesOf(t) == [debit] + [burn];
      SumPair(debit, burn, e);
    } else if t.from != 0 {
      assert UpdatesOf(t) == [debit] + [credit];
      SumPair(debit, credit, e);
    }
  }

  lemma {:induction false} NetOfTransfers(ts: seq<Transfer>, e: Entry)
    ensures Sum(UpdatesOfAll(ts), e, Net) == TransferNet(ts, e)
  {
    if ts != [] {
      var last := |ts| - 1;
      NetOfTransfers(ts[..last], e);
      OneTransferNet(ts, ts[last], e);
      SumConcat(UpdatesOfAll(ts[..last]), UpdatesOf(ts[last]), e, Net);
    }
  }

  /**
   In whatever order the updates of a list of transfers are applied, a balance diff is what the account
   received minus what it sent, and a supply diff what was minted minus what was burnt.
   */
  lemma DiffsAreTransfers(ts: seq<Transfer>, us: seq<Update>, e: Entry)
    requires multiset(us) == multiset(UpdatesOfAll(ts)) && Amounts(us) && RunFrom(NO_DIFFS, us).Some?
    ensures RunFrom(NO_DIFFS, us).value.ValueOf(e) == TransferNet(ts, e)
  {
    RunIsExact(us);
    HeldValue(RunFrom(NO_DIFFS, us).value, us, e);
    TallyPermutes(us, UpdatesOfAll(ts), e);
    NetOfTransfers(ts, e);
  }

  ghost predicate AllFit(d: Diffs) {
    forall e :: d.Get(e).Some? ==> d.Get(e).value.Fits()
  }

  lemma UpdateMoves(d: Diffs, u: Update, e: Entry)
    requires AllFit(d) && u.amount < LIMIT && ApplyUpdate(d, u).Some?
    ensures ApplyUpdate(d, u).value.ValueOf(e) == d.ValueOf(e) + Weight(u, e, Net)
    ensures ApplyUpdate(d, u).value.Get(e).Some? ==> ApplyUpdate(d, u).value.Get(e).value.Fits()
  {
    if d.Get(u.entry).Some? {
      AddIsExact(d.Get(u.entry).value, I256(u.amount, false));
      SubIsExact(d.Get(u.entry).value, I256(u.amount, false));
    }
  }

  /** A run from any diffs moves every entry by the sum of its deltas. */
  lemma {:induction false} RunMoves(d: Diffs, us: seq<Update>, e: Entry)
    requires AllFit(d) && Amounts(us) && RunFrom(d, us).Some?
    ensures RunFrom(d, us).value.ValueOf(e) == d.ValueOf(e) + Sum(us, e, Net)
    decreases us
  {
    if us != [] {
      assert us[0] in us;
      var after := ApplyUpdate(d, us[0]).value;
      forall f
        ensures after.Get(f).Some? ==> after.Get(f).value.Fits()
      {
        UpdateMoves(d, us[0], f);
      }
      UpdateMoves(d, us[0], e);
      RunMoves(after, us[1..], e);
    }
  }

  /** One transfer debits the sender, credits the receiver, and mints or burns when one side is address zero. */
  lemma TransferMoves(d: Diffs, t: Transfer)
    requires AllFit(d) && t.value < LIMIT && RunFrom(d, UpdatesOf(t)).Some?
    ensures forall e :: RunFrom(d, UpdatesOf(t)).value.ValueOf(e) == d.ValueOf(e) + TransferNet([t], e)
  {
    forall e
      ensures RunFrom(d, UpdatesOf(t)).value.ValueOf(e) == d.ValueOf(e) + TransferNet([t], e)
    {
      RunMoves(d, UpdatesOf(t), e);
      OneTransferNet([t], t, e);
      assert [t][..0] == [];
    }
  }

  // ----- The mutable cache -----

  class ErcCache {
    var balancesDiff: map<BalanceId, I256>
    var totalSupplyDiff: map<TokenId, I256>

    ghost function View(): Diffs
      reads this
    {
      Diffs(balancesDiff, totalSupplyDiff)
    }

    constructor ()
      ensures View() == NO_DIFFS
    {
      balancesDiff, totalSupplyDiff := map[], map[];
    }

    /** One atomic `entry().and_modify().or_insert()`; an overflow leaves the entry alone and aborts. */
    method Touch(u: Update) returns (aborted: bool)
      modifies this
      ensures aborted <==> ApplyUpdate(old(View()), u).None?
      ensures View() == if aborted then old(View()) else ApplyUpdate(old(View()), u).value
    {
      var current := Diffs(balancesDiff, totalSupplyDiff).Get(u.entry);
      var updated := I256(u.amount, u.debit);
      if current.Some? {
        var r := if u.debit then Sub(current.value, I256(u.amount, false)) else Add(current.value, I256(u.amount, false));
        if r.None? {
          return true;
        }
        updated := r.value;
      }
      match u.entry {
        case Balance(id) => balancesDiff := balancesDiff[id := updated];
        case Supply(token) => totalSupplyDiff := totalSupplyDiff[token := updated];
      }
      return false;
    }

    method UpdateBalanceDiff(token: TokenId, from: Felt, to: Felt, value: nat) returns (aborted: bool)
      modifies this
      ensures aborted <==> RunFrom(old(View()), UpdatesOf(Transfer(token, from, to, value))).None?
      ensures !aborted ==> RunFrom(old(View()), UpdatesOf(Transfer(token, from, to, value))) == Some(View())
      ensures !aborted && AllFit(old(View())) && value < LIMIT ==>
                forall e :: View().ValueOf(e) == old(View()).ValueOf(e) + TransferNet([Transfer(token, from, to, value)], e)
    {
      ghost var start := View();
      ghost var all := UpdatesOf(Transfer(token, from, to, value));
      if AllFit(start) && value < LIMIT && RunFrom(start, all).Some? {
        TransferMoves(start, Transfer(token, from, to, value));
      }
      ghost var applied: seq<Update> := [];
      aborted := false;
      if from != 0 {
        aborted := Touch(Update(Balance(BalanceId(from, token)), value, true));
        RunSnoc(start, applied, all[0]);
        applied := applied + [all[0]];
        if aborted {
          RunStopsAtAbort(start, all, |applied|);
          return;
        }
      }
      if to != 0 {
        aborted := Touch(Update(Balance(BalanceId(to, token)), value, false));
        RunSnoc(start, applied, all[|applied|]);
        applied := applied + [all[|applied|]];
        assert applied == all[..|applied|];
        if aborted {
          RunStopsAtAbort(start, all, |applied|);
          return;
        }
      }
      // NFT tokens and contract-level tokens track mints and burns alike.
      if from == 0 && to != 0 {
        aborted := Touch(Update(Supply(token), value, false));
        RunSnoc(start, applied, all[1]);
        assert all == applied + [all[1]];
      } else if from != 0 && to == 0 {
        aborted := Touch(Update(Supply(token), value, true));
        RunSnoc(start, applied, all[1]);
        assert all == applied + [all[1]];
      } else {
        assert all == applied;
      }
    }

    method ClearBalancesDiff()
      modifies this
      ensures View() == NO_DIFFS
    {
      balancesDiff, totalSupplyDiff := map[], map[];
    }
  }

  lemma {:induction false} RunStopsAtAbort(d: Diffs, us: seq<Update>, i: nat)
    requires i <= |us| && RunFrom(d, us[..i]).None?
    ensures RunFrom(d, us).None?
    decreases us
  {
    if us != [] && i > 0 {
      assert us[..i][1..] == us[1..][..i - 1];
      if ApplyUpdate(d, us[0]).Some? {
        RunStopsAtAbort(ApplyUpdate(d, us[0]).value, us[1..], i - 1);
      }
    }
  }
}
