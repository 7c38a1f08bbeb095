/**
 The lock protocol of token registration carries out what the engine loop treats as one step per token: when
 all tasks of a run have returned, registry, storage and counts are those after one `Register` step for each
 stored token.
 */
module RegistrationRefinement {
  import opened ErcLedger
  import Engine
  import TokenRegistration

  ghost predicate OnlyRegisters(actions: seq<Engine.Action>) {
    forall a: Engine.Action :: a in actions ==> a.Register?
  }

  /** The engine state with some more tokens registered and the updates for them owed. */
  ghost predicate RegistersExactly(g: Engine.State, h: Engine.State, tokens: set<TokenId>) {
    && h == g.(registered := g.registered + tokens, pending := g.pending.(tokens := g.pending.tokens + tokens), todo := h.todo)
    && forall e :: Sum(h.todo, e, Net) == Sum(g.todo, e, Net) + Engine.RegistrationNet(tokens, e)
  }

  lemma RegistersNothing(g: Engine.State)
    ensures RegistersExactly(g, g, {})
  {
    forall e
      ensures Engine.RegistrationNet({}, e) == 0
    {
      Engine.RegistrationNetNothing(e);
    }
    assert g.registered + {} == g.registered && g.pending.tokens + {} == g.pending.tokens;
  }

  lemma RegisterOne(chain: seq<Transfer>, g: Engine.State, t: TokenId)
    requires Engine.Enabled(chain, g, Engine.Register(t))
    ensures RegistersExactly(g, Engine.Do(chain, g, Engine.Register(t)), {t})
  {
    forall e
      ensures Sum(g.todo + Engine.RegistrationUpdates(t), e, Net) == Sum(g.todo, e, Net) + Engine.RegistrationNet({t}, e)
    {
      Engine.OwedByRegistration(g.todo, t, e);
    }
  }

  lemma RegistersCompose(g: Engine.State, h: Engine.State, k: Engine.State, a: set<TokenId>, b: set<TokenId>)
    requires RegistersExactly(g, h, a) && RegistersExactly(h, k, b) && a !! b
    ensures RegistersExactly(g, k, a + b)
  {
    forall e
      ensures Sum(k.todo, e, Net) == Sum(g.todo, e, Net) + Engine.RegistrationNet(a + b, e)
    {
      Engine.RegistrationNetDisjoint(a, b, e);
    }
    assert g.registered + (a + b) == g.registered + a + b;
    assert g.pending.tokens + (a + b) == g.pending.tokens + a + b;
  }

  lemma {:induction false} RegisterAll(chain: seq<Transfer>, g: Engine.State, tokens: set<TokenId>)
    returns (actions: seq<Engine.Action>)
    requires g.phase == Engine.Handling && tokens !! g.registered && tokens <= Engine.TokensOfAll(g.queued)
    ensures Engine.IsRun(chain, g, actions) && OnlyRegisters(actions)
    ensures RegistersExactly(g, Engine.Run(chain, g, actions), tokens)
    decreases tokens
  {
    if tokens == {} {
      actions := [];
      RegistersNothing(g);
    } else {
      var t :| t in tokens;
      var h := Engine.Do(chain, g, Engine.Register(t));
      RegisterOne(chain, g, t);
      var rest := RegisterAll(chain, h, tokens - {t});
      actions := [Engine.Register(t)] + rest;
      assert actions[1..] == rest;
      RegistersCompose(g, h, Engine.Run(chain, h, rest), {t}, tokens - {t});
      assert {t} + (tokens - {t}) == tokens;
    }
  }

  /** The tasks of a protocol run work for tokens of the queued events. */
  ghost predicate WorksFor(e: TokenRegistration.State, queued: seq<Transfer>) {
    forall id :: id in e.tasks ==> Engine.Named(queued, e.tasks[id].token)
  }

  /** Every token of the queued events has a task that returned without an error. */
  ghost predicate AllSucceeded(e: TokenRegistration.State, queued: seq<Transfer>) {
    forall t :: Engine.Named(queued, t) ==>
      exists id :: id in e.tasks && e.tasks[id] == TokenRegistration.Task(t, TokenRegistration.Returned(true))
  }

  lemma ProtocolFacts(s: TokenRegistration.State, steps: seq<TokenRegistration.Step>, c: Felt)
    requires TokenRegistration.Init(s) && TokenRegistration.IsRun(s, steps)
    requires TokenRegistration.Quiescent(TokenRegistration.Run(s, steps))
    ensures var e := TokenRegistration.Run(s, steps);
            && TokenRegistration.ReturnInv(e)
            && TokenRegistration.Base(e) == TokenRegistration.Base(s) + e.stored
            && TokenRegistration.Base(s) !! e.stored
            && e.SupplyOf(c) == |NftsOf(e.stored, c)|
  {
    TokenRegistration.InitInv(s);
    TokenRegistration.RunKeepsReturnInv(TokenRegistration.Base(s), s, steps);
    TokenRegistration.QuiescentCounts(s, steps, c);
    var e := TokenRegistration.Run(s, steps);
    assert TokenRegistration.Base(e) - TokenRegistration.Base(s) == e.stored;
  }

  /**
   Every protocol run that has come to rest has the effect of `Register` steps of the engine, one for each
   stored token: the same registered tokens, the same stored tokens, and owed updates that add up to the
   counted supply. If all its tasks succeeded, every token of the batch is registered, as joining demands.
   */
  lemma ProtocolRefinesRegister(chain: seq<Transfer>, g: Engine.State, s: TokenRegistration.State,
                                steps: seq<TokenRegistration.Step>)
    returns (actions: seq<Engine.Action>)
    requires TokenRegistration.Init(s) && TokenRegistration.IsRun(s, steps)
    requires TokenRegistration.Quiescent(TokenRegistration.Run(s, steps))
    requires g.phase == Engine.Handling && g.registered == TokenRegistration.Base(s)
    requires WorksFor(TokenRegistration.Run(s, steps), g.queued)
    ensures Engine.IsRun(chain, g, actions) && OnlyRegisters(actions)
    ensures var (h, e) := (Engine.Run(chain, g, actions), TokenRegistration.Run(s, steps));
            && RegistersExactly(g, h, e.stored) && h.registered == TokenRegistration.Base(e)
            && (forall c :: Sum(h.todo, Supply(Contract(c)), Net) == Sum(g.todo, Supply(Contract(c)), Net) + e.SupplyOf(c))
            && (AllSucceeded(e, g.queued) ==> forall t :: Engine.Named(g.queued, t) ==> t in h.registered)
  {
    var e := TokenRegistration.Run(s, steps);
    ProtocolFacts(s, steps, 0);
    forall t | t in e.stored
      ensures t in Engine.TokensOfAll(g.queued)
    {
      assert TokenRegistration.HasTask(e, t);
      Engine.TokensAreNamed(g.queued, t);
    }
    actions := RegisterAll(chain, g, e.stored);
    forall c
      ensures e.SupplyOf(c) == Engine.RegistrationNet(e.stored, Supply(Contract(c)))
    {
      ProtocolFacts(s, steps, c);
    }
    if AllSucceeded(e, g.queued) {
      forall t | Engine.Named(g.queued, t)
        ensures t in TokenRegistration.Base(e)
      {
        assert e.IsRegistered(t);
      }
    }
  }
}
