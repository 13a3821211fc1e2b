/** Clamped conservation over whole runs of the five tasks: ticks, outcomes, exits, sweeps and
    rotations in between leave a live token's balance to its trade events alone. */
module SystemBalance {
  import opened MachineInt
  import opened VenueTypes
  import opened InventorySpec
  import opened RuntimeSpec
  import opened Protocol
  import opened Conservation

  const NO_TRADES: Ledger := Ledger(map[], map[])

  /** The trade events of a run, in order. */
  function TradeEvents(steps: seq<Step>): Events {
    if steps == [] then []
    else
      var last := steps[|steps| - 1];
      TradeEvents(steps[..|steps| - 1]) + if last.UserEvent? then [last.trade] else []
  }

  /** The token stays in the active market through every rotation. */
  ghost predicate StaysActive(steps: seq<Step>, token: TokenId) {
    forall i :: 0 <= i < |steps| && steps[i].Rotation? ==> token in {steps[i].market.yesToken, steps[i].market.noToken}
  }

  /** Same trade records and same balance on the token. */
  ghost predicate AgreeOn(a: Ledger, b: Ledger, token: TokenId) {
    a.trades == b.trades && OwnedIn(a.owned, token) == OwnedIn(b.owned, token)
  }

  lemma TradeAgrees(a: Ledger, b: Ledger, t: UserTrade, token: TokenId)
    requires AgreeOn(a, b, token)
    ensures AgreeOn(LedgerStep(a, t), LedgerStep(b, t), token)
  {
  }

  /** A step that is no trade keeps the records, and the balance of a token that stays active. */
  lemma QuietStep(cfg: RuntimeConfig, s: System, step: Step, token: TokenId)
    requires !step.UserEvent?
    requires step.Rotation? ==> token in {step.market.yesToken, step.market.noToken}
    ensures AgreeOn(Next(cfg, s, step).core.inv.ledger, s.core.inv.ledger, token)
  {
    if step.Rotation? {
      assert Next(cfg, s, step).core == Rotate(s.core, step.market);
    } else {
      LedgerUntouched(cfg, s, step);
    }
  }

  /** At every point of a run the token's balance is the one its trade events alone produce. */
  lemma {:induction false} BalanceFollowsTrades(cfg: RuntimeConfig, states: seq<System>, steps: seq<Step>, k: nat,
                                                token: TokenId)
    requires IsRun(cfg, states, steps) && k <= |steps| && StaysActive(steps, token)
    ensures AgreeOn(states[k].core.inv.ledger, Run(NO_TRADES, TradeEvents(steps[..k])), token)
  {
    if k > 0 {
      BalanceFollowsTrades(cfg, states, steps, k - 1, token);
      assert IsStep(cfg, states, steps, k - 1);
      assert steps[..k][..k - 1] == steps[..k - 1];
      var events := TradeEvents(steps[..k - 1]);
      if steps[k - 1].UserEvent? {
        var t := steps[k - 1].trade;
        assert (events + [t])[..|events + [t]| - 1] == events;
        TradeAgrees(states[k - 1].core.inv.ledger, Run(NO_TRADES, events), t, token);
      } else {
        assert events + [] == events;
        QuietStep(cfg, states[k - 1], steps[k - 1], token);
      }
    }
  }

  /** Clamped conservation over every interleaving: owned is the running signed sum of the effective
      trade deltas, lifted by however far that sum ever fell below zero; and the sum itself is the
      sum, over the trades opened on the token, of what each contributes by the closed form. */
  lemma SystemConservation(cfg: RuntimeConfig, states: seq<System>, steps: seq<Step>, token: TokenId)
    requires IsRun(cfg, states, steps) && StaysActive(steps, token)
    requires Credits(NO_TRADES, TradeEvents(steps), token) <= I64_MAX
    ensures var events := TradeEvents(steps);
            && OwnedAtoms(states[|steps|].core.inv, token)
               == Sum(NO_TRADES, events, token) - Lowest(NO_TRADES, events, token)
            && Sum(NO_TRADES, events, token) == Total(events, TradesOn(events, token))
  {
    var events := TradeEvents(steps);
    var owned, sum, lowest := OwnedIn(states[|steps|].core.inv.ledger.owned, token),
                              Sum(NO_TRADES, events, token), Lowest(NO_TRADES, events, token);
    assert owned == OwnedIn(Run(NO_TRADES, events).owned, token) by {
      assert steps[..|steps|] == steps;
      BalanceFollowsTrades(cfg, states, steps, |steps|, token);
    }
    assert 0 <= owned == sum - Min(0, lowest) by {
      ClampedConservation(NO_TRADES, events, token);
    }
    assert lowest <= 0 by {
      LowestBelow(NO_TRADES, events, token, 0);
      assert events[..0] == [];
    }
    SumIsTotalOfTrades(NO_TRADES, events, token);
  }
}
