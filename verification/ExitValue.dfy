/** What a planning pass reads about a held side, over the pass itself: its own side's fair price and
    pressure, and what follows for keeping the position. */
module ExitValue {
  import opened Wrappers
  import opened MachineInt
  import opened VenueTypes
  import opened InventorySpec
  import opened MarketState
  import opened RuntimeSpec
  import opened Protocol
  import opened ExitSafety
  import opened SignalRules
  import Signal

  /** The probability of YES at a planning pass, with the market's remaining time. */
  function PassProbability(cfg: RuntimeConfig, c: CoreState, now: int, model: Option<real>): Option<real>
    requires c.market.market.Some?
  {
    Signal.ProbYes(cfg.signal, c.signal, TimeToExpiry(c.market.market.value, now), model)
  }

  /** The fair price of a side is the whole ticks of its own probability, and there is one exactly with a
      current window and a probability. */
  ghost predicate FairOf(cfg: RuntimeConfig, c: CoreState, side: OutcomeSide, now: int, model: Option<real>,
                         fair: Option<int>)
    requires c.market.market.Some?
  {
    var p := PassProbability(cfg, c, now, model);
    && (fair.Some? <==> Current(cfg.signal, c.signal, now) && p.Some?)
    && (fair.Some? ==> fair.value as real <= 100.0 * ShareOf(side, p.value) < fair.value as real + 1.0)
  }

  /** The window presses against a side held when it points to the other outcome. */
  ghost predicate PressedAs(cfg: RuntimeConfig, c: CoreState, side: OutcomeSide, now: int, opposes: Option<bool>) {
    && (opposes.Some? <==> Current(cfg.signal, c.signal, now))
    && (opposes.Some? ==>
          (opposes.value <==> if side.Yes? then Downward(cfg.signal, PressureOf(cfg.signal, c.signal))
                              else Upward(cfg.signal, PressureOf(cfg.signal, c.signal))))
  }

  lemma ReadingOfSide(cfg: RuntimeConfig, c: CoreState, side: OutcomeSide, now: int, model: Option<real>)
    requires c.market.market.Some?
    ensures var sig := ReadSide(cfg, c, side, now, model);
            FairOf(cfg, c, side, now, model, sig.fairTicks) && PressedAs(cfg, c, side, now, sig.opposes)
  {
    var sig, tte := ReadSide(cfg, c, side, now, model), TimeToExpiry(c.market.market.value, now);
    var p := PassProbability(cfg, c, now, model);
    if sig.fairTicks.Some? {
      FairExactlyWhen(cfg.signal, c.signal, side, now, tte, model, sig.fairTicks.value);
    } else if p.Some? {
      FairExactlyWhen(cfg.signal, c.signal, side, now, tte, model, (100.0 * ShareOf(side, p.value)).Floor);
    }
    if sig.opposes.Some? {
      OpposesExactlyWhen(cfg.signal, c.signal, side, now, sig.opposes.value);
    } else {
      OpposesExactlyWhen(cfg.signal, c.signal, side, now, true);
      OpposesExactlyWhen(cfg.signal, c.signal, side, now, false);
    }
  }

  /** The side of a token in a market of two distinct ones. */
  function SideHeld(m: MarketContext, token: TokenId): OutcomeSide {
    if token == m.yesToken then Yes else No
  }

  /** Every decision of a pass rests on the fair price and the pressure of the side its own token is on. */
  lemma DecisionReadsItsSide(cfg: RuntimeConfig, c: CoreState, now: int, model: Option<real>, d: ExitDecision)
    requires c.market.market.Some? && c.market.market.value.yesToken != c.market.market.value.noToken
    requires d in PlanExits(cfg, c, now, model).1
    ensures var side := SideHeld(c.market.market.value, d.plan.token);
            && FairOf(cfg, c, side, now, model, d.fairTicks)
            && PressedAs(cfg, c, side, now, d.opposes)
  {
    var y, n := c.market.market.value.yesToken, c.market.market.value.noToken;
    var c1 := c.(trackers := TrackersAfterPlan(c, y));
    var yes, no := ReadSide(cfg, c, Yes, now, model), ReadSide(cfg, c, No, now, model);
    ReadingOfSide(cfg, c, Yes, now, model);
    ReadingOfSide(cfg, c, No, now, model);
    SecondToken(cfg, c, y, n, no, now);
    if d in Listed(PlanExitFor(cfg, c, y, yes, now)) {
      DecisionFor(cfg, c, y, yes, now, d);
      CarriesReading(cfg, c, y, yes, now, d);
    } else {
      assert d in Listed(PlanExitFor(cfg, c1, n, no, now));
      DecisionFor(cfg, c, n, no, now, d);
      CarriesReading(cfg, c, n, no, now, d);
    }
  }

  lemma CarriesReading(cfg: RuntimeConfig, c: CoreState, token: TokenId, sig: SideSignal, now: int, d: ExitDecision)
    requires d in Listed(PlanExitFor(cfg, c, token, sig, now))
    ensures d.fairTicks == sig.fairTicks && d.opposes == sig.opposes
  {
  }

  /** The signal a sale is decided on, for a token of the active market. */
  lemma SignalForReads(cfg: RuntimeConfig, c: CoreState, step: Step, token: TokenId)
    requires step.ExitPass? && c.market.market.Some?
    ensures var side := SideHeld(c.market.market.value, token);
            var sig := SignalFor(cfg, c, step, token);
            && FairOf(cfg, c, side, step.now, step.model, sig.fairTicks)
            && PressedAs(cfg, c, side, step.now, sig.opposes)
  {
    ReadingOfSide(cfg, c, SideHeld(c.market.market.value, token), step.now, step.model);
  }

  /** A held side whose probability is worth more than the bid and the edge together, a whole tick over,
      and which the window does not press against, is kept by the pass: YES on the probability of YES, NO on
      that of NO. */
  lemma FairlyHeldIsKept(cfg: RuntimeConfig, s: System, step: Step, token: TokenId)
    requires step.ExitPass? && s.core.market.market.Some?
    requires var m := s.core.market.market.value;
             m.yesToken != m.noToken && token in {m.yesToken, m.noToken}
    requires BidSeen(s.core, token).Some? && Current(cfg.signal, s.core.signal, step.now)
    requires PassProbability(cfg, s.core, step.now, step.model).Some?
    requires var side := SideHeld(s.core.market.market.value, token);
             var share := ShareOf(side, PassProbability(cfg, s.core, step.now, step.model).value);
             && 100.0 * share >= (BidSeen(s.core, token).value + cfg.exitEdgeTicks + 1) as real
             && !(if side.Yes? then Downward(cfg.signal, PressureOf(cfg.signal, s.core.signal))
                  else Upward(cfg.signal, PressureOf(cfg.signal, s.core.signal)))
    ensures !Sells(cfg, s, step, token)
  {
    SignalForReads(cfg, s.core, step, token);
    PassSellsExactlyWhen(cfg, s, step, token);
    var tr := PeakedTracker(s.core, token);
    var sig, bid := SignalFor(cfg, s.core, step, token), BidSeen(s.core, token).value;
    KeptExactlyWhen(cfg, tr, bid, sig, SatSub(step.now, tr.fillTs));
    FairExceeds(sig.fairTicks.value,
                100.0 * ShareOf(SideHeld(s.core.market.market.value, token),
                                PassProbability(cfg, s.core, step.now, step.model).value),
                bid + cfg.exitEdgeTicks);
  }

  lemma FairExceeds(fair: int, worth: real, level: int)
    requires fair as real <= worth < fair as real + 1.0 && worth >= (level + 1) as real
    ensures fair > level
  {
  }
}
