/** When an entry is made, over the whole core: sample, market, window, prices, exposure and gates, both
    ways and on both sides. */
module EntryRule {
  import opened Wrappers
  import opened MachineInt
  import opened VenueTypes
  import opened InventorySpec
  import opened MarketState
  import opened RuntimeSpec
  import opened Protocol
  import opened SignalRules
  import Latency
  import Signal

  // ------------------------------------------------------------------------- the gates

  /** The edge beyond the clean floor, over the measured span, is less than the safety-scaled drift of one
      round trip; products and their factors end at 64 bits, the required edge at 32. */
  ghost predicate EdgeShort(g: GateConfig, ewma: int, edge: int, drift: int, dt: int) {
    && g.driftSafetyBps > 0 && ewma > 0 && dt > 0
    && Max(edge, edge - g.driftMinCleanEdgeTicks) < I32_MAX
    && (edge - g.driftMinCleanEdgeTicks) * Min(dt * 10_000, I64_MAX)
       < Min(Abs(drift) * ewma * g.driftSafetyBps, I64_MAX)
  }

  /** The edge check, for all inputs: off without safety, average or span, else exactly that. */
  lemma EdgeCheckExactlyWhen(g: GateConfig, ewma: int, edge: int, drift: int, dt: int)
    requires FitsI32(g.driftMinCleanEdgeTicks) && FitsI32(edge)
    ensures EdgeInsufficient(g, ewma, edge, drift, dt) <==> EdgeShort(g, ewma, edge, drift, dt)
  {
    if g.driftSafetyBps > 0 && ewma > 0 && dt > 0 {
      var d := Min(dt * 10_000, I64_MAX);
      var n := Min(Abs(drift) * ewma * g.driftSafetyBps, I64_MAX);
      SaturatedProduct(Abs(drift), ewma, g.driftSafetyBps);
      assert SatMul(dt, 10_000) == d;
      Latency.CeilingExceeds(n, d, edge - g.driftMinCleanEdgeTicks);
      Latency.CeilingExceeds(n, d, -1);
      ClampedRequirement((n + d - 1) / d, g.driftMinCleanEdgeTicks, edge);
    }
  }

  lemma SaturatedProduct(a: int, b: int, c: int)
    requires a >= 0 && b > 0 && c > 0
    ensures a * b >= 0 && a * b * c >= 0
    ensures SatMul(SatMul(a, b), c) == Min(a * b * c, I64_MAX)
  {
    var p := a * b;
    assert p >= 0;
    Latency.ProductGrows(p, c);
    Latency.ProductGrows(I64_MAX, c);
  }

  lemma ClampedRequirement(ceiling: int, clean: int, edge: int)
    requires ceiling >= 0 && FitsI32(clean) && FitsI32(edge)
    ensures edge < SatAdd32(Min(ceiling, I32_MAX), clean)
            <==> Max(edge, edge - clean) < I32_MAX && ceiling > edge - clean
  {
  }

  /** What each gate asks for: the average under its ceiling, and a measured drift inside both bounds and
      covered by the edge. */
  ghost predicate GatesOpen(g: GateConfig, c: CoreState, i: BuyIntent, now: int) {
    && (g.rttCeilingUs > 0 ==> c.rttEwmaUs <= g.rttCeilingUs)
    && (g.driftWindowUs > 0 && MeasuredDrift(c.market, i.token, g.driftWindowUs, now).Some? ==>
          var (drift, dt) := MeasuredDrift(c.market, i.token, g.driftWindowUs, now).value;
          && (g.driftBlockUpTicks > 0 ==> drift < g.driftBlockUpTicks)
          && (g.driftBlockDownTicks > 0 ==> -drift < g.driftBlockDownTicks)
          && !EdgeShort(g, c.rttEwmaUs, i.edgeTicks, drift, dt))
  }

  lemma GatesOpenExactlyWhen(g: GateConfig, c: CoreState, i: BuyIntent, now: int)
    requires FitsI32(g.driftMinCleanEdgeTicks) && FitsI32(i.edgeTicks)
    ensures EntryGateBlock(g, c, i, now).None? <==> GatesOpen(g, c, i, now)
  {
    if MeasuredDrift(c.market, i.token, g.driftWindowUs, now).Some? {
      var (drift, dt) := MeasuredDrift(c.market, i.token, g.driftWindowUs, now).value;
      EdgeCheckExactlyWhen(g, c.rttEwmaUs, i.edgeTicks, drift, dt);
    }
  }

  // -------------------------------------------------------------------------- the entry

  /** A sample nothing is wrong with, newer than what was taken. */
  ghost predicate Clean(cfg: Signal.SignalConfig, v: Signal.SignalView, s: Signal.BinanceSample) {
    && s.microprice > 0.0 && 0.0 < s.bid <= s.ask && s.bidQty > 0.0 && s.askQty > 0.0
    && s.bidQty + s.askQty >= cfg.minTotalQty
    && (cfg.maxSpread > 0.0 ==> s.ask - s.bid <= cfg.maxSpread)
    && s.updateId > v.last.updateId
    && (v.samples != [] ==> v.samples[|v.samples| - 1].ts < s.ts)
  }

  /** Trusted, less than a sellable quantum owned, and no claim that blocks. */
  ghost predicate Unexposed(inv: InvState, token: TokenId) {
    && inv.trusted
    && OwnedIn(inv.ledger.owned, token) < SELL_QUANTUM
    && forall id :: id in inv.pending && inv.pending[id].token == token ==> inv.pending[id].status.ExpiredUnknown?
  }

  /** The market's remaining time in microseconds, and the quote of each of its outcomes. */
  ghost predicate Enters(cfg: RuntimeConfig, c: CoreState, m: MarketContext, sample: Signal.BinanceSample, now: int,
                         pYes: real, i: BuyIntent) {
    && c.market.active && c.market.market == Some(m)
    && m.yesToken in c.market.quotes && m.noToken in c.market.quotes
    && Clean(cfg.signal, c.signal, sample)
    && (cfg.signal.maxLagUs > 0 ==> now <= sample.ts + cfg.signal.maxLagUs)
    && Fits(cfg.signal, Signal.PushReceived(cfg.signal, c.signal, sample, now), m,
            c.market.quotes[m.yesToken], c.market.quotes[m.noToken], now, m.endTs * 1_000_000 - now, pYes, i)
    && Unexposed(c.inv, i.token)
    && GatesOpen(cfg.gates, c, i, now)
  }

  /** The time left, in microseconds, fits 64 bits. */
  predicate ClockFits(v: MarketView, now: int) {
    v.market.Some? ==>
      FitsI64(v.market.value.endTs * 1_000_000) && FitsI64(v.market.value.endTs * 1_000_000 - now)
  }

  /** A tick enters with this very intent if and only if a probability of YES exists with which everything
      holds: market, sample, window, prices, exposure and gates. */
  lemma EntryExactlyWhen(cfg: RuntimeConfig, c: CoreState, m: MarketContext, sample: Signal.BinanceSample, now: int,
                         model: Option<real>, i: BuyIntent)
    requires ClockFits(c.market, now) && c.market.market == Some(m)
    requires FitsI32(cfg.gates.driftMinCleanEdgeTicks)
    ensures var p := Signal.ProbYes(cfg.signal, Signal.PushReceived(cfg.signal, c.signal, sample, now),
                                    m.endTs * 1_000_000 - now, model);
            OnBinanceSample(cfg, c, sample, now, model) == Some(i)
            <==> p.Some? && Enters(cfg, c, m, sample, now, p.value, i)
  {
    var v := Signal.PushReceived(cfg.signal, c.signal, sample, now);
    var tte := m.endTs * 1_000_000 - now;
    WishExactlyWhen(cfg, c, m, sample, now, model, i);
    UnexposedExactlyWhen(c.inv, i.token);
    if FitsI32(i.edgeTicks) {
      GatesOpenExactlyWhen(cfg.gates, c, i, now);
    }
  }

  /** The engine's wish alone. */
  lemma WishExactlyWhen(cfg: RuntimeConfig, c: CoreState, m: MarketContext, sample: Signal.BinanceSample, now: int,
                        model: Option<real>, i: BuyIntent)
    requires ClockFits(c.market, now) && c.market.market == Some(m)
    ensures var v := Signal.PushReceived(cfg.signal, c.signal, sample, now);
            var (tte, q) := (m.endTs * 1_000_000 - now, c.market.quotes);
            SignalIntent(cfg, c, sample, now, model) == Some(i)
            <==> && c.market.active && m.yesToken in q && m.noToken in q
                 && Clean(cfg.signal, c.signal, sample)
                 && (cfg.signal.maxLagUs > 0 ==> now <= sample.ts + cfg.signal.maxLagUs)
                 && Signal.ProbYes(cfg.signal, v, tte, model).Some?
                 && Fits(cfg.signal, v, m, q[m.yesToken], q[m.noToken], now, tte,
                         Signal.ProbYes(cfg.signal, v, tte, model).value, i)
  {
    var q := c.market.quotes;
    if m.yesToken in q && m.noToken in q {
      IntentExactlyWhen(cfg.signal, Signal.PushReceived(cfg.signal, c.signal, sample, now), m, q[m.yesToken],
                        q[m.noToken], now, m.endTs * 1_000_000 - now, model, i);
    }
  }

  lemma UnexposedExactlyWhen(inv: InvState, token: TokenId)
    ensures Unexposed(inv, token) <==> !EntryBlocked(inv, token)
  {
  }

  /** Over runs: whatever a tick claims, everything held at that moment for the intent it carries. */
  lemma ClaimEntersProperly(cfg: RuntimeConfig, states: seq<System>, steps: seq<Step>, j: nat)
    returns (m: MarketContext, pYes: real)
    requires IsRun(cfg, states, steps) && j < |steps| && ClaimsBy(cfg, steps[j])
    requires ClockFits(states[j].core.market, steps[j].now)
    requires FitsI32(cfg.gates.driftMinCleanEdgeTicks)
    ensures Enters(cfg, states[j].core, m, steps[j].sample, steps[j].now, pYes, steps[j].intent.value)
  {
    assert IsStep(cfg, states, steps, j);
    var (c, step) := (states[j].core, steps[j]);
    m := c.market.market.value;
    EntryExactlyWhen(cfg, c, m, step.sample, step.now, step.model, step.intent.value);
    pYes := Signal.ProbYes(cfg.signal, Signal.PushReceived(cfg.signal, c.signal, step.sample, step.now),
                           m.endTs * 1_000_000 - step.now, step.model).value;
  }
}
