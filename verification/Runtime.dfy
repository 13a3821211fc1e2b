/** The runtime core object: market state, inventory and signal engine objects, exit trackers and the
    RTT average, updated in place by the critical sections of the five tasks. */
module Runtime {
  import opened Wrappers
  import opened MachineInt
  import opened VenueTypes
  import opened InventorySpec
  import opened MarketState
  import opened RuntimeSpec
  import Inventory
  import Orders
  import Signal

  class RuntimeCore {
    const cfg: RuntimeConfig
    const state: RuntimeState
    const inventory: Inventory.Inventory
    const signal: Signal.SignalEngine
    var exitTrackers: map<TokenId, ExitTracker>
    var rttEwmaUs: int

    ghost function View(): CoreState
      reads this, state, inventory, signal
    {
      CoreState(state.View(), inventory.View(), exitTrackers, rttEwmaUs, signal.View())
    }

    /** The engine was built with the core's own configuration. */
    ghost predicate Valid() {
      signal.cfg == cfg.signal
    }

    constructor (cfg: RuntimeConfig)
      ensures fresh(state) && fresh(inventory) && fresh(signal)
      ensures Valid() && this.cfg == cfg && View() == START
    {
      this.cfg := cfg;
      state := new RuntimeState();
      inventory := new Inventory.Inventory();
      signal := new Signal.SignalEngine(cfg.signal);
      exitTrackers := map[];
      rttEwmaUs := 0;
    }

    method RecordRtt(rtt: int)
      modifies this
      ensures View() == old(View()).(rttEwmaUs := FoldRtt(old(rttEwmaUs), rtt))
    {
      if rtt <= 0 {
        return;
      }
      if rttEwmaUs == 0 {
        rttEwmaUs := rtt;
        return;
      }
      var delta := (rtt - rttEwmaUs) / 8;
      rttEwmaUs := SatAdd(rttEwmaUs, delta);
    }

    method EntryGate(intent: BuyIntent, now: int) returns (r: Option<GateReason>)
      ensures r == EntryGateBlock(cfg.gates, View(), intent, now)
    {
      var g := cfg.gates;
      if g.rttCeilingUs > 0 && rttEwmaUs > 0 && rttEwmaUs > g.rttCeilingUs {
        return Some(RttEwmaHigh);
      }
      if g.driftWindowUs <= 0 {
        return None;
      }
      var measured := MeasureDrift(intent.token, g.driftWindowUs, now);
      if measured.None? {
        return None;
      }
      var (drift, dt) := measured.value;
      if g.driftBlockUpTicks > 0 && drift >= g.driftBlockUpTicks {
        return Some(PolyDriftUp);
      }
      if g.driftBlockDownTicks > 0 && drift <= -g.driftBlockDownTicks {
        return Some(PolyDriftDown);
      }
      var insufficient := EdgeCheck(intent.edgeTicks, drift, dt);
      r := if insufficient then Some(EdgeInsufficientForDrift) else None;
    }

    method MeasureDrift(token: TokenId, window: int, now: int) returns (r: Option<(int, int)>)
      ensures r == MeasuredDrift(state.View(), token, window, now)
    {
      var ring := if token in state.quoteHistory then state.quoteHistory[token] else [];
      var past := OldestSince(ring, now - window);
      if past.None? || past.value.askTicks.None? {
        return None;
      }
      var ask := CurrentAsk(token);
      if ask.None? {
        return None;
      }
      r := Some((ask.value - past.value.askTicks.value, now - past.value.ts));
    }

    /** Whether the edge falls short of the drift expected during one round trip. */
    method EdgeCheck(edgeTicks: int, drift: int, dt: int) returns (insufficient: bool)
      ensures insufficient == EdgeInsufficient(cfg.gates, rttEwmaUs, edgeTicks, drift, dt)
    {
      var g := cfg.gates;
      insufficient := false;
      if g.driftSafetyBps > 0 && rttEwmaUs > 0 {
        if dt > 0 {
          var numer := SatMul(SatMul(Abs(drift), rttEwmaUs), g.driftSafetyBps);
          var denom := SatMul(dt, 10_000);
          if denom > 0 {
            var requiredDrift := Min(TruncDiv(numer + denom - 1, denom), I32_MAX);
            insufficient := edgeTicks < SatAdd32(requiredDrift, g.driftMinCleanEdgeTicks);
          }
        }
      }
    }

    method CurrentAsk(token: TokenId) returns (r: Option<int>)
      ensures r == match QuoteForToken(state.View(), token) case None => None case Some(q) => q.ask
    {
      var known := state.market.Some? && (token == state.market.value.yesToken || token == state.market.value.noToken);
      if !known || token !in state.quotes {
        return None;
      }
      r := state.quotes[token].ask;
    }

    method CurrentBid(token: TokenId) returns (r: Option<int>)
      ensures r == BidOf(state.View(), token)
    {
      var known := state.market.Some? && (token == state.market.value.yesToken || token == state.market.value.noToken);
      if !known || token !in state.quotes {
        return None;
      }
      r := state.quotes[token].bid;
    }

    /** The engine sees the sample first, whatever the market; then exposure, then the gates. */
    method OnBinanceSample(sample: Signal.BinanceSample, now: int, model: Option<real>) returns (r: Option<BuyIntent>)
      requires Valid()
      modifies signal
      ensures View() == old(View()).(signal := SignalAfter(cfg, old(View()), sample, now))
      ensures r == RuntimeSpec.OnBinanceSample(cfg, old(View()), sample, now, model)
    {
      ghost var c := View();
      var intent := FeedEngine(sample, now, model);
      assert intent == SignalIntent(cfg, c, sample, now, model);
      if intent.None? {
        return None;
      }
      var blocked := inventory.HasEntryExposureOrPending(intent.value.token);
      if blocked {
        return None;
      }
      var gate := EntryGate(intent.value, now);
      if gate.Some? {
        return None;
      }
      r := intent;
    }

    /** The sample reaches the window; only a market quoted on both sides lets it decide. */
    method FeedEngine(sample: Signal.BinanceSample, now: int, model: Option<real>) returns (intent: Option<BuyIntent>)
      requires Valid()
      modifies signal
      ensures View() == old(View()).(signal := SignalAfter(cfg, old(View()), sample, now))
      ensures intent == SignalIntent(cfg, old(View()), sample, now, model)
    {
      if !state.tradingActive || state.market.None?
         || state.market.value.yesToken !in state.quotes || state.market.value.noToken !in state.quotes {
        var pushed := signal.Push(sample, sample.ts);
        return None;
      }
      var m := state.market.value;
      var tte := SatSub(SatMul(m.endTs, 1_000_000), now);
      intent := signal.OnSample(sample, m, state.quotes[m.yesToken], state.quotes[m.noToken], now, tte, model);
    }

    /** Decide and claim without releasing the lock in between. */
    method TickAndClaim(sample: Signal.BinanceSample, now: int, model: Option<real>)
      returns (intent: Option<BuyIntent>, claim: Option<SubmitId>)
      requires Valid()
      modifies inventory, signal
      ensures View() == Tick(cfg, old(View()), sample, now, model)
      ensures intent == RuntimeSpec.OnBinanceSample(cfg, old(View()), sample, now, model)
      ensures claim == if Claims(cfg, old(View()), sample, now, model) then Some(NextClaimId(old(View()).inv)) else None
    {
      intent := OnBinanceSample(sample, now, model);
      claim := None;
      if intent.Some? && cfg.live {
        var id := inventory.ClaimEntry(intent.value.token, Buy, 1, now);
        claim := Some(id);
      }
    }

    /** The spawned submit task reports its HTTP outcome and its round trip. */
    method RecordBuySubmitOutcome(id: SubmitId, outcome: SubmitOutcome, now: int, rtt: int)
      modifies this, inventory
      ensures View() == SubmitDone(old(View()), id, outcome, now, rtt)
    {
      match outcome {
        case OrderAccepted(order) => inventory.MarkSubmitAccepted(id, order, now);
        case OutcomeUnknown => inventory.MarkSubmitUnknown(id, now);
        case OrderRejected => inventory.ReleaseClaim(id);
      }
      RecordRtt(rtt);
    }

    method ExpireStaleEntryClaims(now: int)
      modifies inventory
      ensures View() == ExpireStale(old(View()), now)
    {
      inventory.ExpireUnknowns(SatSub(now, UNKNOWN_SUBMIT_EXPIRE_US));
      inventory.ExpirePending(SatSub(now, PENDING_SUBMIT_EXPIRE_US));
    }

    /** One trade of a user-channel message: inventory first, then the exit tracker. */
    method ApplyUserTrade(t: UserTrade) returns (report: TradeState)
      modifies this, inventory
      ensures MatchAllowed(old(View()).inv, t, report.matchedSubmit)
      ensures View() == UserTradeStep(old(View()), t, report.matchedSubmit)
      ensures report == TradeReport(old(View()).inv, t, report.matchedSubmit)
    {
      report := inventory.ApplyUserTrade(t);
      TrackUserTradeForExit(t, report);
    }

    method TrackUserTradeForExit(t: UserTrade, report: TradeState)
      modifies this`exitTrackers
      ensures exitTrackers ==
              if !report.inventoryChanged then old(exitTrackers)
              else if report.side.Buy? then
                if report.status.Applies() && Sellable(inventory.View(), report.token) > 0 then
                  var bid := BidOf(state.View(), report.token);
                  var entryBid := if bid.Some? then bid.value else t.price;
                  old(exitTrackers)[report.token := ExitTracker(t.price, entryBid, Max(entryBid, t.price), t.ts)]
                else old(exitTrackers)
              else if Sellable(inventory.View(), report.token) == 0 then old(exitTrackers) - {report.token}
              else old(exitTrackers)
    {
      if !report.inventoryChanged {
        return;
      }
      var position := inventory.Position(report.token);
      var sellable := if position.Some? then position.value.sellable else 0;
      match report.side {
        case Buy =>
          if (report.status == Matched || report.status == Confirmed) && sellable > 0 {
            var bid := CurrentBid(report.token);
            var currentBid := if bid.Some? then bid.value else t.price;
            exitTrackers := exitTrackers[report.token :=
              ExitTracker(t.price, currentBid, Max(currentBid, t.price), t.ts)];
          }
        case Sell =>
          if sellable <= 0 {
            exitTrackers := exitTrackers - {report.token};
          }
      }
    }

    method PlanSell(token: TokenId) returns (r: Option<SellPlan>)
      ensures r == PlanSellAtBid(state.View(), inventory.View(), token, cfg.sellSlippageTicks)
    {
      var bid := CurrentBid(token);
      if bid.None? {
        return None;
      }
      var position := inventory.Position(token);
      if position.None? || position.value.sellable <= 0 {
        return None;
      }
      var limit := Max(bid.value - cfg.sellSlippageTicks, 1);
      if !Orders.PriceInRange(limit) {
        return None;
      }
      var (price, size) := Orders.CanonicalSell(limit, position.value.sellable * 100);
      if size <= 0 {
        return None;
      }
      r := Some(SellPlan(token, price, size));
    }

    /** One token of an exit pass: raise the peak, decide, and price the plan. */
    method PlanExitForToken(token: TokenId, sig: SideSignal, now: int) returns (d: Option<ExitDecision>)
      modifies this`exitTrackers
      ensures exitTrackers == TrackersAfterPlan(old(View()), token)
      ensures d == PlanExitFor(cfg, old(View()), token, sig, now)
    {
      var position := inventory.Position(token);
      if position.None? || position.value.sellable <= 0 {
        exitTrackers := exitTrackers - {token};
        return None;
      }
      var quoted := CurrentBid(token);
      if quoted.None? {
        return None;
      }
      var bid := quoted.value;
      if token !in exitTrackers {
        return None;
      }
      var tr := exitTrackers[token];
      tr := tr.(peakBid := Max(tr.peakBid, bid));
      exitTrackers := exitTrackers[token := tr];
      var holdUs := SatSub(now, tr.fillTs);
      var bidDrop := tr.entryBid - bid;
      var profit := tr.peakBid - tr.entryPrice;
      var peakDrop := tr.peakBid - bid;
      var fair := sig.fairTicks;
      var supports := fair.Some? && fair.value > bid + cfg.exitEdgeTicks && sig.opposes != Some(true);
      var valueExit := fair.Some? && fair.value <= bid + cfg.exitEdgeTicks && sig.opposes == Some(true);
      var boundaryExit := fair.None? || fair.value <= bid + cfg.exitEdgeTicks;
      var reason: Option<ExitReason> := None;
      if bidDrop >= cfg.exitStopTicks && !supports {
        reason := Some(Stop);
      } else if valueExit {
        if profit >= cfg.exitArmTicks && peakDrop >= cfg.exitDropTicks {
          reason := Some(Drop);
        } else {
          reason := Some(Value);
        }
      } else if holdUs >= cfg.exitHoldUs && boundaryExit {
        reason := Some(Hold);
      }
      if reason.None? {
        return None;
      }
      var plan := PlanSell(token);
      if plan.None? {
        return None;
      }
      d := Some(ExitDecision(plan.value, reason.value, tr.entryPrice, tr.entryBid, tr.peakBid, bid, fair,
                             (match fair case None => None case Some(f) => Some(f - bid)),
                             sig.opposes, holdUs));
    }

    /** What the engine says about a side of the active market. */
    method ReadHeldSide(side: OutcomeSide, m: MarketContext, now: int, model: Option<real>) returns (r: SideSignal)
      requires Valid() && state.market == Some(m)
      ensures r == ReadSide(cfg, View(), side, now, model)
    {
      var tte := SatSub(SatMul(m.endTs, 1_000_000), now);
      var fair := signal.FairTicksForSide(side, now, tte, model);
      var opposes := signal.Opposes(side, now);
      r := SideSignal(fair, opposes);
    }

    method PlanExits(now: int, model: Option<real>) returns (out: seq<ExitDecision>)
      requires Valid()
      modifies this`exitTrackers
      ensures View() == RuntimeSpec.PlanExits(cfg, old(View()), now, model).0
      ensures out == RuntimeSpec.PlanExits(cfg, old(View()), now, model).1
    {
      out := [];
      if state.market.None? {
        return;
      }
      var m := state.market.value;
      ghost var c := View();
      var yes := ReadHeldSide(Yes, m, now, model);
      var d := PlanExitForToken(m.yesToken, yes, now);
      if d.Some? {
        out := out + [d.value];
      }
      assert View() == c.(trackers := TrackersAfterPlan(c, m.yesToken));
      assert out == Listed(PlanExitFor(cfg, c, m.yesToken, yes, now));
      var no := ReadHeldSide(No, m, now, model);
      d := PlanExitForToken(m.noToken, no, now);
      if d.Some? {
        out := out + [d.value];
      }
    }

    /** A resolved anchor sets the strike and starts a new window. */
    method SetStrike(strike: real)
      modifies signal
      ensures View() == old(View()).(signal := Signal.SetStrike(old(View()).signal, strike, true))
    {
      signal.SetStrikeValue(strike, true);
    }

    /** Rotation, one critical section. */
    method RotateTo(m: MarketContext)
      modifies this, state, inventory, signal
      ensures View() == Rotate(old(View()), m)
    {
      var active := {m.yesToken, m.noToken};
      inventory.ReleaseMarketScope(active);
      exitTrackers := map t | t in exitTrackers && t in active :: exitTrackers[t];
      signal.SetStrikeValue(0.0, true);
      state.SetMarketContext(m);
    }
  }
}
