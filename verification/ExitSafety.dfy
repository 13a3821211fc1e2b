/** Exit trackers and exit decisions over whole runs. */
module ExitSafety {
  import opened Wrappers
  import opened MachineInt
  import opened VenueTypes
  import opened InventorySpec
  import opened MarketState
  import opened RuntimeSpec
  import opened Protocol
  import Orders
  import Signing

  // -------------------------------------------------- sellable positions are tracked

  ghost predicate Tracked(c: CoreState) {
    forall t :: Sellable(c.inv, t) > 0 ==> t in c.trackers
  }

  /** A FAILED event that gives a SELL's shares back. */
  predicate ReturnsSoldShares(c: CoreState, t: UserTrade) {
    ReversesNow(c.inv.ledger, t) && RecordFor(c.inv.ledger, t).side.Sell?
  }

  /** The one way tracking breaks: returned shares make an untracked token sellable. */
  predicate OrphansToken(c: CoreState, t: UserTrade) {
    var r := RecordFor(c.inv.ledger, t);
    && ReturnsSoldShares(c, t) && r.token !in c.trackers
    && OwnedIn(c.inv.ledger.owned, r.token) + r.sizeAtoms >= SELL_QUANTUM
  }

  predicate Orphans(s: System, step: Step) {
    step.UserEvent? && OrphansToken(s.core, step.trade)
  }

  lemma TradeKeepsTracking(c: CoreState, t: UserTrade, m: Option<SubmitId>)
    requires Tracked(c)
    ensures Tracked(UserTradeStep(c, t, m)) <==> !OrphansToken(c, t)
  {
    var token, c' := RecordFor(c.inv.ledger, t).token, UserTradeStep(c, t, m);
    forall x | x != token
      ensures Sellable(c'.inv, x) == Sellable(c.inv, x) && (x in c'.trackers <==> x in c.trackers)
    {
    }
    assert !ReturnsSoldShares(c, t) ==> Sellable(c'.inv, token) > 0 ==> token in c'.trackers;
  }

  /** A planning pass drops exactly the active trackers with nothing to sell. */
  lemma PassOnToken(cfg: RuntimeConfig, c: CoreState, now: int, model: Option<real>, t: TokenId)
    ensures var c' := PlanExits(cfg, c, now, model).0;
            && c'.inv == c.inv && c'.market == c.market && c'.signal == c.signal
            && (t in c'.trackers <==> (t in c.trackers && !(Sellable(c.inv, t) == 0 && SideForToken(c.market, t).Some?)))
            && (t in c'.trackers ==>
                  c'.trackers[t] == if BidSeen(c, t).Some? then PeakedTracker(c, t) else c.trackers[t])
  {
  }

  /** Each step keeps every sellable position tracked, except exactly when it orphans one. */
  lemma StepKeepsTracking(cfg: RuntimeConfig, s: System, step: Step)
    requires Tracked(s.core)
    ensures Tracked(Next(cfg, s, step).core) <==> !Orphans(s, step)
  {
    match step
    case UserEvent(t, m) => TradeKeepsTracking(s.core, t, m);
    case ExitPass(now, model) =>
      forall t | Sellable(s.core.inv, t) > 0
        ensures t in PlanExits(cfg, s.core, now, model).0.trackers
      {
        PassOnToken(cfg, s.core, now, model, t);
      }
    case _ => OtherStepsTrack(cfg, s, step);
  }

  lemma OtherStepsTrack(cfg: RuntimeConfig, s: System, step: Step)
    requires Tracked(s.core) && !step.UserEvent? && !step.ExitPass?
    ensures Tracked(Next(cfg, s, step).core)
  {
    if step.Rotation? {
      RotationKeepsTracking(s.core, step.market);
    } else {
      LedgerUntouched(cfg, s, step);
      TrackersUntouched(cfg, s, step);
      assert forall t :: Sellable(Next(cfg, s, step).core.inv, t) == Sellable(s.core.inv, t);
    }
  }

  lemma RotationKeepsTracking(c: CoreState, m: MarketContext)
    requires Tracked(c)
    ensures Tracked(Rotate(c, m))
  {
    forall t | Sellable(Rotate(c, m).inv, t) > 0
      ensures t in Rotate(c, m).trackers
    {
      RotationForgets(c, m, t);
    }
  }

  lemma TrackersUntouched(cfg: RuntimeConfig, s: System, step: Step)
    requires !step.UserEvent? && !step.ExitPass? && !step.Rotation?
    ensures Next(cfg, s, step).core.trackers == s.core.trackers
  {
    if step.HttpOutcome? {
      assert Next(cfg, s, step).core == SubmitDone(s.core, step.id, step.outcome, step.now, step.rtt);
    } else if step.Maintenance? {
      assert Next(cfg, s, step).core == ExpireStale(s.core, step.now);
    }
  }

  /** Over every run in which no FAILED returns a SELL's shares, sellable implies tracked. */
  lemma {:induction false} AlwaysTracked(cfg: RuntimeConfig, states: seq<System>, steps: seq<Step>, k: nat)
    requires IsRun(cfg, states, steps) && k < |states|
    requires forall i :: 0 <= i < k && steps[i].UserEvent? ==> !ReturnsSoldShares(states[i].core, steps[i].trade)
    ensures Tracked(states[k].core)
  {
    if k > 0 {
      AlwaysTracked(cfg, states, steps, k - 1);
      assert IsStep(cfg, states, steps, k - 1);
      StepKeepsTracking(cfg, states[k - 1], steps[k - 1]);
    }
  }

  // --------------------------------------------------------------- what the peak is

  /** Step f filled a BUY on the token and started the tracker the token still has at state k. */
  ghost predicate FillOf(states: seq<System>, steps: seq<Step>, f: nat, token: TokenId)
    requires f < |steps| < |states|
  {
    && steps[f].UserEvent?
    && StartsTracker(states[f].core, steps[f].trade)
    && RecordFor(states[f].core.inv.ledger, steps[f].trade).token == token
  }

  /** The bid that step j folded into the token's peak, if it is a planning pass that saw one. */
  ghost function SeenAt(states: seq<System>, steps: seq<Step>, j: nat, token: TokenId): Option<int>
    requires j < |steps| < |states|
  {
    if steps[j].ExitPass? then BidSeen(states[j].core, token) else None
  }

  /** The bids planning passes saw between a fill and a state. */
  ghost function SeenSince(states: seq<System>, steps: seq<Step>, f: nat, k: nat, token: TokenId): seq<Option<int>>
    requires f < k <= |steps| < |states|
  {
    seq(k - f - 1, i requires 0 <= i < k - f - 1 => SeenAt(states, steps, f + 1 + i, token))
  }

  /** The peak is the maximum of the fill price, the entry bid and the bids seen. */
  ghost predicate IsPeak(peak: int, price: int, entryBid: int, seen: seq<Option<int>>) {
    && price <= peak && entryBid <= peak
    && (forall j :: 0 <= j < |seen| && seen[j].Some? ==> seen[j].value <= peak)
    && (peak == price || peak == entryBid || exists j :: 0 <= j < |seen| && seen[j] == Some(peak))
  }

  lemma PeakOverOneMore(peak: int, price: int, entryBid: int, seen: seq<Option<int>>, next: Option<int>)
    requires IsPeak(peak, price, entryBid, seen)
    ensures IsPeak(if next.Some? then Max(peak, next.value) else peak, price, entryBid, seen + [next])
  {
    var all, peak' := seen + [next], if next.Some? then Max(peak, next.value) else peak;
    if peak' != peak {
      assert all[|seen|] == Some(peak');
    } else if peak != price && peak != entryBid {
      var j :| 0 <= j < |seen| && seen[j] == Some(peak);
      assert all[j] == Some(peak');
    }
  }

  /** The tracker at state k is the one step f started, and its peak is exactly the maximum of the
      fill price, the entry bid and every bid seen by planning passes since. */
  ghost predicate Explained(states: seq<System>, steps: seq<Step>, f: nat, k: nat, token: TokenId)
    requires f < k <= |steps| < |states|
  {
    && FillOf(states, steps, f, token)
    && (forall j :: f < j < k ==> !FillOf(states, steps, j, token))
    && token in states[k].core.trackers
    && var (tr, fill) := (states[k].core.trackers[token], steps[f].trade);
       && tr.entryPrice == fill.price && tr.fillTs == fill.ts
       && tr.entryBid == (match BidOf(states[f].core.market, token) case Some(bid) => bid case None => fill.price)
       && IsPeak(tr.peakBid, tr.entryPrice, tr.entryBid, SeenSince(states, steps, f, k, token))
  }

  /** A step that is neither a fill nor a planning pass leaves a surviving tracker alone. */
  lemma TrackerStep(cfg: RuntimeConfig, s: System, step: Step, token: TokenId)
    requires token in Next(cfg, s, step).core.trackers
    requires step.UserEvent? ==>
               !(StartsTracker(s.core, step.trade) && RecordFor(s.core.inv.ledger, step.trade).token == token)
    ensures token in s.core.trackers
    ensures Next(cfg, s, step).core.trackers[token]
            == if step.ExitPass? && BidSeen(s.core, token).Some? then PeakedTracker(s.core, token)
               else s.core.trackers[token]
  {
    if step.ExitPass? {
      PassOnToken(cfg, s.core, step.now, step.model, token);
    }
  }

  /** In every reachable state every tracker is explained by a fill and the bids seen since. */
  lemma {:induction false} PeakIsExact(cfg: RuntimeConfig, states: seq<System>, steps: seq<Step>, k: nat, token: TokenId)
    returns (f: nat)
    requires IsRun(cfg, states, steps) && k < |states| && token in states[k].core.trackers
    ensures f < k && Explained(states, steps, f, k, token)
  {
    assert k > 0;
    assert IsStep(cfg, states, steps, k - 1);
    if FillOf(states, steps, k - 1, token) {
      f := k - 1;
    } else {
      TrackerStep(cfg, states[k - 1], steps[k - 1], token);
      f := PeakIsExact(cfg, states, steps, k - 1, token);
      ExplainedStep(states, steps, f, k, token);
    }
  }

  lemma ExplainedStep(states: seq<System>, steps: seq<Step>, f: nat, k: nat, token: TokenId)
    requires f + 1 < k <= |steps| < |states|
    requires Explained(states, steps, f, k - 1, token) && !FillOf(states, steps, k - 1, token)
    requires token in states[k].core.trackers
    requires states[k].core.trackers[token]
             == if SeenAt(states, steps, k - 1, token).Some? then PeakedTracker(states[k - 1].core, token)
                else states[k - 1].core.trackers[token]
    ensures Explained(states, steps, f, k, token)
  {
    var tr, seen := states[k - 1].core.trackers[token], SeenSince(states, steps, f, k - 1, token);
    PeakOverOneMore(tr.peakBid, tr.entryPrice, tr.entryBid, seen, SeenAt(states, steps, k - 1, token));
    assert SeenSince(states, steps, f, k, token) == seen + [SeenAt(states, steps, k - 1, token)];
  }

  // ----------------------------------------------------------------- when we sell

  /** What each reason certifies about the market. */
  lemma ReasonMeans(cfg: RuntimeConfig, tr: ExitTracker, bid: int, sig: SideSignal, holdUs: int)
    ensures var r := ReasonToSell(cfg, tr, bid, sig, holdUs);
            && (r == Some(Stop) ==> bid <= tr.entryBid - cfg.exitStopTicks)
            && (r == Some(Value) || r == Some(Drop) ==>
                  sig.opposes == Some(true) && sig.fairTicks.Some? && sig.fairTicks.value - bid <= cfg.exitEdgeTicks)
            && (r == Some(Drop) ==> bid <= tr.peakBid - cfg.exitDropTicks
                                    && tr.entryPrice + cfg.exitArmTicks <= tr.peakBid)
            && (r == Some(Hold) ==>
                  && holdUs >= cfg.exitHoldUs
                  && (sig.fairTicks.None?
                      || (sig.opposes != Some(true) && sig.fairTicks.value - bid <= cfg.exitEdgeTicks)))
            && (r.Some? ==> !Supported(cfg, bid, sig))
  {
  }

  /** Which reason: a stop unless the position is supported; else, for a position worth no more than bid and
      edge that the window opposes, the drop from a peak that armed, or its value; else the hold time, for
      one worth no more or of unknown worth. */
  lemma ReasonExactlyWhen(cfg: RuntimeConfig, tr: ExitTracker, bid: int, sig: SideSignal, holdUs: int)
    ensures var r := ReasonToSell(cfg, tr, bid, sig, holdUs);
            var worthMore := sig.fairTicks.Some? && bid + cfg.exitEdgeTicks < sig.fairTicks.value;
            var overvalued := sig.fairTicks.Some? && !worthMore && sig.opposes == Some(true);
            var stops := bid + cfg.exitStopTicks <= tr.entryBid && (!worthMore || sig.opposes == Some(true));
            var dropped := tr.entryPrice + cfg.exitArmTicks <= tr.peakBid && bid + cfg.exitDropTicks <= tr.peakBid;
            && (r == Some(Stop) <==> stops)
            && (r == Some(Drop) <==> !stops && overvalued && dropped)
            && (r == Some(Value) <==> !stops && overvalued && !dropped)
            && (r == Some(Hold) <==> !stops && !overvalued && !worthMore && cfg.exitHoldUs <= holdUs)
  {
  }

  /** A position is kept exactly when it is supported; or it is overvalued by the model but
      opposed and not stopped; or the model is weak or silent, unopposed or silent, and neither
      stop nor hold time is reached. */
  lemma KeptExactlyWhen(cfg: RuntimeConfig, tr: ExitTracker, bid: int, sig: SideSignal, holdUs: int)
    ensures ReasonToSell(cfg, tr, bid, sig, holdUs).None?
            <==> (var fairAbove := sig.fairTicks.Some? && sig.fairTicks.value > bid + cfg.exitEdgeTicks;
                  var stopped := tr.entryBid - bid >= cfg.exitStopTicks;
                  if fairAbove then !stopped || sig.opposes != Some(true)
                  else !stopped && (sig.opposes != Some(true) || sig.fairTicks.None?) && holdUs < cfg.exitHoldUs)
  {
  }

  /** The signal a planning pass uses for a token of the active market. */
  ghost function SignalFor(cfg: RuntimeConfig, c: CoreState, step: Step, token: TokenId): SideSignal
    requires step.ExitPass?
  {
    ReadSide(cfg, c, if SideForToken(c.market, token) == Some(Yes) then Yes else No, step.now, step.model)
  }

  ghost predicate Sells(cfg: RuntimeConfig, s: System, step: Step, token: TokenId) {
    step.ExitPass? && exists d :: d in PlanExits(cfg, s.core, step.now, step.model).1 && d.plan.token == token
  }

  /** In a market of two distinct tokens, a planning pass sells a token exactly when it is tracked
      with a bid, the concession leaves a tradeable limit, and there is a reason. */
  lemma PassSellsExactlyWhen(cfg: RuntimeConfig, s: System, step: Step, token: TokenId)
    requires step.ExitPass?
    requires s.core.market.market.Some? ==> s.core.market.market.value.yesToken != s.core.market.market.value.noToken
    ensures Sells(cfg, s, step, token)
            <==> && BidSeen(s.core, token).Some?
                 && Max(BidSeen(s.core, token).value - cfg.sellSlippageTicks, 1) <= 99
                 && var tr := PeakedTracker(s.core, token);
                    ReasonToSell(cfg, tr, BidSeen(s.core, token).value, SignalFor(cfg, s.core, step, token),
                                 SatSub(step.now, tr.fillTs)).Some?
  {
    var c := s.core;
    if c.market.market.Some? {
      var y, n := c.market.market.value.yesToken, c.market.market.value.noToken;
      var c1 := c.(trackers := TrackersAfterPlan(c, y));
      var yes, no := ReadSide(cfg, c, Yes, step.now, step.model), ReadSide(cfg, c, No, step.now, step.model);
      SecondToken(cfg, c, y, n, no, step.now);
      var a, b := PlanExitFor(cfg, c, y, yes, step.now), PlanExitFor(cfg, c1, n, no, step.now);
      var out := PlanExits(cfg, c, step.now, step.model).1;
      assert out == Listed(a) + Listed(b);
      if a.Some? {
        assert a.value in Listed(a) && a.value in out;
      }
      if b.Some? {
        assert b.value in Listed(b) && b.value in out;
      }
    }
  }

  /** A position supported at every planning step of a run is never sold in it. */
  lemma SupportedNeverSold(cfg: RuntimeConfig, states: seq<System>, steps: seq<Step>, token: TokenId)
    requires IsRun(cfg, states, steps)
    requires forall i :: 0 <= i < |steps| && states[i].core.market.market.Some? ==>
               states[i].core.market.market.value.yesToken != states[i].core.market.market.value.noToken
    requires forall i :: 0 <= i < |steps| && SeenAt(states, steps, i, token).Some? ==>
               Supported(cfg, SeenAt(states, steps, i, token).value, SignalFor(cfg, states[i].core, steps[i], token))
    ensures forall i :: 0 <= i < |steps| ==> !Sells(cfg, states[i], steps[i], token)
  {
    forall i | 0 <= i < |steps|
      ensures !Sells(cfg, states[i], steps[i], token)
    {
      if steps[i].ExitPass? {
        PassSellsExactlyWhen(cfg, states[i], steps[i], token);
        if SeenAt(states, steps, i, token).Some? {
          ReasonMeans(cfg, PeakedTracker(states[i].core, token), SeenAt(states, steps, i, token).value,
                      SignalFor(cfg, states[i].core, steps[i], token),
                      SatSub(steps[i].now, PeakedTracker(states[i].core, token).fillTs));
        }
      }
    }
  }

  /** The fields of a decision are those of the position, the tracker and the current bid, and its
      reason is the one they give. */
  ghost predicate Derived(cfg: RuntimeConfig, c: CoreState, d: ExitDecision, tr: ExitTracker, now: int) {
    && d.entryPrice == tr.entryPrice && d.entryBid == tr.entryBid && d.peakBid == tr.peakBid
    && d.holdUs == SatSub(now, tr.fillTs)
    && Some(d.bid) == BidOf(c.market, d.plan.token)
    && d.plan.size == Sellable(c.inv, d.plan.token) > 0
    && d.plan.price == Max(d.bid - cfg.sellSlippageTicks, 1) <= 99
    && ReasonToSell(cfg, tr, d.bid, SideSignal(d.fairTicks, d.opposes), d.holdUs) == Some(d.reason)
    && d.fairMinusBidTicks == (match d.fairTicks case None => None case Some(x) => Some(x - d.bid))
  }

  /** Where a decision of one pass comes from: its token, its tracker as the pass leaves it, and the
      plan and reason for that token. */
  lemma PassDecision(cfg: RuntimeConfig, c: CoreState, now: int, model: Option<real>, d: ExitDecision)
    requires d in PlanExits(cfg, c, now, model).1
    ensures var token := d.plan.token;
            && BidSeen(c, token) == Some(d.bid)
            && PlanExits(cfg, c, now, model).0.trackers[token] == PeakedTracker(c, token)
            && Derived(cfg, c, d, PeakedTracker(c, token), now)
  {
    var y, n := c.market.market.value.yesToken, c.market.market.value.noToken;
    var c1 := c.(trackers := TrackersAfterPlan(c, y));
    var token := d.plan.token;
    PassOnToken(cfg, c, now, model, token);
    var yes, no := ReadSide(cfg, c, Yes, now, model), ReadSide(cfg, c, No, now, model);
    SecondToken(cfg, c, y, n, no, now);
    if d in Listed(PlanExitFor(cfg, c, y, yes, now)) {
      DecisionFor(cfg, c, y, yes, now, d);
    } else {
      assert d in Listed(PlanExitFor(cfg, c1, n, no, now));
      DecisionFor(cfg, c, n, no, now, d);
    }
  }

  lemma DecisionFor(cfg: RuntimeConfig, c: CoreState, token: TokenId, sig: SideSignal, now: int, d: ExitDecision)
    requires d in Listed(PlanExitFor(cfg, c, token, sig, now))
    ensures d.plan.token == token && BidSeen(c, token) == Some(d.bid)
    ensures Derived(cfg, c, d, PeakedTracker(c, token), now)
  {
  }

  /** The first token's pass does not change the decision on the second. */
  lemma SecondToken(cfg: RuntimeConfig, c: CoreState, y: TokenId, n: TokenId, sig: SideSignal, now: int)
    ensures PlanExitFor(cfg, c.(trackers := TrackersAfterPlan(c, y)), n, sig, now) == PlanExitFor(cfg, c, n, sig, now)
  {
  }

  /** Every exit decision of a run is explained by the run: it names a sellable token, its entry is
      the token's last BUY fill, its peak is the exact maximum since, its bid is the current one, and
      its reason is the one those values give. */
  lemma DecisionIsExplained(cfg: RuntimeConfig, states: seq<System>, steps: seq<Step>, k: nat, d: ExitDecision)
    returns (f: nat)
    requires IsRun(cfg, states, steps) && k < |steps| && steps[k].ExitPass?
    requires d in PlanExits(cfg, states[k].core, steps[k].now, steps[k].model).1
    ensures f < k && Explained(states, steps, f, k + 1, d.plan.token)
    ensures Derived(cfg, states[k].core, d, states[k + 1].core.trackers[d.plan.token], steps[k].now)
    ensures Some(d.bid) == SeenAt(states, steps, k, d.plan.token)
  {
    PassIsStep(cfg, states, steps, k, d);
    f := PeakIsExact(cfg, states, steps, k + 1, d.plan.token);
  }

  lemma PassIsStep(cfg: RuntimeConfig, states: seq<System>, steps: seq<Step>, k: nat, d: ExitDecision)
    requires IsRun(cfg, states, steps) && k < |steps| && steps[k].ExitPass?
    requires d in PlanExits(cfg, states[k].core, steps[k].now, steps[k].model).1
    ensures var (token, c') := (d.plan.token, states[k + 1].core);
            && Some(d.bid) == SeenAt(states, steps, k, token)
            && token in c'.trackers && Derived(cfg, states[k].core, d, c'.trackers[token], steps[k].now)
  {
    assert IsStep(cfg, states, steps, k);
    PassDecision(cfg, states[k].core, steps[k].now, steps[k].model, d);
  }

  /** Rotation forgets exactly what is outside the new market. */
  lemma RotationForgets(c: CoreState, m: MarketContext, token: TokenId)
    ensures var (c', kept) := (Rotate(c, m), token in {m.yesToken, m.noToken});
            && OwnedAtoms(c'.inv, token) == (if kept then OwnedAtoms(c.inv, token) else 0)
            && (token in c'.trackers <==> token in c.trackers && kept)
            && (kept && token in c.trackers ==> c'.trackers[token] == c.trackers[token])
            && (forall id :: id in c'.inv.pending && c'.inv.pending[id].token == token
                             <==> id in c.inv.pending && c.inv.pending[id].token == token && kept)
            && c'.inv.ledger.trades == c.inv.ledger.trades
            && BidOf(c'.market, token).None?
  {
  }

  // ----------------------------------------------- from plan to signed body to fill

  /** The venue reports the whole planned size matched, as a trade not seen before. */
  ghost predicate FullFill(c: CoreState, plan: SellPlan, t: UserTrade) {
    && t.tradeId !in c.inv.ledger.trades
    && t.token == plan.token && t.side.Sell? && t.status.Matched?
    && t.sizeAtoms == plan.size * SELL_QUANTUM
  }

  /** A planned SELL never exceeds what is owned, leaves less than one quantum behind, signs at
      exactly its limit price, and its full MATCHED leaves nothing sellable and no tracker. */
  lemma PlannedSellClears(c: CoreState, token: TokenId, slippage: int, t: UserTrade, m: Option<SubmitId>)
    requires PlanSellAtBid(c.market, c.inv, token, slippage).Some?
    requires FullFill(c, PlanSellAtBid(c.market, c.inv, token, slippage).value, t)
    ensures var plan := PlanSellAtBid(c.market, c.inv, token, slippage).value;
            var signed := Signing.SellAmounts(plan.price, plan.size);
            && Orders.PriceInRange(plan.price)
            && signed.Ok?
            && signed.value.makerAtoms == t.sizeAtoms
            && signed.value.takerAtoms * 100 == plan.price * signed.value.makerAtoms
            && signed.value.makerAtoms <= OwnedAtoms(c.inv, token) < signed.value.makerAtoms + SELL_QUANTUM
    ensures Sellable(UserTradeStep(c, t, m).inv, token) == 0
    ensures token !in UserTradeStep(c, t, m).trackers
  {
    var plan := PlanSellAtBid(c.market, c.inv, token, slippage).value;
    assert plan.size == Sellable(c.inv, token);
    Signing.SignedSellIsExact(plan.price, plan.size);
  }

  /** If that fill then fails, the shares come back, the tracker does not, and a pass right then does
      not sell the token, whatever the signals say. */
  lemma FailedSellReturns(cfg: RuntimeConfig, c: CoreState, token: TokenId, t: UserTrade,
                          m1: Option<SubmitId>, m2: Option<SubmitId>, sig: SideSignal, now: int)
    requires PlanSellAtBid(c.market, c.inv, token, cfg.sellSlippageTicks).Some?
    requires FullFill(c, PlanSellAtBid(c.market, c.inv, token, cfg.sellSlippageTicks).value, t)
    requires OwnedAtoms(c.inv, token) <= I64_MAX
    ensures var back := UserTradeStep(UserTradeStep(c, t, m1), t.(status := Failed), m2);
            && OwnedAtoms(back.inv, token) == OwnedAtoms(c.inv, token)
            && Sellable(back.inv, token) > 0
            && token !in back.trackers
            && PlanExitFor(cfg, back, token, sig, now).None?
  {
    PlannedSellClears(c, token, cfg.sellSlippageTicks, t, m1);
  }

  /** An untracked token stays untracked until its next BUY fill, and is not sold meanwhile. */
  lemma {:induction false} UntrackedUntilFill(cfg: RuntimeConfig, states: seq<System>, steps: seq<Step>,
                                              i: nat, j: nat, token: TokenId)
    requires IsRun(cfg, states, steps) && i <= j < |states| && token !in states[i].core.trackers
    requires forall k :: i <= k < j ==> !FillOf(states, steps, k, token)
    ensures token !in states[j].core.trackers
    ensures j < |steps| ==> !Sells(cfg, states[j], steps[j], token)
    decreases j - i
  {
    if i < j {
      UntrackedUntilFill(cfg, states, steps, i, j - 1, token);
      assert IsStep(cfg, states, steps, j - 1);
      assert !FillOf(states, steps, j - 1, token);
      if token in states[j].core.trackers {
        TrackerStep(cfg, states[j - 1], steps[j - 1], token);
      }
    }
    UntrackedNotSold(cfg, states[j].core, token);
  }

  lemma UntrackedNotSold(cfg: RuntimeConfig, c: CoreState, token: TokenId)
    requires token !in c.trackers
    ensures forall now, model, d :: d in PlanExits(cfg, c, now, model).1 ==> d.plan.token != token
  {
    forall now, model, d | d in PlanExits(cfg, c, now, model).1
      ensures d.plan.token != token
    {
      PassDecision(cfg, c, now, model, d);
    }
  }

  /** Step i fills a planned SELL in full and the next step is that trade's FAILED. */
  ghost predicate FillsThenFails(cfg: RuntimeConfig, states: seq<System>, steps: seq<Step>, i: nat, token: TokenId)
    requires i + 1 < |steps| < |states|
  {
    var c := states[i].core;
    && steps[i].UserEvent? && steps[i + 1].UserEvent?
    && PlanSellAtBid(c.market, c.inv, token, cfg.sellSlippageTicks).Some?
    && FullFill(c, PlanSellAtBid(c.market, c.inv, token, cfg.sellSlippageTicks).value, steps[i].trade)
    && steps[i + 1].trade == steps[i].trade.(status := Failed)
  }

  /** A run in which a full SELL fill fails: the shares are back and sellable, yet no planning pass
      sells them, up to any later state with no BUY fill of the token in between. */
  lemma FailedSellIsStranded(cfg: RuntimeConfig, states: seq<System>, steps: seq<Step>, i: nat, j: nat, token: TokenId)
    requires IsRun(cfg, states, steps) && i + 2 <= j < |steps|
    requires FillsThenFails(cfg, states, steps, i, token) && OwnedAtoms(states[i].core.inv, token) <= I64_MAX
    requires forall k :: i + 2 <= k < j ==> !FillOf(states, steps, k, token)
    ensures OwnedAtoms(states[i + 2].core.inv, token) == OwnedAtoms(states[i].core.inv, token)
    ensures Sellable(states[i + 2].core.inv, token) > 0
    ensures token !in states[j].core.trackers && !Sells(cfg, states[j], steps[j], token)
  {
    assert IsStep(cfg, states, steps, i) && IsStep(cfg, states, steps, i + 1);
    FailedSellReturns(cfg, states[i].core, token, steps[i].trade, steps[i].matched, steps[i + 1].matched,
                      SideSignal(None, None), 0);
    UntrackedUntilFill(cfg, states, steps, i + 2, j, token);
  }
}
