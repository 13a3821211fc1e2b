/** The runtime core as a value, and what each of its critical sections does. Samples, clocks and
    what the normal model answers are inputs. */
module RuntimeSpec {
  import opened Wrappers
  import opened MachineInt
  import opened VenueTypes
  import opened InventorySpec
  import opened MarketState
  import Orders
  import Signal

  const UNKNOWN_SUBMIT_EXPIRE_US: int := 5_000_000
  const PENDING_SUBMIT_EXPIRE_US: int := 60_000_000

  datatype ExitReason = Value | Drop | Stop | Hold

  datatype SellPlan = SellPlan(token: TokenId, price: int, size: int)

  datatype ExitDecision = ExitDecision(
    plan: SellPlan,
    reason: ExitReason,
    entryPrice: int,
    entryBid: int,
    peakBid: int,
    bid: int,
    fairTicks: Option<int>,
    fairMinusBidTicks: Option<int>,
    opposes: Option<bool>,
    holdUs: int)

  datatype ExitTracker = ExitTracker(entryPrice: int, entryBid: int, peakBid: int, fillTs: int)

  type BuyIntent = Signal.BuyIntent

  datatype GateReason = RttEwmaHigh | PolyDriftUp | PolyDriftDown | EdgeInsufficientForDrift

  /** What the engine says about a held side at planning time. */
  datatype SideSignal = SideSignal(fairTicks: Option<int>, opposes: Option<bool>)

  datatype SubmitOutcome = OrderAccepted(orderId: OrderId) | OutcomeUnknown | OrderRejected

  datatype GateConfig = GateConfig(
    rttCeilingUs: int,
    driftWindowUs: int,
    driftBlockUpTicks: int,
    driftBlockDownTicks: int,
    driftSafetyBps: int,
    driftMinCleanEdgeTicks: int)

  datatype RuntimeConfig = RuntimeConfig(
    sellSlippageTicks: int,
    exitDropTicks: int,
    exitArmTicks: int,
    exitStopTicks: int,
    exitEdgeTicks: int,
    exitHoldUs: int,
    gates: GateConfig,
    signal: Signal.SignalConfig,
    live: bool)

  datatype CoreState = CoreState(
    market: MarketView,
    inv: InvState,
    trackers: map<TokenId, ExitTracker>,
    rttEwmaUs: int,
    signal: Signal.SignalView)

  const START: CoreState := CoreState(NO_MARKET, EMPTY, map[], 0, Signal.FRESH)

  // ------------------------------------------------------------------------- entries

  /** One EWMA step: an eighth of the gap, floored; a non-positive sample is ignored. */
  function FoldRtt(ewma: int, rtt: int): int {
    if rtt <= 0 then ewma
    else if ewma == 0 then rtt
    else SatAdd(ewma, (rtt - ewma) / 8)
  }

  function RequiredDriftTicks(driftTicks: int, rtt: int, safetyBps: int, dt: int): int
    requires SatMul(dt, 10_000) > 0
  {
    var numer := SatMul(SatMul(Abs(driftTicks), rtt), safetyBps);
    var denom := SatMul(dt, 10_000);
    Min(TruncDiv(numer + denom - 1, denom), I32_MAX)
  }

  function SatAdd32(a: int, b: int): int {
    if a + b > I32_MAX then I32_MAX else if a + b < I32_MIN then I32_MIN else a + b
  }

  /** The edge check alone, once a drift is measured over dt. */
  predicate EdgeInsufficient(g: GateConfig, ewma: int, edgeTicks: int, driftTicks: int, dt: int) {
    && g.driftSafetyBps > 0 && ewma > 0 && dt > 0
    && SatMul(dt, 10_000) > 0
    && edgeTicks < SatAdd32(RequiredDriftTicks(driftTicks, ewma, g.driftSafetyBps, dt), g.driftMinCleanEdgeTicks)
  }

  /** Ask drift against the oldest sample of the window, and the time it spans. */
  function MeasuredDrift(v: MarketView, token: TokenId, window: int, now: int): Option<(int, int)> {
    var past := OldestSince(RingOf(v, token), now - window);
    var quote := QuoteForToken(v, token);
    if past.None? || past.value.askTicks.None? || quote.None? || quote.value.ask.None? then None
    else Some((quote.value.ask.value - past.value.askTicks.value, now - past.value.ts))
  }

  function EntryGateBlock(g: GateConfig, c: CoreState, intent: BuyIntent, now: int): Option<GateReason> {
    if g.rttCeilingUs > 0 && c.rttEwmaUs > 0 && c.rttEwmaUs > g.rttCeilingUs then Some(RttEwmaHigh)
    else if g.driftWindowUs <= 0 then None
    else
      match MeasuredDrift(c.market, intent.token, g.driftWindowUs, now)
      case None => None
      case Some((drift, dt)) =>
        if g.driftBlockUpTicks > 0 && drift >= g.driftBlockUpTicks then Some(PolyDriftUp)
        else if g.driftBlockDownTicks > 0 && drift <= -g.driftBlockDownTicks then Some(PolyDriftDown)
        else if EdgeInsufficient(g, c.rttEwmaUs, intent.edgeTicks, drift, dt) then Some(EdgeInsufficientForDrift)
        else None
  }

  /** Time left in a market, saturating. */
  function TimeToExpiry(m: MarketContext, now: int): int {
    SatSub(SatMul(m.endTs, 1_000_000), now)
  }

  /** An active market quoted on both sides: only then can a sample lead to an entry. */
  predicate Quoted(v: MarketView) {
    v.active && QuoteForSide(v, Yes).Some? && QuoteForSide(v, No).Some?
  }

  /** Every sample reaches the signal window; outside a quoted market it is stamped with its own time. */
  function SignalAfter(cfg: RuntimeConfig, c: CoreState, sample: Signal.BinanceSample, now: int): Signal.SignalView {
    Signal.PushReceived(cfg.signal, c.signal, sample, if Quoted(c.market) then now else sample.ts)
  }

  /** What the engine wants to buy on a sample. */
  function SignalIntent(cfg: RuntimeConfig, c: CoreState, sample: Signal.BinanceSample, now: int, model: Option<real>)
    : Option<BuyIntent>
  {
    if !Quoted(c.market) || !Signal.Acceptable(cfg.signal, c.signal, sample) then None
    else if cfg.signal.maxLagUs > 0 && now - sample.ts > cfg.signal.maxLagUs then None
    else
      var m := c.market.market.value;
      Signal.Decide(cfg.signal, SignalAfter(cfg, c, sample, now), m, QuoteForSide(c.market, Yes).value,
                    QuoteForSide(c.market, No).value, now, TimeToExpiry(m, now), model)
  }

  /** The decision on one Binance tick: the engine's intent, unless exposed or gated. */
  function OnBinanceSample(cfg: RuntimeConfig, c: CoreState, sample: Signal.BinanceSample, now: int, model: Option<real>)
    : Option<BuyIntent>
  {
    var intent := SignalIntent(cfg, c, sample, now, model);
    if intent.None? || EntryBlocked(c.inv, intent.value.token) then None
    else if EntryGateBlock(cfg.gates, c, intent.value, now).Some? then None
    else intent
  }

  predicate Claims(cfg: RuntimeConfig, c: CoreState, sample: Signal.BinanceSample, now: int, model: Option<real>) {
    OnBinanceSample(cfg, c, sample, now, model).Some? && cfg.live
  }

  /** Decision and claim, one critical section; a dry run never claims. */
  function Tick(cfg: RuntimeConfig, c: CoreState, sample: Signal.BinanceSample, now: int, model: Option<real>)
    : CoreState
  {
    var c' := c.(signal := SignalAfter(cfg, c, sample, now));
    if !Claims(cfg, c, sample, now, model) then c'
    else c'.(inv := ClaimEntry(c.inv, OnBinanceSample(cfg, c, sample, now, model).value.token, Buy, 1, now))
  }

  function RecordOutcome(inv: InvState, id: SubmitId, outcome: SubmitOutcome, now: int): InvState {
    match outcome
    case OrderAccepted(order) => MarkAccepted(inv, id, order, now)
    case OutcomeUnknown => MarkUnknown(inv, id, now)
    case OrderRejected => ReleaseClaim(inv, id)
  }

  function SubmitDone(c: CoreState, id: SubmitId, outcome: SubmitOutcome, now: int, rtt: int): CoreState {
    c.(inv := RecordOutcome(c.inv, id, outcome, now), rttEwmaUs := FoldRtt(c.rttEwmaUs, rtt))
  }

  function ExpireStale(c: CoreState, now: int): CoreState {
    c.(inv := ExpirePending(ExpireUnknowns(c.inv, SatSub(now, UNKNOWN_SUBMIT_EXPIRE_US)),
                            SatSub(now, PENDING_SUBMIT_EXPIRE_US)))
  }

  // --------------------------------------------------------------------- user trades

  /** A trade event that fills a BUY with something sellable starts, or restarts, a tracker. */
  predicate StartsTracker(c: CoreState, t: UserTrade) {
    var r := RecordFor(c.inv.ledger, t);
    && AppliesNow(c.inv.ledger, t)
    && r.side.Buy?
    && OwnedIn(LedgerStep(c.inv.ledger, t).owned, r.token) >= SELL_QUANTUM
  }

  function FreshTracker(c: CoreState, t: UserTrade): ExitTracker {
    var bid := BidOf(c.market, RecordFor(c.inv.ledger, t).token);
    var entryBid := if bid.Some? then bid.value else t.price;
    ExitTracker(t.price, entryBid, Max(entryBid, t.price), t.ts)
  }

  /** A trade event on a SELL that leaves nothing sellable drops the tracker. */
  predicate DropsTracker(c: CoreState, t: UserTrade) {
    var r := RecordFor(c.inv.ledger, t);
    && ChangesInventory(c.inv.ledger, t)
    && r.side.Sell?
    && OwnedIn(LedgerStep(c.inv.ledger, t).owned, r.token) < SELL_QUANTUM
  }

  function UserTradeStep(c: CoreState, t: UserTrade, m: Option<SubmitId>): CoreState {
    var token := RecordFor(c.inv.ledger, t).token;
    c.(inv := ApplyUserTrade(c.inv, t, m),
       trackers := if StartsTracker(c, t) then c.trackers[token := FreshTracker(c, t)]
                   else if DropsTracker(c, t) then c.trackers - {token}
                   else c.trackers)
  }

  // --------------------------------------------------------------------------- exits

  /** A SELL of everything sellable at the bid less the concession, never below one tick. */
  function PlanSellAtBid(market: MarketView, inv: InvState, token: TokenId, slippage: int): Option<SellPlan> {
    var bid := BidOf(market, token);
    if bid.None? || Sellable(inv, token) == 0 then None
    else
      var limit := Max(bid.value - slippage, 1);
      if !Orders.PriceInRange(limit) then None
      else
        var (price, size) := Orders.CanonicalSell(limit, Sellable(inv, token) * 100);
        if size <= 0 then None else Some(SellPlan(token, price, size))
  }

  predicate Supported(cfg: RuntimeConfig, bid: int, sig: SideSignal) {
    sig.fairTicks.Some? && sig.fairTicks.value > bid + cfg.exitEdgeTicks && sig.opposes != Some(true)
  }

  predicate ValueExit(cfg: RuntimeConfig, bid: int, sig: SideSignal) {
    sig.fairTicks.Some? && sig.fairTicks.value <= bid + cfg.exitEdgeTicks && sig.opposes == Some(true)
  }

  predicate WeakOrUnavailable(cfg: RuntimeConfig, bid: int, sig: SideSignal) {
    sig.fairTicks.None? || sig.fairTicks.value <= bid + cfg.exitEdgeTicks
  }

  /** Why to sell now, if at all; tr already carries the current bid in its peak. */
  function ReasonToSell(cfg: RuntimeConfig, tr: ExitTracker, bid: int, sig: SideSignal, holdUs: int): Option<ExitReason> {
    if tr.entryBid - bid >= cfg.exitStopTicks && !Supported(cfg, bid, sig) then Some(Stop)
    else if ValueExit(cfg, bid, sig) then
      if tr.peakBid - tr.entryPrice >= cfg.exitArmTicks && tr.peakBid - bid >= cfg.exitDropTicks then Some(Drop)
      else Some(Value)
    else if holdUs >= cfg.exitHoldUs && WeakOrUnavailable(cfg, bid, sig) then Some(Hold)
    else None
  }

  /** The bid a planning pass folds into a token's peak, if it gets that far. */
  function BidSeen(c: CoreState, token: TokenId): Option<int> {
    if Sellable(c.inv, token) == 0 || token !in c.trackers then None else BidOf(c.market, token)
  }

  function PeakedTracker(c: CoreState, token: TokenId): ExitTracker
    requires BidSeen(c, token).Some?
  {
    var tr := c.trackers[token];
    tr.(peakBid := Max(tr.peakBid, BidSeen(c, token).value))
  }

  function TrackersAfterPlan(c: CoreState, token: TokenId): map<TokenId, ExitTracker> {
    if Sellable(c.inv, token) == 0 then c.trackers - {token}
    else if BidSeen(c, token).None? then c.trackers
    else c.trackers[token := PeakedTracker(c, token)]
  }

  function PlanExitFor(cfg: RuntimeConfig, c: CoreState, token: TokenId, sig: SideSignal, now: int)
    : Option<ExitDecision>
  {
    if BidSeen(c, token).None? then None
    else
      var tr, bid := PeakedTracker(c, token), BidSeen(c, token).value;
      var holdUs := SatSub(now, tr.fillTs);
      var reason := ReasonToSell(cfg, tr, bid, sig, holdUs);
      var plan := PlanSellAtBid(c.market, c.inv, token, cfg.sellSlippageTicks);
      if reason.None? || plan.None? then None
      else
        Some(ExitDecision(plan.value, reason.value, tr.entryPrice, tr.entryBid, tr.peakBid, bid, sig.fairTicks,
                          (match sig.fairTicks case None => None case Some(f) => Some(f - bid)),
                          sig.opposes, holdUs))
  }

  function Listed(d: Option<ExitDecision>): seq<ExitDecision> {
    match d
    case None => []
    case Some(x) => [x]
  }

  /** Fair value and pressure of a side, as the pass reads them from the engine. */
  function ReadSide(cfg: RuntimeConfig, c: CoreState, side: OutcomeSide, now: int, model: Option<real>): SideSignal {
    if c.market.market.None? then SideSignal(None, None)
    else
      SideSignal(Signal.FairTicks(cfg.signal, c.signal, side, now, TimeToExpiry(c.market.market.value, now), model),
                 Signal.OpposesSide(cfg.signal, c.signal, side, now))
  }

  /** One planning pass over the YES token, then the NO token. */
  function PlanExits(cfg: RuntimeConfig, c: CoreState, now: int, model: Option<real>): (CoreState, seq<ExitDecision>) {
    if c.market.market.None? then (c, [])
    else
      var y, n := c.market.market.value.yesToken, c.market.market.value.noToken;
      var c1 := c.(trackers := TrackersAfterPlan(c, y));
      var c2 := c1.(trackers := TrackersAfterPlan(c1, n));
      (c2, Listed(PlanExitFor(cfg, c, y, ReadSide(cfg, c, Yes, now, model), now))
           + Listed(PlanExitFor(cfg, c1, n, ReadSide(cfg, c, No, now, model), now)))
  }

  // ------------------------------------------------------------------------ rotation

  /** Forget everything outside the new market, the strike and the window, then make it active. */
  function Rotate(c: CoreState, m: MarketContext): CoreState {
    var active := {m.yesToken, m.noToken};
    c.(inv := ReleaseMarketScope(c.inv, active),
       trackers := map t | t in c.trackers && t in active :: c.trackers[t],
       signal := Signal.SetStrike(c.signal, 0.0, true),
       market := WithMarket(c.market, m))
  }
}
