/** The signal window: a bounded ring of microprice points, the momentum decision over it, and the
    fair value and pressure the exits read. Prices and sizes are idealised to reals; what the normal
    model answers before clamping is an input. */
module Signal {
  import opened Wrappers
  import opened MachineInt
  import opened VenueTypes
  import opened MarketState
  import OrderBook
  import Orders

  datatype BinanceSample = BinanceSample(
    ts: int, updateId: int, bid: real, ask: real, bidQty: real, askQty: real, microprice: real)

  datatype SignalConfig = SignalConfig(
    maxLagUs: int,
    minWindowUs: int,
    maxWindowUs: int,
    maxSpread: real,
    minMove: real,
    minAbsOfi: real,
    minImbalance: real,
    minTotalQty: real,
    minEdgeTicks: int,
    entrySlippageTicks: int,
    entryNotionalCents: int,
    maxQuoteAgeUs: int,
    minTteUs: int,
    minBuyLimit: int,
    maxBuyLimit: int,
    maxSamples: nat,
    probFloor: real,
    probCeil: real)

  datatype BuyIntent = BuyIntent(side: OutcomeSide, token: TokenId, limit: int, edgePrice: int, edgeTicks: int)

  datatype SignalPoint = SignalPoint(ts: int, recvTs: int, microprice: real, ofi: real, imbalance: real)

  /** The last accepted book, for the next order-flow step. */
  datatype LastBook = LastBook(updateId: int, bid: real, ask: real, bidQty: real, askQty: real)

  const NO_BOOK: LastBook := LastBook(0, 0.0, 0.0, 0.0, 0.0)

  datatype SignalView = SignalView(strike: real, samples: seq<SignalPoint>, last: LastBook)

  const FRESH: SignalView := SignalView(0.0, [], NO_BOOK)

  /** The ring never holds fewer than eight. */
  function Capacity(cfg: SignalConfig): nat {
    if cfg.maxSamples < 8 then 8 else cfg.maxSamples
  }

  predicate Acceptable(cfg: SignalConfig, v: SignalView, s: BinanceSample) {
    && s.microprice > 0.0
    && s.updateId > v.last.updateId
    && s.bid > 0.0 && s.ask > 0.0 && s.ask >= s.bid
    && s.bidQty > 0.0 && s.askQty > 0.0
    && s.bidQty + s.askQty >= cfg.minTotalQty
    && !(cfg.maxSpread > 0.0 && s.ask - s.bid > cfg.maxSpread)
    && (v.samples != [] ==> s.ts > v.samples[|v.samples| - 1].ts)
  }

  function Ofi(v: SignalView, s: BinanceSample): real {
    if v.samples == [] then 0.0
    else
      var bidFlow := (if s.bid >= v.last.bid then s.bidQty else 0.0) - if s.bid <= v.last.bid then v.last.bidQty else 0.0;
      var askFlow := (if s.ask >= v.last.ask then v.last.askQty else 0.0) - if s.ask <= v.last.ask then s.askQty else 0.0;
      bidFlow + askFlow
  }

  function PointOf(v: SignalView, s: BinanceSample, recvTs: int): SignalPoint
    requires s.bidQty + s.askQty > 0.0
  {
    SignalPoint(s.ts, recvTs, s.microprice, Ofi(v, s), (s.bidQty - s.askQty) / (s.bidQty + s.askQty))
  }

  function PushReceived(cfg: SignalConfig, v: SignalView, s: BinanceSample, recvTs: int): SignalView {
    if !Acceptable(cfg, v, s) then v
    else
      SignalView(v.strike, Newest(v.samples, Capacity(cfg) - 1) + [PointOf(v, s, recvTs)],
                 LastBook(s.updateId, s.bid, s.ask, s.bidQty, s.askQty))
  }

  function SetStrike(v: SignalView, strike: real, reset: bool): SignalView {
    if reset then SignalView(strike, [], NO_BOOK) else v.(strike := strike)
  }

  // ----------------------------------------------------------------------- the window

  /** First point at or after the cutoff. */
  function FirstSince(samples: seq<SignalPoint>, cutoff: int): nat {
    if samples == [] || samples[0].ts >= cutoff then 0 else 1 + FirstSince(samples[1..], cutoff)
  }

  /** Latest point and the oldest point of the window that ends at it, when they span enough time. */
  function LatestWindow(cfg: SignalConfig, v: SignalView): Option<(SignalPoint, SignalPoint)> {
    if v.samples == [] then None
    else
      var latest := v.samples[|v.samples| - 1];
      var i := FirstSince(v.samples, latest.ts - cfg.maxWindowUs);
      if i >= |v.samples| then None
      else
        var base := v.samples[i];
        if base.ts == latest.ts || latest.ts - base.ts < cfg.minWindowUs then None else Some((latest, base))
  }

  function OfiSumSince(samples: seq<SignalPoint>, cutoff: int): real {
    if samples == [] then 0.0
    else (if samples[0].ts >= cutoff then samples[0].ofi else 0.0) + OfiSumSince(samples[1..], cutoff)
  }

  function OfiTotal(samples: seq<SignalPoint>): real {
    if samples == [] then 0.0 else samples[0].ofi + OfiTotal(samples[1..])
  }

  // ----------------------------------------------------------------------- decisions

  function AbsReal(x: real): real {
    if x >= 0.0 then x else -x
  }

  /** Momentum, order flow and imbalance agree on a side. */
  function SideOf(cfg: SignalConfig, v: SignalView): Option<OutcomeSide> {
    match LatestWindow(cfg, v)
    case None => None
    case Some((latest, base)) =>
      var move := latest.microprice - base.microprice;
      var ofi := OfiSumSince(v.samples, latest.ts - cfg.maxWindowUs);
      if AbsReal(move) < cfg.minMove then None
      else if move > 0.0 then
        (if ofi < cfg.minAbsOfi || latest.imbalance < cfg.minImbalance then None else Some(Yes))
      else
        (if ofi > -cfg.minAbsOfi || latest.imbalance > -cfg.minImbalance then None else Some(No))
  }

  /** Price needed to fill the notional from the depth, else the best ask. */
  function BuyCutoff(q: Quote, cents: int): Option<int> {
    var c := if cents <= 0 then None else OrderBook.Walk(q.askDepth, cents * 1_000_000, 0);
    if c.Some? then c else q.ask
  }

  function Clamp(x: real, lo: real, hi: real): real {
    if x < lo then lo else if x > hi then hi else x
  }

  /** Probability of YES: nothing without a strike, time and a price; else the model's answer, if it
      has one, inside the configured limits, themselves inside 0..1. */
  function ProbYes(cfg: SignalConfig, v: SignalView, tte: int, model: Option<real>): (p: Option<real>)
    ensures p.Some? ==> 0.0 <= p.value <= 1.0
  {
    if v.samples == [] || v.samples[|v.samples| - 1].microprice <= 0.0 then None
    else if v.strike <= 0.0 || tte <= 0 || model.None? then None
    else
      var floor := Clamp(cfg.probFloor, 0.0, 1.0);
      Some(Clamp(model.value, floor, Clamp(cfg.probCeil, floor, 1.0)))
  }

  function SideProb(side: OutcomeSide, pYes: real): real {
    if side.Yes? then pYes else 1.0 - pYes
  }

  /** The intent on a side, once the window has picked it: price, age, limit, probability and edge. */
  function IntentOn(cfg: SignalConfig, side: OutcomeSide, token: TokenId, quote: Quote, pYes: Option<real>, now: int)
    : Option<BuyIntent>
  {
    var cutoff := BuyCutoff(quote, cfg.entryNotionalCents);
    var age := now - quote.ts;
    if cutoff.None? || age < 0 || age > cfg.maxQuoteAgeUs then None
    else
      var limit := cutoff.value + cfg.entrySlippageTicks;
      var edgePrice := cutoff.value + TruncDiv(cfg.entrySlippageTicks + 1, 2);
      if !Orders.PriceInRange(limit) || limit < cfg.minBuyLimit || limit > cfg.maxBuyLimit then None
      else if !Orders.PriceInRange(edgePrice) || pYes.None? then None
      else
        var edge := (SideProb(side, pYes.value) * 100.0 - edgePrice as real).Floor;
        var spread := if quote.bid.Some? then Max(edgePrice - quote.bid.value, 0) else 0;
        if edge < Max(cfg.minEdgeTicks, spread) then None
        else Some(BuyIntent(side, token, limit, edgePrice, edge))
  }

  /** The entry decision; model is what the normal model answers, if anything. */
  function Decide(cfg: SignalConfig, v: SignalView, m: MarketContext, yes: Quote, no: Quote,
                  now: int, tte: int, model: Option<real>): Option<BuyIntent> {
    if v.strike <= 0.0 || tte < cfg.minTteUs || SideOf(cfg, v).None? then None
    else
      var side := SideOf(cfg, v).value;
      IntentOn(cfg, side, if side.Yes? then m.yesToken else m.noToken, if side.Yes? then yes else no,
               ProbYes(cfg, v, tte, model), now)
  }

  /** A window whose latest point was received no longer ago than the lag limit. */
  predicate FreshWindow(cfg: SignalConfig, v: SignalView, now: int) {
    LatestWindow(cfg, v).Some?
    && var lag := now - v.samples[|v.samples| - 1].recvTs;
       0 <= lag && (cfg.maxLagUs > 0 ==> lag <= cfg.maxLagUs)
  }

  /** Fair price of a held side in whole ticks; None without a fresh window or a probability. */
  function FairTicks(cfg: SignalConfig, v: SignalView, side: OutcomeSide, now: int, tte: int, model: Option<real>)
    : Option<int>
  {
    var pYes := ProbYes(cfg, v, tte, model);
    if !FreshWindow(cfg, v, now) || pYes.None? then None
    else Some((SideProb(side, pYes.value) * 100.0).Floor)
  }

  /** Whether the window presses against a held side; None when there is no fresh window. */
  function OpposesSide(cfg: SignalConfig, v: SignalView, side: OutcomeSide, now: int): Option<bool> {
    match LatestWindow(cfg, v)
    case None => None
    case Some((latest, base)) =>
      if !FreshWindow(cfg, v, now) then None
      else
        var sign := if side.Yes? then 1.0 else -1.0;
        Some(sign * (latest.microprice - base.microprice) <= -cfg.minMove
             && sign * OfiSumSince(v.samples, latest.ts - cfg.maxWindowUs) <= -cfg.minAbsOfi
             && sign * latest.imbalance <= -cfg.minImbalance)
  }

  class SignalEngine {
    const cfg: SignalConfig
    var strike: real
    var samples: seq<SignalPoint>
    var last: LastBook

    ghost function View(): SignalView
      reads this
    {
      SignalView(strike, samples, last)
    }

    constructor (cfg: SignalConfig)
      ensures this.cfg == cfg && View() == FRESH
    {
      this.cfg := cfg;
      strike, samples, last := 0.0, [], NO_BOOK;
    }

    method SetStrikeValue(value: real, reset: bool)
      modifies this
      ensures View() == SetStrike(old(View()), value, reset)
    {
      strike := value;
      if reset {
        samples := [];
        last := NO_BOOK;
      }
    }

    /** Validates, evicts from the front while full, appends, and remembers the book. */
    method Push(s: BinanceSample, recvTs: int) returns (taken: bool)
      modifies this
      ensures taken == Acceptable(cfg, old(View()), s)
      ensures View() == PushReceived(cfg, old(View()), s, recvTs)
    {
      if !AcceptableNow(s) {
        return false;
      }
      ghost var was := samples;
      var point := PointOf(SignalView(strike, samples, last), s, recvTs);
      var capacity := Capacity(cfg);
      while |samples| >= capacity
        invariant |samples| <= |was| && samples == was[|was| - |samples|..]
        invariant |was| >= capacity ==> |samples| >= capacity - 1
        invariant |was| < capacity ==> samples == was
        invariant strike == old(strike) && last == old(last)
        decreases |samples|
      {
        samples := samples[1..];
      }
      assert samples == Newest(was, capacity - 1);
      samples := samples + [point];
      last := LastBook(s.updateId, s.bid, s.ask, s.bidQty, s.askQty);
      taken := true;
    }

    predicate AcceptableNow(s: BinanceSample)
      reads this
    {
      Acceptable(cfg, SignalView(strike, samples, last), s)
    }

    /** One Binance sample on the live path: push, check lag, decide. */
    method OnSample(s: BinanceSample, m: MarketContext, yes: Quote, no: Quote, now: int, tte: int, model: Option<real>)
      returns (intent: Option<BuyIntent>)
      modifies this
      ensures View() == PushReceived(cfg, old(View()), s, now)
      ensures intent == if !Acceptable(cfg, old(View()), s) || (cfg.maxLagUs > 0 && now - s.ts > cfg.maxLagUs) then None
                        else Decide(cfg, View(), m, yes, no, now, tte, model)
    {
      var taken := Push(s, now);
      if !taken || (cfg.maxLagUs > 0 && now - s.ts > cfg.maxLagUs) {
        return None;
      }
      intent := Decide(cfg, SignalView(strike, samples, last), m, yes, no, now, tte, model);
    }

    method FairTicksForSide(side: OutcomeSide, now: int, tte: int, model: Option<real>) returns (r: Option<int>)
      ensures r == FairTicks(cfg, View(), side, now, tte, model)
    {
      var v := SignalView(strike, samples, last);
      var window := LatestWindow(cfg, v);
      if window.None? {
        return None;
      }
      var lag := now - window.value.0.recvTs;
      if lag < 0 || (cfg.maxLagUs > 0 && lag > cfg.maxLagUs) {
        return None;
      }
      var pYes := ProbYes(cfg, v, tte, model);
      if pYes.None? {
        return None;
      }
      var sideProb := match side case Yes => pYes.value case No => 1.0 - pYes.value;
      r := Some((sideProb * 100.0).Floor);
    }

    method Opposes(side: OutcomeSide, now: int) returns (r: Option<bool>)
      ensures r == OpposesSide(cfg, View(), side, now)
    {
      var window := LatestWindow(cfg, SignalView(strike, samples, last));
      if window.None? {
        return None;
      }
      var (latest, base) := window.value;
      var lag := now - latest.recvTs;
      if lag < 0 || (cfg.maxLagUs > 0 && lag > cfg.maxLagUs) {
        return None;
      }
      var sign := match side case Yes => 1.0 case No => -1.0;
      var signedMove := sign * (latest.microprice - base.microprice);
      var signedOfi := sign * OfiSumSince(samples, latest.ts - cfg.maxWindowUs);
      r := Some(signedMove <= -cfg.minMove && signedOfi <= -cfg.minAbsOfi
                && sign * latest.imbalance <= -cfg.minImbalance);
    }
  }

  // ------------------------------------------------------------------------ whole runs

  datatype Step = Received(sample: BinanceSample, recvTs: int) | Restrike(strike: real, reset: bool)

  function Run(cfg: SignalConfig, steps: seq<Step>): SignalView {
    if steps == [] then FRESH
    else
      var v := Run(cfg, steps[..|steps| - 1]);
      match steps[|steps| - 1]
      case Received(s, recvTs) => PushReceived(cfg, v, s, recvTs)
      case Restrike(strike, reset) => SetStrike(v, strike, reset)
  }

  ghost predicate Chronological(samples: seq<SignalPoint>) {
    forall i, j :: 0 <= i < j < |samples| ==> samples[i].ts < samples[j].ts
  }

  /** Every reachable ring is strictly chronological and within its capacity. */
  lemma {:induction false} RingInvariant(cfg: SignalConfig, steps: seq<Step>)
    ensures Chronological(Run(cfg, steps).samples) && |Run(cfg, steps).samples| <= Capacity(cfg)
  {
    if steps != [] {
      RingInvariant(cfg, steps[..|steps| - 1]);
      RingStep(cfg, Run(cfg, steps[..|steps| - 1]), steps[|steps| - 1]);
    }
  }

  lemma RingStep(cfg: SignalConfig, v: SignalView, step: Step)
    requires Chronological(v.samples) && |v.samples| <= Capacity(cfg)
    ensures var v' := match step
                      case Received(s, r) => PushReceived(cfg, v, s, r)
                      case Restrike(k, z) => SetStrike(v, k, z);
            Chronological(v'.samples) && |v'.samples| <= Capacity(cfg)
  {
    if step.Received? && Acceptable(cfg, v, step.sample) {
      var kept := Newest(v.samples, Capacity(cfg) - 1);
      forall i | 0 <= i < |kept|
        ensures kept[i].ts < step.sample.ts
      {
        assert kept[i] == v.samples[|v.samples| - |kept| + i];
      }
    }
  }

  lemma {:induction false} FirstSinceSplits(samples: seq<SignalPoint>, cutoff: int)
    requires Chronological(samples)
    ensures FirstSince(samples, cutoff) <= |samples|
    ensures forall k :: 0 <= k < |samples| ==> (samples[k].ts >= cutoff <==> k >= FirstSince(samples, cutoff))
    ensures OfiSumSince(samples, cutoff) == OfiTotal(samples[FirstSince(samples, cutoff)..])
  {
    if samples != [] && samples[0].ts < cutoff {
      FirstSinceSplits(samples[1..], cutoff);
      assert samples[FirstSince(samples, cutoff)..] == samples[1..][FirstSince(samples[1..], cutoff)..];
    } else if samples != [] {
      FirstSinceSplits(samples[1..], cutoff);
      assert samples[0..] == samples;
      if |samples| > 1 {
        assert samples[1].ts >= cutoff;
      }
      assert samples[1..][0..] == samples[1..];
    }
  }

  /** Base index b splits the ring: nothing before it is in the window, everything from it on is,
      and the order flow is exactly the sum from it on. */
  ghost predicate SplitsAt(samples: seq<SignalPoint>, cutoff: int, b: nat) {
    && b < |samples|
    && (forall k :: 0 <= k < |samples| ==> (samples[k].ts >= cutoff <==> k >= b))
    && OfiSumSince(samples, cutoff) == OfiTotal(samples[b..])
  }

  lemma WindowSplits(cfg: SignalConfig, v: SignalView) returns (b: nat)
    requires Chronological(v.samples) && LatestWindow(cfg, v).Some?
    ensures var (latest, base) := LatestWindow(cfg, v).value;
            && latest == v.samples[|v.samples| - 1] && base.ts < latest.ts
            && latest.ts - base.ts >= cfg.minWindowUs
            && SplitsAt(v.samples, latest.ts - cfg.maxWindowUs, b) && v.samples[b] == base
  {
    var latest := v.samples[|v.samples| - 1];
    FirstSinceSplits(v.samples, latest.ts - cfg.maxWindowUs);
    b := FirstSince(v.samples, latest.ts - cfg.maxWindowUs);
  }

  /** In every reachable engine the window base is the oldest in-window point of the ring, strictly
      before the latest, and the filtered order-flow sum is the suffix sum from it. */
  lemma WindowIsSuffix(cfg: SignalConfig, steps: seq<Step>, v: SignalView) returns (b: nat)
    requires v == Run(cfg, steps) && LatestWindow(cfg, v).Some?
    ensures var (latest, base) := LatestWindow(cfg, v).value;
            && latest == v.samples[|v.samples| - 1] && base.ts < latest.ts
            && latest.ts - base.ts >= cfg.minWindowUs
            && SplitsAt(v.samples, latest.ts - cfg.maxWindowUs, b) && v.samples[b] == base
  {
    RingInvariant(cfg, steps);
    b := WindowSplits(cfg, v);
  }

  function OtherSide(side: OutcomeSide): OutcomeSide {
    match side
    case Yes => No
    case No => Yes
  }

  /** An entry and the exit pressure agree at the moment of entry: on the engine that has just taken
      the sample, the window opposes the other side and does not oppose the side bought. */
  lemma EntryAgreesWithPressure(cfg: SignalConfig, before: SignalView, s: BinanceSample, m: MarketContext,
                                yes: Quote, no: Quote, now: int, tte: int, model: Option<real>)
    requires cfg.minMove > 0.0 && Acceptable(cfg, before, s)
    requires Decide(cfg, PushReceived(cfg, before, s, now), m, yes, no, now, tte, model).Some?
    ensures var v := PushReceived(cfg, before, s, now);
            var side := Decide(cfg, v, m, yes, no, now, tte, model).value.side;
            && OpposesSide(cfg, v, OtherSide(side), now) == Some(true)
            && OpposesSide(cfg, v, side, now) == Some(false)
  {
    SideAgreesWithPressure(cfg, PushReceived(cfg, before, s, now), now);
  }

  lemma SideAgreesWithPressure(cfg: SignalConfig, v: SignalView, now: int)
    requires cfg.minMove > 0.0 && SideOf(cfg, v).Some?
    requires v.samples != [] && v.samples[|v.samples| - 1].recvTs == now
    ensures OpposesSide(cfg, v, OtherSide(SideOf(cfg, v).value), now) == Some(true)
    ensures OpposesSide(cfg, v, SideOf(cfg, v).value, now) == Some(false)
  {
  }

  /** The window opposes a side exactly when a fresh window exists and the entry rule would pick the
      other side, the thresholds being positive. */
  lemma OpposesIsOtherEntry(cfg: SignalConfig, v: SignalView, side: OutcomeSide, now: int)
    requires cfg.minMove > 0.0
    requires OpposesSide(cfg, v, side, now).Some?
    ensures OpposesSide(cfg, v, side, now) == Some(true) <==> SideOf(cfg, v) == Some(OtherSide(side))
  {
  }

  // ------------------------------------------------------------- the price that fills an entry

  /** A quote as the book parser makes it: best ask first in the depth, positive levels in order. */
  ghost predicate FromBook(q: Quote) {
    && OrderBook.Sorted(q.askDepth, false) && OrderBook.Positive(q.askDepth)
    && (q.askDepth != [] ==> q.ask == Some(q.askDepth[0].price))
  }

  /** A larger notional is never given a cheaper price exactly unless the kept depth covers the smaller
      one only past its best level and does not cover the larger, which then falls back to the best ask. */
  lemma BuyCutoffMonotoneExactlyWhen(q: Quote, c1: int, c2: int)
    requires FromBook(q) && q.ask.Some? && c1 <= c2
    ensures BuyCutoff(q, c1).Some? && BuyCutoff(q, c2).Some?
    ensures BuyCutoff(q, c1).value <= BuyCutoff(q, c2).value
            <==> !(&& q.askDepth != [] && c1 > 0
                   && q.askDepth[0].price * q.askDepth[0].sizeAtoms < c1 * 1_000_000
                   && c1 * 1_000_000 <= OrderBook.DepthCost(q.askDepth) < c2 * 1_000_000)
  {
    var l, t1, t2 := q.askDepth, c1 * 1_000_000, c2 * 1_000_000;
    if l != [] && c2 > 0 {
      OrderBook.WalkFindsExactlyWhen(l, t2, 0);
      if c1 > 0 {
        OrderBook.WalkFindsExactlyWhen(l, t1, 0);
        OrderBook.CutoffMonotone(l, t1, t2, 0);
      }
      if OrderBook.Walk(l, t2, 0).Some? {
        OrderBook.WalkStopsAtBestExactlyWhen(l, t2);
      }
      if c1 > 0 && OrderBook.Walk(l, t1, 0).Some? {
        OrderBook.WalkStopsAtBestExactlyWhen(l, t1);
      }
    }
  }

  /** Quotes parsed from a book of positive prices are such quotes. */
  lemma ParsedBookIsFromBook(input: seq<OrderBook.BookLevel>, q: Quote)
    requires forall x :: x in input ==> x.price > 0 && FitsI64(x.sizeAtoms)
    requires q.askDepth == OrderBook.Take(OrderBook.WholeBook(input, false), OrderBook.BOOK_DEPTH_LEVELS)
    requires q.ask == if q.askDepth == [] then None else Some(q.askDepth[0].price)
    ensures FromBook(q)
  {
    OrderBook.TopFourOfWholeInput(input, false, q.askDepth);
    forall i | 0 <= i < |q.askDepth|
      ensures q.askDepth[i].price > 0 && q.askDepth[i].sizeAtoms > 0
    {
      assert q.askDepth[i] in q.askDepth;
      OrderBook.TotalZeroIffUnquoted(input, q.askDepth[i].price);
    }
  }

  /** A dollar needs the second level, two dollars more than is kept: the cutoff drops from 60 to 50. */
  lemma BuyCutoffCanDrop()
    ensures var l := [OrderBook.BookLevel(50, 1_000_000), OrderBook.BookLevel(60, 1_000_000)];
            var q := Quote(None, Some(50), l, 1, 0);
            FromBook(q) && BuyCutoff(q, 100) == Some(60) && BuyCutoff(q, 200) == Some(50)
  {
    var l := [OrderBook.BookLevel(50, 1_000_000), OrderBook.BookLevel(60, 1_000_000)];
    assert l[1..] == [OrderBook.BookLevel(60, 1_000_000)] && l[1..][1..] == [];
    assert OrderBook.Walk(l, 100_000_000, 0) == OrderBook.Walk(l[1..], 100_000_000, 50_000_000);
    assert OrderBook.Walk(l, 200_000_000, 0) == OrderBook.Walk(l[1..], 200_000_000, 50_000_000);
    assert OrderBook.Walk(l[1..], 200_000_000, 50_000_000) == OrderBook.Walk(l[1..][1..], 200_000_000, 110_000_000);
  }

  // ------------------------------------------------------------------ YES/NO symmetry

  /** The book upside down: prices reflected about c, bid and ask exchanged. */
  function MirrorSample(s: BinanceSample, c: real): BinanceSample {
    BinanceSample(s.ts, s.updateId, c - s.ask, c - s.bid, s.askQty, s.bidQty, c - s.microprice)
  }

  function MirrorPoint(p: SignalPoint, c: real): SignalPoint {
    SignalPoint(p.ts, p.recvTs, c - p.microprice, -p.ofi, -p.imbalance)
  }

  function MirrorPoints(samples: seq<SignalPoint>, c: real): (r: seq<SignalPoint>)
    ensures |r| == |samples| && forall i :: 0 <= i < |r| ==> r[i] == MirrorPoint(samples[i], c)
  {
    seq(|samples|, i requires 0 <= i < |samples| => MirrorPoint(samples[i], c))
  }

  function MirrorView(v: SignalView, c: real): SignalView {
    SignalView(v.strike, MirrorPoints(v.samples, c),
               LastBook(v.last.updateId, c - v.last.ask, c - v.last.bid, v.last.askQty, v.last.bidQty))
  }

  /** Upside down, every sample contributes the opposite order flow and imbalance. */
  lemma MirroredPush(cfg: SignalConfig, v: SignalView, s: BinanceSample, recvTs: int, c: real)
    requires Acceptable(cfg, v, s) && Acceptable(cfg, MirrorView(v, c), MirrorSample(s, c))
    ensures PushReceived(cfg, MirrorView(v, c), MirrorSample(s, c), recvTs)
            == MirrorView(PushReceived(cfg, v, s, recvTs), c)
  {
    var q := s.bidQty + s.askQty;
    NegatedQuotient(s.bidQty - s.askQty, q);
    assert PointOf(MirrorView(v, c), MirrorSample(s, c), recvTs) == MirrorPoint(PointOf(v, s, recvTs), c);
  }

  lemma NegatedQuotient(a: real, q: real)
    requires q > 0.0
    ensures (-a) / q == -(a / q)
  {
  }

  lemma {:induction false} MirroredSums(samples: seq<SignalPoint>, cutoff: int, c: real)
    ensures OfiSumSince(MirrorPoints(samples, c), cutoff) == -OfiSumSince(samples, cutoff)
    ensures FirstSince(MirrorPoints(samples, c), cutoff) == FirstSince(samples, cutoff) <= |samples|
  {
    if samples != [] {
      assert MirrorPoints(samples, c)[1..] == MirrorPoints(samples[1..], c);
      MirroredSums(samples[1..], cutoff, c);
    }
  }

  /** The entry rule treats the sides alike: upside down, a YES entry is a NO entry and the other
      way round, and nothing is entered exactly when nothing was. */
  lemma MirroredSide(cfg: SignalConfig, v: SignalView, c: real)
    requires cfg.minMove > 0.0
    ensures SideOf(cfg, MirrorView(v, c))
            == match SideOf(cfg, v) case None => None case Some(side) => Some(OtherSide(side))
  {
    if v.samples != [] {
      MirroredSums(v.samples, v.samples[|v.samples| - 1].ts - cfg.maxWindowUs, c);
    }
  }

  /** The two sides' fair prices are whole ticks in 0..100 and add up to a dollar, or one tick less
      when the probability is between ticks. */
  lemma FairPricesSplitADollar(cfg: SignalConfig, v: SignalView, now: int, tte: int, model: Option<real>)
    requires FairTicks(cfg, v, Yes, now, tte, model).Some?
    ensures FairTicks(cfg, v, No, now, tte, model).Some?
    ensures var (y, n) := (FairTicks(cfg, v, Yes, now, tte, model).value, FairTicks(cfg, v, No, now, tte, model).value);
            && 0 <= y <= 100 && 0 <= n <= 100 && 99 <= y + n <= 100
            && (y + n == 100 <==> ProbYes(cfg, v, tte, model).value * 100.0 == y as real)
  {
    var p := ProbYes(cfg, v, tte, model).value;
    assert (1.0 - p) * 100.0 == 100.0 - p * 100.0;
  }

  /** What an intent promises: the side the window picks, a fresh quote, a tradeable limit inside the
      configured band at the configured distance above the price that fills the notional, and a floored
      edge at half that distance that covers both the configured minimum and the live spread. */
  lemma IntentIsWithinLimits(cfg: SignalConfig, v: SignalView, m: MarketContext, yes: Quote, no: Quote,
                             now: int, tte: int, model: Option<real>)
    requires Decide(cfg, v, m, yes, no, now, tte, model).Some?
    ensures var i := Decide(cfg, v, m, yes, no, now, tte, model).value;
            var quote := if i.side.Yes? then yes else no;
            && v.strike > 0.0 && tte >= cfg.minTteUs && SideOf(cfg, v) == Some(i.side)
            && ProbYes(cfg, v, tte, model).Some?
            && 1 <= i.limit <= 99 && cfg.minBuyLimit <= i.limit <= cfg.maxBuyLimit
            && BuyCutoff(quote, cfg.entryNotionalCents) == Some(i.limit - cfg.entrySlippageTicks)
            && 0 <= now - quote.ts <= cfg.maxQuoteAgeUs
            && i.edgeTicks >= cfg.minEdgeTicks
            && (quote.bid.Some? ==> i.edgeTicks >= i.edgePrice - quote.bid.value)
            && (cfg.entrySlippageTicks >= 0 ==>
                  0 <= 2 * (i.edgePrice - (i.limit - cfg.entrySlippageTicks)) - cfg.entrySlippageTicks <= 1)
            && (var edge := SideProb(i.side, ProbYes(cfg, v, tte, model).value) * 100.0 - i.edgePrice as real;
                i.edgeTicks as real <= edge < i.edgeTicks as real + 1.0)
            && i.token == (if i.side.Yes? then m.yesToken else m.noToken)
  {
  }
}
