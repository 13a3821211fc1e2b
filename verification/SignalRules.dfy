/** The engine's answers, each exactly characterised: when a sample is taken, which side the window picks
    or presses against, the probability, the fair price and the entry intent. */
module SignalRules {
  import opened Wrappers
  import opened MachineInt
  import opened VenueTypes
  import opened MarketState
  import opened Signal
  import OrderBook

  // ------------------------------------------------------------------------- samples

  /** A sample is ignored exactly when something is wrong with it: no price or size, a crossed book, too
      little size, too wide a spread, or not newer than what was taken. */
  lemma IgnoredExactlyWhen(cfg: SignalConfig, v: SignalView, s: BinanceSample, recvTs: int)
    ensures PushReceived(cfg, v, s, recvTs) == v
            <==> || s.microprice <= 0.0 || s.bid <= 0.0 || s.bidQty <= 0.0 || s.askQty <= 0.0
                 || s.bid > s.ask
                 || s.bidQty + s.askQty < cfg.minTotalQty
                 || 0.0 < cfg.maxSpread < s.ask - s.bid
                 || s.updateId <= v.last.updateId
                 || (v.samples != [] && s.ts <= v.samples[|v.samples| - 1].ts)
  {
    if Acceptable(cfg, v, s) {
      assert PushReceived(cfg, v, s, recvTs).last.updateId == s.updateId;
    }
  }

  /** What a taken sample leaves behind it: a point with its own times and price, an imbalance that is the
      excess of the bid size over the ask size as a share of both, and its book as the one remembered. */
  lemma PointExactly(cfg: SignalConfig, v: SignalView, s: BinanceSample, recvTs: int)
    requires Acceptable(cfg, v, s)
    ensures var after := PushReceived(cfg, v, s, recvTs);
            && after.samples != [] && after.strike == v.strike
            && var p := after.samples[|after.samples| - 1];
               && p.ts == s.ts && p.recvTs == recvTs && p.microprice == s.microprice
               && p.imbalance * (s.bidQty + s.askQty) == s.bidQty - s.askQty
               && after.last == LastBook(s.updateId, s.bid, s.ask, s.bidQty, s.askQty)
  {
    ShareTimesWhole(s.bidQty - s.askQty, s.bidQty + s.askQty);
  }

  lemma ShareTimesWhole(a: real, q: real)
    requires q > 0.0
    ensures a / q * q == a
  {
  }

  /** The ring holds what it held and the sample, but no more than the configured number of samples, and at
      least eight. */
  lemma RingFills(cfg: SignalConfig, v: SignalView, s: BinanceSample, recvTs: int)
    requires Acceptable(cfg, v, s)
    ensures |PushReceived(cfg, v, s, recvTs).samples| == Min(|v.samples| + 1, Max(cfg.maxSamples, 8))
  {
  }

  /** A new strike empties the window and forgets the book exactly when it is asked to. */
  lemma RestrikeExactly(v: SignalView, strike: real)
    ensures SetStrike(v, strike, true) == SignalView(strike, [], LastBook(0, 0.0, 0.0, 0.0, 0.0))
    ensures var kept := SetStrike(v, strike, false);
            kept.strike == strike && kept.samples == v.samples && kept.last == v.last
  {
  }

  // ------------------------------------------------------------------------ the window

  /** Sample k is earlier than the latest, by a span the window admits. */
  ghost predicate Spans(cfg: SignalConfig, v: SignalView, k: nat)
    requires k < |v.samples|
  {
    var span := v.samples[|v.samples| - 1].ts - v.samples[k].ts;
    0 < span && cfg.minWindowUs <= span <= cfg.maxWindowUs
  }

  /** There is a window exactly when some sample spans it. */
  lemma WindowExactlyWhen(cfg: SignalConfig, v: SignalView)
    requires Chronological(v.samples)
    ensures LatestWindow(cfg, v).Some? <==> exists k: nat :: k < |v.samples| && Spans(cfg, v, k)
  {
    if LatestWindow(cfg, v).Some? {
      var b := WindowSplits(cfg, v);
      assert Spans(cfg, v, b);
    }
    if k: nat :| k < |v.samples| && Spans(cfg, v, k) {
      SpanGivesWindow(cfg, v, k);
    }
  }

  lemma SpanGivesWindow(cfg: SignalConfig, v: SignalView, k: nat)
    requires Chronological(v.samples) && k < |v.samples| && Spans(cfg, v, k)
    ensures LatestWindow(cfg, v).Some?
  {
    var cutoff := v.samples[|v.samples| - 1].ts - cfg.maxWindowUs;
    var b := FirstSince(v.samples, cutoff);
    FirstSinceSplits(v.samples, cutoff);
    EarlierOrSame(v.samples, b, k);
  }

  lemma EarlierOrSame(samples: seq<SignalPoint>, b: nat, k: nat)
    requires Chronological(samples) && b <= k < |samples|
    ensures samples[b].ts <= samples[k].ts
  {
  }

  /** Move, order flow and imbalance over the window. */
  datatype Pressure = Pressure(move: real, flow: real, imbalance: real)

  function PressureOf(cfg: SignalConfig, v: SignalView): Pressure
    requires LatestWindow(cfg, v).Some?
  {
    var (latest, base) := LatestWindow(cfg, v).value;
    Pressure(latest.microprice - base.microprice, OfiSumSince(v.samples, latest.ts - cfg.maxWindowUs), latest.imbalance)
  }

  predicate Upward(cfg: SignalConfig, p: Pressure) {
    p.move >= cfg.minMove && p.flow >= cfg.minAbsOfi && p.imbalance >= cfg.minImbalance
  }

  predicate Downward(cfg: SignalConfig, p: Pressure) {
    -p.move >= cfg.minMove && -p.flow >= cfg.minAbsOfi && -p.imbalance >= cfg.minImbalance
  }

  /** The window picks YES exactly when it has risen with upward pressure, and NO exactly when it has
      not risen and all three press downward. */
  lemma SideExactlyWhen(cfg: SignalConfig, v: SignalView, side: OutcomeSide)
    ensures SideOf(cfg, v) == Some(side)
            <==> LatestWindow(cfg, v).Some?
                 && var p := PressureOf(cfg, v);
                    if side.Yes? then p.move > 0.0 && Upward(cfg, p) else p.move <= 0.0 && Downward(cfg, p)
  {
  }

  /** A window whose latest sample is not from the future and no older than the lag limit, if there is one. */
  predicate Current(cfg: SignalConfig, v: SignalView, now: int) {
    LatestWindow(cfg, v).Some?
    && var received := v.samples[|v.samples| - 1].recvTs;
       received <= now && (cfg.maxLagUs <= 0 || now <= received + cfg.maxLagUs)
  }

  /** A current window answers whether it presses against a side: downward against YES, upward against NO. */
  lemma OpposesExactlyWhen(cfg: SignalConfig, v: SignalView, side: OutcomeSide, now: int, against: bool)
    ensures OpposesSide(cfg, v, side, now) == Some(against)
            <==> Current(cfg, v, now)
                 && (against <==> if side.Yes? then Downward(cfg, PressureOf(cfg, v)) else Upward(cfg, PressureOf(cfg, v)))
  {
  }

  // ------------------------------------------------------------------- the probability

  /** The value nearest to x between two limits. */
  predicate Nearest(x: real, lo: real, hi: real, p: real) {
    lo <= p <= hi && (p == x || (p == lo && x < lo) || (p == hi && x > hi))
  }

  /** The probability of YES is the model's answer, brought inside the configured limits, and these inside
      0..1; there is one exactly with a strike, time left, a positive latest price and an answer. */
  lemma ProbabilityExactlyWhen(cfg: SignalConfig, v: SignalView, tte: int, model: Option<real>)
    returns (lo: real, hi: real)
    ensures Nearest(cfg.probFloor, 0.0, 1.0, lo) && Nearest(cfg.probCeil, lo, 1.0, hi)
    ensures forall p :: ProbYes(cfg, v, tte, model) == Some(p)
                        <==> && v.samples != [] && v.samples[|v.samples| - 1].microprice > 0.0
                             && v.strike > 0.0 && tte > 0 && model.Some? && Nearest(model.value, lo, hi, p)
  {
    lo := Clamp(cfg.probFloor, 0.0, 1.0);
    hi := Clamp(cfg.probCeil, lo, 1.0);
  }

  /** The probability of the side itself. */
  function ShareOf(side: OutcomeSide, pYes: real): real {
    match side
    case Yes => pYes
    case No => 1.0 - pYes
  }

  /** The fair price is the whole ticks of the side's probability, while the window is current. */
  lemma FairExactlyWhen(cfg: SignalConfig, v: SignalView, side: OutcomeSide, now: int, tte: int, model: Option<real>,
                        f: int)
    ensures FairTicks(cfg, v, side, now, tte, model) == Some(f)
            <==> && Current(cfg, v, now) && ProbYes(cfg, v, tte, model).Some?
                 && f as real <= 100.0 * ShareOf(side, ProbYes(cfg, v, tte, model).value) < f as real + 1.0
  {
    if Current(cfg, v, now) && ProbYes(cfg, v, tte, model).Some? {
      FloorExactly(100.0 * ShareOf(side, ProbYes(cfg, v, tte, model).value), f);
    }
  }

  lemma FloorExactly(x: real, n: int)
    ensures x.Floor == n <==> n as real <= x < n as real + 1.0
  {
  }

  // ------------------------------------------------------------ the price that fills an entry

  lemma {:induction false} LadderCostGrows(l: OrderBook.Ladder, p1: int, p2: int)
    requires p1 <= p2 && forall x :: x in l ==> x.price > 0 && x.sizeAtoms > 0
    ensures OrderBook.LadderCostBelow(l, p1) <= OrderBook.LadderCostBelow(l, p2)
  {
    if l != [] {
      assert l[0] in l && forall x :: x in l[1..] ==> x in l;
      OrderBook.LevelCosts(l[0]);
      LadderCostGrows(l[1..], p1, p2);
    }
  }

  /** Everything cheaper than p costs less than the target, and everything up to p reaches it. */
  ghost predicate FillsAt(l: OrderBook.Ladder, target: int, p: int) {
    OrderBook.LadderCostBelow(l, p) < target <= OrderBook.LadderCostBelow(l, p + 1)
  }

  /** The filling price: where the kept depth first costs the notional, when it does, else the best ask. */
  lemma CutoffExactlyWhen(q: Quote, cents: int, p: int)
    requires FromBook(q)
    ensures BuyCutoff(q, cents) == Some(p)
            <==> if 0 < cents && cents * 1_000_000 <= OrderBook.DepthCost(q.askDepth)
                 then FillsAt(q.askDepth, cents * 1_000_000, p) else q.ask == Some(p)
  {
    var l, target := q.askDepth, cents * 1_000_000;
    if 0 < cents {
      assert forall x :: x in l ==> x.price > 0 && x.sizeAtoms > 0;
      OrderBook.WalkFindsExactlyWhen(l, target, 0);
      OrderBook.WalkStops(l, target, 0);
      if OrderBook.Walk(l, target, 0).Some? {
        OneFillingPrice(l, target, p, OrderBook.Walk(l, target, 0).value);
      }
    }
  }

  /** Without a notional the depth is not looked at. */
  lemma NoNotionalIsBestAsk(q: Quote, cents: int)
    requires cents <= 0
    ensures BuyCutoff(q, cents) == q.ask
  {
  }

  lemma OneFillingPrice(l: OrderBook.Ladder, target: int, p1: int, p2: int)
    requires FillsAt(l, target, p2) && forall x :: x in l ==> x.price > 0 && x.sizeAtoms > 0
    ensures FillsAt(l, target, p1) <==> p1 == p2
  {
    if p1 < p2 {
      LadderCostGrows(l, p1 + 1, p2);
    } else if p2 < p1 {
      LadderCostGrows(l, p2 + 1, p1);
    }
  }

  // ------------------------------------------------------------------------ the intent

  /** Half the slippage, rounded away from a whole tick below: what is added to the filling price before
      the edge is measured. */
  predicate HalfOf(slippage: int, half: int) {
    if slippage >= 0 then 0 <= 2 * half - slippage <= 1 else 1 <= 2 * half - slippage <= 2
  }

  predicate EdgeSuffices(cfg: SignalConfig, quote: Quote, i: BuyIntent) {
    && i.edgeTicks >= cfg.minEdgeTicks && i.edgeTicks >= 0
    && (quote.bid.Some? ==> quote.bid.value + i.edgeTicks >= i.edgePrice)
  }

  /** What the quote of a side and a probability of YES have to be for this very intent. */
  ghost predicate Priced(cfg: SignalConfig, quote: Quote, now: int, pYes: real, i: BuyIntent) {
    && quote.ts <= now <= quote.ts + cfg.maxQuoteAgeUs
    && BuyCutoff(quote, cfg.entryNotionalCents) == Some(i.limit - cfg.entrySlippageTicks)
    && 1 <= i.limit <= 99 && cfg.minBuyLimit <= i.limit <= cfg.maxBuyLimit
    && 1 <= i.edgePrice <= 99 && HalfOf(cfg.entrySlippageTicks, i.edgePrice - (i.limit - cfg.entrySlippageTicks))
    && (i.edgePrice + i.edgeTicks) as real <= 100.0 * ShareOf(i.side, pYes)
                                           < (i.edgePrice + i.edgeTicks) as real + 1.0
    && EdgeSuffices(cfg, quote, i)
  }

  /** What a window, the two quotes and a probability of YES have to be for this very intent. */
  ghost predicate Fits(cfg: SignalConfig, v: SignalView, m: MarketContext, yes: Quote, no: Quote,
                       now: int, tte: int, pYes: real, i: BuyIntent) {
    && v.strike > 0.0 && tte >= cfg.minTteUs
    && SideOf(cfg, v) == Some(i.side)
    && i.token == (if i.side == Yes then m.yesToken else m.noToken)
    && Priced(cfg, if i.side == Yes then yes else no, now, pYes, i)
  }

  lemma IntentOnExactlyWhen(cfg: SignalConfig, side: OutcomeSide, token: TokenId, quote: Quote, pYes: real, now: int,
                            i: BuyIntent)
    ensures IntentOn(cfg, side, token, quote, Some(pYes), now) == Some(i)
            <==> i.side == side && i.token == token && Priced(cfg, quote, now, pYes, i)
  {
    FloorExactly(SideProb(side, pYes) * 100.0 - i.edgePrice as real, i.edgeTicks);
    HalfIsRounded(cfg.entrySlippageTicks, i.edgePrice - (i.limit - cfg.entrySlippageTicks));
  }

  lemma HalfIsRounded(slippage: int, half: int)
    ensures HalfOf(slippage, half) <==> half == TruncDiv(slippage + 1, 2)
  {
  }

  /** The entry decision, both ways and on both sides: this intent comes out if and only if a probability
      exists and everything fits it. */
  lemma IntentExactlyWhen(cfg: SignalConfig, v: SignalView, m: MarketContext, yes: Quote, no: Quote,
                          now: int, tte: int, model: Option<real>, i: BuyIntent)
    ensures Decide(cfg, v, m, yes, no, now, tte, model) == Some(i)
            <==> ProbYes(cfg, v, tte, model).Some?
                 && Fits(cfg, v, m, yes, no, now, tte, ProbYes(cfg, v, tte, model).value, i)
  {
    var side, p := SideOf(cfg, v), ProbYes(cfg, v, tte, model);
    if side.Some? && p.Some? {
      var quote, token := if side.value.Yes? then yes else no, if side.value.Yes? then m.yesToken else m.noToken;
      IntentOnExactlyWhen(cfg, side.value, token, quote, p.value, now, i);
    }
  }

  // ------------------------------------------------------------------------ symmetry

  /** The market with its outcomes exchanged. */
  function Exchanged(m: MarketContext): MarketContext {
    m.(yesToken := m.noToken, noToken := m.yesToken)
  }

  /** Limits that treat the sides alike. */
  predicate SymmetricLimits(cfg: SignalConfig) {
    cfg.probFloor + cfg.probCeil == 1.0 && 0.0 <= cfg.probFloor <= cfg.probCeil
  }

  lemma MirroredProbability(cfg: SignalConfig, v: SignalView, c: real, tte: int, model: Option<real>)
    requires SymmetricLimits(cfg)
    requires v.samples != [] ==> 0.0 < v.samples[|v.samples| - 1].microprice < c
    ensures var opposite := match model case None => None case Some(p) => Some(1.0 - p);
            ProbYes(cfg, MirrorView(v, c), tte, opposite)
            == match ProbYes(cfg, v, tte, model) case None => None case Some(p) => Some(1.0 - p)
  {
  }

  /** The entry decision treats the sides alike: with the book upside down, the outcomes and their quotes
      exchanged and the opposite probability, the same intent comes out on the other side. */
  lemma MirroredIntent(cfg: SignalConfig, v: SignalView, c: real, m: MarketContext, yes: Quote, no: Quote,
                       now: int, tte: int, model: Option<real>)
    requires cfg.minMove > 0.0 && SymmetricLimits(cfg)
    requires v.samples != [] ==> 0.0 < v.samples[|v.samples| - 1].microprice < c
    ensures var opposite := match model case None => None case Some(p) => Some(1.0 - p);
            Decide(cfg, MirrorView(v, c), Exchanged(m), no, yes, now, tte, opposite)
            == match Decide(cfg, v, m, yes, no, now, tte, model)
               case None => None
               case Some(i) => Some(i.(side := OtherSide(i.side)))
  {
    MirroredSide(cfg, v, c);
    MirroredProbability(cfg, v, c, tte, model);
  }
}
