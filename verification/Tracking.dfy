/** How trade events start, keep and drop exit trackers, in terms of the trade's record, the balance it
    leaves and the quote of the moment. */
module Tracking {
  import opened Wrappers
  import opened MachineInt
  import opened VenueTypes
  import opened InventorySpec
  import opened MarketState
  import opened RuntimeSpec

  /** A bid is that of the token's own quote, while the token is one of the active market's two. */
  lemma BidExactlyWhen(v: MarketView, token: TokenId, bid: int)
    ensures BidOf(v, token) == Some(bid)
            <==> && v.market.Some? && token in {v.market.value.yesToken, v.market.value.noToken}
                 && token in v.quotes && v.quotes[token].bid == Some(bid)
  {
  }

  /** A pass sees a bid exactly for a tracked token of which at least a hundredth of a share is owned. */
  lemma SeenExactlyWhen(c: CoreState, token: TokenId, bid: int)
    ensures BidSeen(c, token) == Some(bid)
            <==> && OwnedIn(c.inv.ledger.owned, token) >= 10_000 && token in c.trackers
                 && BidOf(c.market, token) == Some(bid)
  {
  }

  /** The event is the first MATCHED or CONFIRMED of its trade. */
  predicate FirstFill(l: Ledger, t: UserTrade) {
    (t.status == Matched || t.status == Confirmed) && (t.tradeId in l.trades ==> !l.trades[t.tradeId].applied)
  }

  /** The event takes back a fill that was not final. */
  predicate TakesBack(l: Ledger, t: UserTrade) {
    t.status == Failed && t.tradeId in l.trades && l.trades[t.tradeId].applied && !l.trades[t.tradeId].finalized
  }

  /** The token and side of the trade: those of its opening event. */
  function TradedToken(l: Ledger, t: UserTrade): TokenId {
    if t.tradeId in l.trades then l.trades[t.tradeId].token else t.token
  }

  function TradedSide(l: Ledger, t: UserTrade): OrderSide {
    if t.tradeId in l.trades then l.trades[t.tradeId].side else t.side
  }

  /** What a trade event reports: its own id, status and match, the opening event's terms, whether the trade
      has applied and is final by now, and whether this event moved the balance. */
  lemma ReportExactly(s: InvState, t: UserTrade, m: Option<SubmitId>)
    ensures var (r, l) := (TradeReport(s, t, m), s.ledger);
            var known := t.tradeId in l.trades;
            && r.tradeId == t.tradeId && r.status == t.status && r.matchedSubmit == m
            && r.token == TradedToken(l, t) && r.side == TradedSide(l, t)
            && r.sizeAtoms == (if known then l.trades[t.tradeId].sizeAtoms else t.sizeAtoms)
            && (r.inventoryChanged <==> FirstFill(l, t) || TakesBack(l, t))
            && (r.applied <==> FirstFill(l, t) || (known && l.trades[t.tradeId].applied))
            && (r.finalized <==> t.status == Confirmed || t.status == Failed || (known && l.trades[t.tradeId].finalized))
  {
  }

  /** The tracker a fill starts: from its price and time, the bid of the moment, or its price without one,
      and the higher of the two as peak. */
  ghost predicate StartedBy(v: MarketView, token: TokenId, t: UserTrade, tr: ExitTracker) {
    && tr.entryPrice == t.price && tr.fillTs == t.ts
    && (forall b :: BidOf(v, token) == Some(b) ==> tr.entryBid == b)
    && (BidOf(v, token).None? ==> tr.entryBid == t.price)
    && tr.peakBid >= tr.entryBid && tr.peakBid >= tr.entryPrice
    && (tr.peakBid == tr.entryBid || tr.peakBid == tr.entryPrice)
  }

  /** After a trade event: the first fill of a BUY that leaves a sellable quantum starts the tracker anew; a
      fill or take-back of a SELL that leaves less drops it; every other tracker stays as it is. */
  lemma TrackersAfterTrade(c: CoreState, t: UserTrade, m: Option<SubmitId>)
    ensures var (l, c', token) := (c.inv.ledger, UserTradeStep(c, t, m), TradedToken(c.inv.ledger, t));
            var left := OwnedIn(c'.inv.ledger.owned, token);
            var starts := FirstFill(l, t) && TradedSide(l, t) == Buy && left >= 10_000;
            var drops := (FirstFill(l, t) || TakesBack(l, t)) && TradedSide(l, t) == Sell && left < 10_000;
            && (forall x :: x != token ==> (x in c'.trackers <==> x in c.trackers)
                                           && (x in c.trackers ==> c'.trackers[x] == c.trackers[x]))
            && (starts ==> token in c'.trackers && StartedBy(c.market, token, t, c'.trackers[token]))
            && (drops ==> token !in c'.trackers)
            && (!starts && !drops ==> (token in c'.trackers <==> token in c.trackers)
                                      && (token in c.trackers ==> c'.trackers[token] == c.trackers[token]))
  {
  }
}
