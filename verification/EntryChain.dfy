/** From a BUY intent to the signed amounts: no accepted intent is lost to canonicalisation. */
module EntryChain {
  import opened Wrappers
  import opened MachineInt
  import opened MarketState
  import Signal
  import Orders
  import Signing

  /** Under a validated configuration every intent becomes a venue-valid order at its own limit: it
      canonicalises, signs at exactly the limit price, costs at least the venue floor, and within
      one lattice step of the configured notional. */
  lemma IntentBecomesExactOrder(cfg: Signal.SignalConfig, v: Signal.SignalView, m: MarketContext,
                                yes: Quote, no: Quote, now: int, tte: int, model: Option<real>,
                                usdc: int, overrunCents: int, overrunBps: int)
    requires Signal.Decide(cfg, v, m, yes, no, now, tte, model).Some?
    requires Orders.ValidatedConfig(usdc)
    requires Orders.Affordable(Orders.BuyPolicyInput(usdc, overrunCents, overrunBps,
                                                     Signal.Decide(cfg, v, m, yes, no, now, tte, model).value.limit))
    ensures var limit := Signal.Decide(cfg, v, m, yes, no, now, tte, model).value.limit;
            var order := Orders.CanonicalBuy(Orders.BuyPolicyInput(usdc, overrunCents, overrunBps, limit));
            && order.Ok?
            && Signing.BuyAmounts(order.value).Ok?
            && Signing.BuyAmounts(order.value).value.makerAtoms * 100
               == limit * Signing.BuyAmounts(order.value).value.takerAtoms
            && order.value.makerCents >= 100
            && Abs(order.value.makerCents - usdc) <= Orders.CostStep(limit) <= 99
  {
    var limit := Signal.Decide(cfg, v, m, yes, no, now, tte, model).value.limit;
    var inp := Orders.BuyPolicyInput(usdc, overrunCents, overrunBps, limit);
    Orders.ValidatedConfigAlwaysOrders(usdc, overrunCents, overrunBps, limit);
    Orders.PolicyRawSize(usdc, overrunCents, overrunBps, limit);
    Orders.NotionalBound(inp);
    Signing.SignedBuyIsExact(inp);
  }
}
