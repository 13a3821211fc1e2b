/** What the stored order flow measures, message by message and over a stretch of messages. */
module OrderFlow {
  import opened Wrappers
  import opened MarketState
  import opened Signal

  /** A risen bid adds its whole new size, a fallen one takes away the whole old one, and at an
      unchanged price the change of size counts. */
  function BidPart(last: LastBook, s: BinanceSample): real {
    if s.bid > last.bid then s.bidQty
    else if s.bid < last.bid then -last.bidQty
    else s.bidQty - last.bidQty
  }

  /** A risen ask frees the whole old size, a fallen one brings its whole new size against, and at an
      unchanged price the change of size counts against. */
  function AskPart(last: LastBook, s: BinanceSample): real {
    if s.ask > last.ask then last.askQty
    else if s.ask < last.ask then -s.askQty
    else last.askQty - s.askQty
  }

  /** The flow of a message is what its bid and its ask contribute; the first of a window has none. */
  lemma FlowOfMessage(v: SignalView, s: BinanceSample)
    ensures Ofi(v, s) == if v.samples == [] then 0.0 else BidPart(v.last, s) + AskPart(v.last, s)
  {
  }

  // ------------------------------------------------------------------- stretches of messages

  type Messages = seq<(BinanceSample, int)>

  function Fed(cfg: SignalConfig, v: SignalView, ms: Messages): SignalView {
    if ms == [] then v
    else
      var (s, recvTs) := ms[|ms| - 1];
      PushReceived(cfg, Fed(cfg, v, ms[..|ms| - 1]), s, recvTs)
  }

  ghost predicate AllAccepted(cfg: SignalConfig, v: SignalView, ms: Messages) {
    forall k :: 0 <= k < |ms| ==> Acceptable(cfg, Fed(cfg, v, ms[..k]), ms[k].0)
  }

  lemma AcceptedPrefix(cfg: SignalConfig, v: SignalView, ms: Messages)
    requires ms != [] && AllAccepted(cfg, v, ms)
    ensures AllAccepted(cfg, v, ms[..|ms| - 1])
    ensures Acceptable(cfg, Fed(cfg, v, ms[..|ms| - 1]), ms[|ms| - 1].0)
  {
    var init := ms[..|ms| - 1];
    forall k | 0 <= k < |init|
      ensures Acceptable(cfg, Fed(cfg, v, init[..k]), init[k].0)
    {
      assert init[..k] == ms[..k];
    }
  }

  lemma {:induction false} TotalAppend(samples: seq<SignalPoint>, p: SignalPoint)
    ensures OfiTotal(samples + [p]) == OfiTotal(samples) + p.ofi
  {
    if samples == [] {
      assert OfiTotal([p]) == p.ofi + OfiTotal([p][1..]);
    } else {
      assert (samples + [p])[1..] == samples[1..] + [p];
      TotalAppend(samples[1..], p);
    }
  }

  /** The flow a stretch of messages should add up to. */
  function FlowOver(last: LastBook, ms: Messages): real {
    if ms == [] then 0.0
    else
      var s := ms[|ms| - 1].0;
      var before := if |ms| == 1 then last else BookOf(ms[|ms| - 2].0);
      FlowOver(last, ms[..|ms| - 1]) + (BidPart(before, s) + AskPart(before, s))
  }

  function BookOf(s: BinanceSample): LastBook {
    LastBook(s.updateId, s.bid, s.ask, s.bidQty, s.askQty)
  }

  lemma NewestAfterPush(samples: seq<SignalPoint>, p: SignalPoint, n: nat, capacity: nat)
    requires n < capacity && n <= |samples|
    ensures Newest(Newest(samples, capacity - 1) + [p], n + 1) == Newest(samples, n) + [p]
  {
  }

  /** After a stretch no longer than the ring, its newest points are the stretch's, their flows add up
      to what the consecutive messages contribute, and the last message is the book remembered. */
  lemma {:induction false} StretchFlow(cfg: SignalConfig, v: SignalView, ms: Messages)
    requires v.samples != [] && AllAccepted(cfg, v, ms) && |ms| <= Capacity(cfg)
    ensures var after := Fed(cfg, v, ms);
            && |ms| <= |after.samples| && after.samples != []
            && after.last == (if ms == [] then v.last else BookOf(ms[|ms| - 1].0))
            && OfiTotal(Newest(after.samples, |ms|)) == FlowOver(v.last, ms)
  {
    if ms == [] {
      assert Newest(v.samples, 0) == [];
    } else {
      var n, init, s := |ms| - 1, ms[..|ms| - 1], ms[|ms| - 1].0;
      AcceptedPrefix(cfg, v, ms);
      StretchFlow(cfg, v, init);
      var before := Fed(cfg, v, init);
      var p := PointOf(before, s, ms[|ms| - 1].1);
      FlowOfMessage(before, s);
      NewestAfterPush(before.samples, p, n, Capacity(cfg));
      TotalAppend(Newest(before.samples, n), p);
    }
  }

  /** No best price moves in the stretch. */
  ghost predicate PricesStand(last: LastBook, ms: Messages) {
    forall k :: 0 <= k < |ms| ==> ms[k].0.bid == last.bid && ms[k].0.ask == last.ask
  }

  lemma {:induction false} StandingFlow(last: LastBook, ms: Messages)
    requires ms != [] && PricesStand(last, ms)
    ensures var end := ms[|ms| - 1].0;
            FlowOver(last, ms) == (end.bidQty - last.bidQty) - (end.askQty - last.askQty)
  {
    if |ms| > 1 {
      StandingFlow(last, ms[..|ms| - 1]);
    }
  }

  /** While the best prices stand, the order flow telescopes: what the bid size gained less what the
      ask size gained, whatever happened in between. */
  lemma FlowTelescopes(cfg: SignalConfig, v: SignalView, ms: Messages)
    requires v.samples != [] && AllAccepted(cfg, v, ms) && 0 < |ms| <= Capacity(cfg)
    requires PricesStand(v.last, ms)
    ensures var end := ms[|ms| - 1].0;
            OfiTotal(Newest(Fed(cfg, v, ms).samples, |ms|))
            == (end.bidQty - v.last.bidQty) - (end.askQty - v.last.askQty)
  {
    StretchFlow(cfg, v, ms);
    StandingFlow(v.last, ms);
  }
}
