/** Active market, latest quotes and the per-token quote history. */
module MarketState {
  import opened Wrappers
  import opened VenueTypes
  import OrderBook

  const QUOTE_HISTORY_CAP: nat := 64

  datatype MarketContext = MarketContext(
    slug: string,
    conditionId: ConditionId,
    yesToken: TokenId,
    noToken: TokenId,
    endTs: int,
    slugTs: int)

  datatype Quote = Quote(bid: Option<int>, ask: Option<int>, askDepth: OrderBook.Ladder, tick: int, ts: int)

  datatype QuoteSample = QuoteSample(ts: int, bidTicks: Option<int>, askTicks: Option<int>)

  datatype MarketView = MarketView(
    market: Option<MarketContext>,
    quotes: map<TokenId, Quote>,
    history: map<TokenId, seq<QuoteSample>>,
    active: bool)

  const NO_MARKET: MarketView := MarketView(None, map[], map[], false)

  function SideForToken(v: MarketView, token: TokenId): Option<OutcomeSide> {
    if v.market.None? then None
    else if token == v.market.value.yesToken then Some(Yes)
    else if token == v.market.value.noToken then Some(No)
    else None
  }

  function TokenForSide(v: MarketView, side: OutcomeSide): Option<TokenId> {
    if v.market.None? then None
    else match side
      case Yes => Some(v.market.value.yesToken)
      case No => Some(v.market.value.noToken)
  }

  function QuoteForToken(v: MarketView, token: TokenId): Option<Quote> {
    if SideForToken(v, token).None? || token !in v.quotes then None else Some(v.quotes[token])
  }

  function QuoteForSide(v: MarketView, side: OutcomeSide): Option<Quote> {
    var token := TokenForSide(v, side);
    if token.None? || token.value !in v.quotes then None else Some(v.quotes[token.value])
  }

  function BidOf(v: MarketView, token: TokenId): Option<int> {
    match QuoteForToken(v, token)
    case None => None
    case Some(q) => q.bid
  }

  // ------------------------------------------------------------------- history ring

  /** The n newest elements. */
  function Newest<T>(s: seq<T>, n: nat): seq<T> {
    if |s| <= n then s else s[|s| - n..]
  }

  function RingOf(v: MarketView, token: TokenId): seq<QuoteSample> {
    if token in v.history then v.history[token] else []
  }

  function SampleOf(q: Quote): QuoteSample {
    QuoteSample(q.ts, q.bid, q.ask)
  }

  /** Oldest sample at or after the cutoff, in arrival order. */
  function OldestSince(ring: seq<QuoteSample>, cutoff: int): (r: Option<QuoteSample>)
    ensures r.None? <==> forall i :: 0 <= i < |ring| ==> ring[i].ts < cutoff
    ensures r.Some? ==> exists i :: 0 <= i < |ring| && ring[i] == r.value && r.value.ts >= cutoff
                                    && forall j :: 0 <= j < i ==> ring[j].ts < cutoff
  {
    if ring == [] then None
    else if ring[0].ts >= cutoff then Some(ring[0])
    else
      assert forall i :: 1 <= i < |ring| ==> ring[i] == ring[1..][i - 1];
      var r := OldestSince(ring[1..], cutoff);
      assert r.Some? ==> exists i :: 0 <= i < |ring| && ring[i] == r.value && r.value.ts >= cutoff
                                     && forall j :: 0 <= j < i ==> ring[j].ts < cutoff by {
        if r.Some? {
          var k :| 0 <= k < |ring[1..]| && ring[1..][k] == r.value && forall j :: 0 <= j < k ==> ring[1..][j].ts < cutoff;
          assert ring[k + 1] == r.value;
        }
      }
      r
  }

  // ------------------------------------------------------------------------- events

  datatype MarketEvent =
    | QuoteEvent(token: TokenId, bid: Option<int>, ask: Option<int>, askDepth: OrderBook.Ladder, tick: int)
    | Resolved(condition: Option<ConditionId>)

  predicate Accepts(v: MarketView, token: TokenId) {
    v.active && SideForToken(v, token).Some?
  }

  function UpdateQuote(v: MarketView, token: TokenId, q: Quote): MarketView {
    if !Accepts(v, token) then v
    else v.(history := v.history[token := Newest(RingOf(v, token) + [SampleOf(q)], QUOTE_HISTORY_CAP)],
            quotes := v.quotes[token := q])
  }

  function Inactive(v: MarketView): MarketView {
    v.(active := false, quotes := map[], history := map[])
  }

  function WithMarket(v: MarketView, m: MarketContext): MarketView {
    MarketView(Some(m), map[], map[], true)
  }

  predicate ResolvesActive(v: MarketView, condition: Option<ConditionId>) {
    condition.Some? && v.market.Some? && v.market.value.conditionId == condition.value
  }

  function ApplyEvent(v: MarketView, e: MarketEvent, ts: int): MarketView {
    match e
    case QuoteEvent(token, bid, ask, depth, tick) => UpdateQuote(v, token, Quote(bid, ask, depth, tick, ts))
    case Resolved(condition) => if ResolvesActive(v, condition) then Inactive(v) else v
  }

  class RuntimeState {
    var market: Option<MarketContext>
    var quotes: map<TokenId, Quote>
    var quoteHistory: map<TokenId, seq<QuoteSample>>
    var tradingActive: bool

    ghost function View(): MarketView
      reads this
    {
      MarketView(market, quotes, quoteHistory, tradingActive)
    }

    constructor ()
      ensures View() == NO_MARKET
    {
      market, quotes, quoteHistory, tradingActive := None, map[], map[], false;
    }

    method SetMarketContext(m: MarketContext)
      modifies this
      ensures View() == WithMarket(old(View()), m)
    {
      market := Some(m);
      quotes := map[];
      quoteHistory := map[];
      tradingActive := true;
    }

    method MarkMarketInactive()
      modifies this
      ensures View() == Inactive(old(View()))
    {
      tradingActive := false;
      quotes := map[];
      quoteHistory := map[];
    }

    /** Drops samples from the front while the ring is full, then appends. */
    method PushSample(token: TokenId, sample: QuoteSample)
      modifies this`quoteHistory
      ensures View() == old(View()).(history :=
                old(quoteHistory)[token := Newest(RingOf(old(View()), token) + [sample], QUOTE_HISTORY_CAP)])
    {
      var ring := if token in quoteHistory then quoteHistory[token] else [];
      ghost var was := ring;
      while |ring| >= QUOTE_HISTORY_CAP
        invariant |ring| <= |was| && ring == was[|was| - |ring|..]
        invariant |was| >= QUOTE_HISTORY_CAP ==> |ring| >= QUOTE_HISTORY_CAP - 1
        invariant |was| < QUOTE_HISTORY_CAP ==> ring == was
        decreases |ring|
      {
        ring := ring[1..];
      }
      ring := ring + [sample];
      assert ring == Newest(was + [sample], QUOTE_HISTORY_CAP);
      quoteHistory := quoteHistory[token := ring];
    }

    method UpdateQuoteWithDepth(token: TokenId, q: Quote) returns (updated: bool)
      modifies this
      ensures updated == Accepts(old(View()), token)
      ensures View() == UpdateQuote(old(View()), token, q)
    {
      var known := market.Some? && (token == market.value.yesToken || token == market.value.noToken);
      if !tradingActive || !known {
        return false;
      }
      PushSample(token, QuoteSample(q.ts, q.bid, q.ask));
      quotes := quotes[token := q];
      updated := true;
    }

    /** Applies a batch of parsed events in order and counts the quotes that were taken. */
    method ApplyMarketEvents(events: seq<MarketEvent>, ts: int) returns (applied: nat)
      modifies this
      ensures View() == ApplyEvents(old(View()), events, ts)
      ensures applied == CountTaken(old(View()), events, ts)
    {
      applied := 0;
      for i := 0 to |events|
        invariant View() == ApplyEvents(old(View()), events[..i], ts)
        invariant applied == CountTaken(old(View()), events[..i], ts)
      {
        assert events[..i + 1][..i] == events[..i];
        match events[i] {
          case QuoteEvent(token, bid, ask, depth, tick) =>
            var updated := UpdateQuoteWithDepth(token, Quote(bid, ask, depth, tick, ts));
            if updated {
              applied := applied + 1;
            }
          case Resolved(condition) =>
            if condition.Some? && market.Some? && market.value.conditionId == condition.value {
              MarkMarketInactive();
            }
        }
      }
      assert events[..|events|] == events;
    }
  }

  function ApplyEvents(v: MarketView, events: seq<MarketEvent>, ts: int): MarketView {
    if events == [] then v
    else ApplyEvent(ApplyEvents(v, events[..|events| - 1], ts), events[|events| - 1], ts)
  }

  function CountTaken(v: MarketView, events: seq<MarketEvent>, ts: int): nat {
    if events == [] then 0
    else
      var init, last := events[..|events| - 1], events[|events| - 1];
      CountTaken(v, init, ts)
      + if last.QuoteEvent? && Accepts(ApplyEvents(v, init, ts), last.token) then 1 else 0
  }

  // ---------------------------------------------------------- whole runs of market data

  datatype FeedStep = Data(event: MarketEvent, ts: int) | Rotated(market: MarketContext)

  type Feed = seq<FeedStep>

  function RunFeed(feed: Feed): MarketView {
    if feed == [] then NO_MARKET
    else
      var v := RunFeed(feed[..|feed| - 1]);
      match feed[|feed| - 1]
      case Data(e, ts) => ApplyEvent(v, e, ts)
      case Rotated(m) => WithMarket(v, m)
  }

  /** Every sample taken for a token since its market last started or stopped. */
  function TakenSince(feed: Feed, token: TokenId): seq<QuoteSample> {
    if feed == [] then []
    else
      var init := feed[..|feed| - 1];
      match feed[|feed| - 1]
      case Data(QuoteEvent(t, bid, ask, depth, tick), ts) =>
        if t == token && Accepts(RunFeed(init), token)
        then TakenSince(init, token) + [QuoteSample(ts, bid, ask)]
        else TakenSince(init, token)
      case Data(Resolved(condition), ts) =>
        if ResolvesActive(RunFeed(init), condition) then [] else TakenSince(init, token)
      case Rotated(m) => []
  }

  /** In every reachable state a token's ring is exactly its newest 64 samples, a token is quoted
      exactly while it has samples, its quote is the newest of them, and only tokens of the active
      market are quoted. */
  lemma {:induction false} RingIsNewestHistory(feed: Feed, token: TokenId)
    ensures var (v, taken) := (RunFeed(feed), TakenSince(feed, token));
            && RingOf(v, token) == Newest(taken, QUOTE_HISTORY_CAP)
            && (token in v.quotes <==> taken != [])
            && (token in v.quotes ==> (Accepts(v, token) && SampleOf(v.quotes[token]) == taken[|taken| - 1]))
  {
    if feed != [] {
      var init, last := feed[..|feed| - 1], feed[|feed| - 1];
      RingIsNewestHistory(init, token);
      var taken := TakenSince(init, token);
      if last.Data? && last.event.QuoteEvent? && last.event.token == token && Accepts(RunFeed(init), token) {
        var sample := QuoteSample(last.ts, last.event.bid, last.event.ask);
        assert Newest(Newest(taken, QUOTE_HISTORY_CAP) + [sample], QUOTE_HISTORY_CAP)
            == Newest(taken + [sample], QUOTE_HISTORY_CAP);
      }
    }
  }

  // ------------------------------------------------------------------- trading and resolution

  /** An event resolves a condition. */
  predicate ResolvesCondition(e: MarketEvent, condition: ConditionId) {
    e.Resolved? && e.condition == Some(condition)
  }

  /** Step r of a feed is its last rotation. */
  ghost predicate LastRotation(feed: Feed, r: nat) {
    r < |feed| && feed[r].Rotated? && forall j :: r < j < |feed| ==> feed[j].Data?
  }

  /** The market held is that of the last rotation, and it trades exactly until its own condition is
      resolved. */
  lemma {:induction false} TradesExactlyWhen(feed: Feed, r: nat)
    requires LastRotation(feed, r)
    ensures RunFeed(feed).market == Some(feed[r].market)
    ensures RunFeed(feed).active
            <==> forall j :: r < j < |feed| ==> !ResolvesCondition(feed[j].event, feed[r].market.conditionId)
    decreases |feed|
  {
    var init, last := feed[..|feed| - 1], feed[|feed| - 1];
    if r < |feed| - 1 {
      assert forall j :: 0 <= j < |init| ==> init[j] == feed[j];
      TradesExactlyWhen(init, r);
    }
  }

  /** Before the first rotation there is no market and no trading. */
  lemma {:induction false} NothingBeforeRotation(feed: Feed)
    requires forall j :: 0 <= j < |feed| ==> feed[j].Data?
    ensures RunFeed(feed) == NO_MARKET
  {
    if feed != [] {
      NothingBeforeRotation(feed[..|feed| - 1]);
    }
  }

  /** The event is a quote of one of the two tokens, and no event before it has ended the trading. */
  ghost predicate TakesQuote(v: MarketView, events: seq<MarketEvent>, i: int)
    requires 0 <= i < |events|
  {
    && v.active && v.market.Some?
    && events[i].QuoteEvent? && events[i].token in {v.market.value.yesToken, v.market.value.noToken}
    && forall j :: 0 <= j < i ==> !ResolvesCondition(events[j], v.market.value.conditionId)
  }

  lemma {:induction false} ActiveAfter(v: MarketView, events: seq<MarketEvent>, ts: int)
    requires v.market.Some?
    ensures ApplyEvents(v, events, ts).market == v.market
    ensures ApplyEvents(v, events, ts).active
            <==> v.active && forall j :: 0 <= j < |events| ==> !ResolvesCondition(events[j], v.market.value.conditionId)
  {
    if events != [] {
      var init := events[..|events| - 1];
      ActiveAfter(v, init, ts);
      assert forall j :: 0 <= j < |init| ==> init[j] == events[j];
    }
  }

  /** How many flags are set. */
  function HowMany(flags: seq<bool>): nat {
    |set i | 0 <= i < |flags| && flags[i]|
  }

  lemma HowManyAppend(flags: seq<bool>, last: bool)
    ensures HowMany(flags + [last]) == HowMany(flags) + if last then 1 else 0
  {
    var before := set i | 0 <= i < |flags| && flags[i];
    var all := set i | 0 <= i < |flags + [last]| && (flags + [last])[i];
    assert all == if last then before + {|flags|} else before;
  }

  /** For each event of a batch, whether its quote is taken. */
  ghost function QuotesTaken(v: MarketView, events: seq<MarketEvent>): seq<bool> {
    seq(|events|, i requires 0 <= i < |events| => TakesQuote(v, events, i))
  }

  lemma QuotesTakenAppend(v: MarketView, events: seq<MarketEvent>, e: MarketEvent)
    ensures QuotesTaken(v, events + [e]) == QuotesTaken(v, events) + [TakesQuote(v, events + [e], |events|)]
  {
    forall i | 0 <= i < |events|
      ensures TakesQuote(v, events + [e], i) <==> TakesQuote(v, events, i)
    {
      assert forall j :: 0 <= j <= i ==> (events + [e])[j] == events[j];
    }
  }

  /** A batch reports exactly as many updates as it has such quotes. */
  lemma {:induction false} CountExactly(v: MarketView, events: seq<MarketEvent>, ts: int)
    requires v.market.Some?
    ensures CountTaken(v, events, ts) == HowMany(QuotesTaken(v, events))
  {
    if events != [] {
      var init, last := events[..|events| - 1], events[|events| - 1];
      CountExactly(v, init, ts);
      assert init + [last] == events;
      LastCounts(v, init, last, ts);
      QuotesTakenAppend(v, init, last);
      HowManyAppend(QuotesTaken(v, init), TakesQuote(v, events, |init|));
    }
  }

  lemma LastCounts(v: MarketView, init: seq<MarketEvent>, last: MarketEvent, ts: int)
    requires v.market.Some?
    ensures TakesQuote(v, init + [last], |init|)
            <==> last.QuoteEvent? && Accepts(ApplyEvents(v, init, ts), last.token)
  {
    ActiveAfter(v, init, ts);
    assert forall j :: 0 <= j < |init| ==> (init + [last])[j] == init[j];
  }
}
