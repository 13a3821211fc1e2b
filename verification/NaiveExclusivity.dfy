/** A run that ends with two blocking claims on one token: why exclusivity is stated for claims
    that never expired. */
module NaiveExclusivity {
  import opened Wrappers
  import opened VenueTypes
  import opened InventorySpec
  import opened MarketState
  import opened RuntimeSpec
  import opened Protocol
  import Anchor
  import Signal

  const DEMO_MARKET: MarketContext := MarketContext("slug", "cond", "yes", "no", 300, 9)

  const DEMO_SIGNAL: Signal.SignalConfig :=
    Signal.SignalConfig(0, 1, 100_000_000, 0.0, 1.0, 0.0, 0.0, 0.0, 0, 0, 0, 100_000_000, 1, 1, 99, 8, 0.0, 1.0)

  const DEMO_CONFIG: RuntimeConfig :=
    RuntimeConfig(0, 2, 2, 3, 0, 30_000_000, GateConfig(0, 0, 0, 0, 0, 0), DEMO_SIGNAL, true)

  const DEMO_MODEL: Option<real> := Some(0.9)
  const DEMO_WISH: BuyIntent := Signal.BuyIntent(Yes, "yes", 50, 50, 40)
  const DEMO_QUOTE: Quote := Quote(Some(45), Some(50), [], 1, 9_200_000)
  const LATE_TRADE: UserTrade := UserTrade("late", "yes", None, Buy, 1, 50, Mined, 15_000_001)

  ghost predicate BothBlock(s: System, a: SubmitId, b: SubmitId) {
    var p := s.core.inv.pending;
    a != b && a in p && b in p && p[a].token == p[b].token && p[a].status.BlocksEntry() && p[b].status.BlocksEntry()
  }

  // ------------------------------------------------------------------- the inputs

  /** Five messages of a rising book: two before the market is found, one inside the anchor's window. */
  function DemoTime(m: nat): int {
    if m == 1 then 9_010_000 else if m == 2 then 9_020_000 else if m == 3 then 9_100_000
    else if m == 4 then 10_000_000 else 15_000_000
  }

  function Price(m: nat): real {
    94.0 + 2.0 * m as real
  }

  function DemoSample(m: nat): Signal.BinanceSample {
    Signal.BinanceSample(DemoTime(m), m, Price(m) - 1.0, Price(m) + 1.0, 1.0, 1.0, Price(m))
  }

  /** The third message resolves the strike. */
  function DemoAnchorTick(m: nat): Step {
    AnchorTick(DemoSample(m), DemoTime(m), if m == 3 then Anchor.Resolved(98.0) else Anchor.Pending)
  }

  /** The fourth and the fifth want YES. */
  function DemoBinanceTick(m: nat): Step {
    BinanceTick(DemoSample(m), DemoTime(m), DEMO_MODEL, if m <= 3 then None else Some(DEMO_WISH))
  }

  function DemoMessage(m: nat): Option<Message> {
    Some(Message(DemoSample(m), DemoTime(m)))
  }

  const DEMO_ROTATION: Step := Rotation(DEMO_MARKET, 9_050_000)

  ghost function DemoQuoteStep(token: TokenId): Step {
    MarketData(QuoteEvent(token, Some(45), Some(50), [], 1), 9_200_000)
  }

  ghost function DemoClaim(id: SubmitId, status: SubmitStatus, at: int): PendingSubmit {
    PendingSubmit(id, "yes", Buy, 1, None, status, at, at)
  }

  // ------------------------------------------------------------------- the states

  function DemoPoint(m: nat, ofi: real): Signal.SignalPoint {
    Signal.SignalPoint(DemoTime(m), DemoTime(m), Price(m), ofi, 0.0)
  }

  /** The engine whose window holds n messages from the one after `from`. */
  function Engine(strike: real, from: nat, n: nat): Signal.SignalView
    requires n <= 3
  {
    var (p1, p2, p3) := (DemoPoint(from + 1, 0.0), DemoPoint(from + 2, 2.0), DemoPoint(from + 3, 2.0));
    var m := from + n;
    if n == 0 then Signal.SignalView(strike, [], Signal.NO_BOOK)
    else Signal.SignalView(strike, if n == 1 then [p1] else if n == 2 then [p1, p2] else [p1, p2, p3],
                           Signal.LastBook(m, Price(m) - 1.0, Price(m) + 1.0, 1.0, 1.0))
  }

  /** The engine after n messages since the strike. */
  function Anchored(n: nat): Signal.SignalView
    requires n <= 3
  {
    Engine(98.0, 2, n)
  }

  /** The anchor after m messages. */
  function AnchorSamples(m: nat): (samples: seq<Anchor.Sample>)
    ensures |samples| == m && (m > 0 ==> samples[0].ts == 9_010_000)
  {
    if m == 0 then [] else AnchorSamples(m - 1) + [Anchor.Sample(DemoTime(m), Price(m))]
  }

  function AnchorState(m: nat, pending: int): Anchor.AnchorView {
    Anchor.AnchorView(AnchorSamples(m), pending, if m == 0 then 0 else DemoTime(m))
  }

  ghost function Trusted(): System {
    BOOT.(core := START.(inv := EMPTY.(trusted := true)))
  }

  /** No market yet. */
  ghost function Unmarketed(m: nat): System
    requires m <= 2
  {
    Trusted().(core := Trusted().core.(signal := Engine(0.0, 0, m)), anchor := AnchorState(m, 0))
  }

  /** Rotated, with a target pending or not. */
  ghost function Rotated(retarget: bool, anchor: Anchor.AnchorView, signal: Signal.SignalView): System {
    System(CoreState(WithMarket(NO_MARKET, DEMO_MARKET), EMPTY.(trusted := true), map[], 0, signal),
           anchor, retarget, RotationDue(DEMO_MARKET, 9_050_000), None, multiset{}, {})
  }

  ghost function YesQuoted(): System {
    var s := Rotated(false, AnchorState(3, 0), Anchored(1));
    var view := MarketView(Some(DEMO_MARKET), map["yes" := DEMO_QUOTE], map["yes" := [SampleOf(DEMO_QUOTE)]], true);
    s.(core := s.core.(market := view))
  }

  /** Both sides quoted, after m messages. */
  ghost function Listening(m: nat, pending: map<SubmitId, PendingSubmit>, nextId: nat,
                           tasks: multiset<SubmitId>, expired: set<SubmitId>): System
    requires 3 <= m <= 5
  {
    var ring := [SampleOf(DEMO_QUOTE)];
    var view := MarketView(Some(DEMO_MARKET), map["yes" := DEMO_QUOTE, "no" := DEMO_QUOTE],
                           map["yes" := ring, "no" := ring], true);
    System(CoreState(view, InvState(true, nextId, Ledger(map[], map[]), pending), map[], 0, Anchored(m - 2)),
           AnchorState(m, 0), false, RotationDue(DEMO_MARKET, 9_050_000), None, tasks, expired)
  }

  ghost function Unclaimed(): System {
    Listening(3, map[], 0, multiset{}, {})
  }

  ghost function FirstClaim(): System {
    Listening(4, map[1 := DemoClaim(1, Pending, 10_000_000)], 1, multiset{1}, {})
  }

  ghost function Uncertain(): System {
    Listening(4, map[1 := DemoClaim(1, Unknown, 10_000_000)], 1, multiset{}, {})
  }

  ghost function Expired(): System {
    Listening(4, map[1 := DemoClaim(1, ExpiredUnknown, 10_000_000)], 1, multiset{}, {1})
  }

  ghost function SecondClaim(): System {
    Listening(5, map[1 := DemoClaim(1, ExpiredUnknown, 10_000_000), 2 := DemoClaim(2, Pending, 15_000_000)],
              2, multiset{2}, {1})
  }

  ghost function Revived(): System {
    Next(DEMO_CONFIG, SecondClaim(), UserEvent(LATE_TRADE, Some(1)))
  }

  // ------------------------------------------------------------------- the steps

  ghost predicate Linked(s: System, step: Step, s': System) {
    Enabled(DEMO_CONFIG, s, step) && s' == Next(DEMO_CONFIG, s, step)
  }

  lemma DemoPush(m: nat, pending: int)
    requires m < 5
    ensures var x := DemoSample(m + 1);
            Anchor.Push(AnchorState(m, pending), x.ts, Anchor.Book(x.bid, x.ask, x.bidQty, x.askQty))
            == AnchorState(m + 1, pending)
  {
    var b := Anchor.Book(Price(m + 1) - 1.0, Price(m + 1) + 1.0, 1.0, 1.0);
    assert Anchor.Weighted(b) == Price(m + 1);
    assert AnchorSamples(m + 1)[0].ts >= DemoTime(m + 1) - Anchor.ANCHOR_BUFFER_HORIZON_US;
  }

  /** Without a target the anchor only listens. */
  lemma DemoListen(s: System, m: nat)
    requires m < 5 && m != 2 && s.inHand.None? && s.anchor == AnchorState(m, 0)
    ensures Linked(s, DemoAnchorTick(m + 1), s.(anchor := AnchorState(m + 1, 0), inHand := DemoMessage(m + 1)))
  {
    DemoPush(m, 0);
  }

  lemma DemoOutcome()
    ensures Anchor.Outcome(AnchorSamples(3), 9, 9_100_000) == Anchor.Resolved(98.0)
  {
    DemoSelect();
    DemoMedian();
  }

  lemma DemoSecondListen(s: System)
    requires s.inHand.None? && s.anchor == AnchorState(2, 9)
    ensures Linked(s, DemoAnchorTick(3),
                   s.(core := s.core.(signal := Anchored(0)), anchor := AnchorState(3, 0), inHand := DemoMessage(3)))
  {
    DemoPush(2, 9);
    DemoOutcome();
  }

  lemma DemoSelect()
    ensures Anchor.Select(AnchorSamples(3), 9, 9_100_000) == [96.0, 98.0, 100.0]
  {
    var s := AnchorSamples(3);
    assert s == [Anchor.Sample(9_010_000, 96.0), Anchor.Sample(9_020_000, 98.0), Anchor.Sample(9_100_000, 100.0)];
    assert Anchor.WindowStart(9) == 9_000_000 && Anchor.WindowEnd(9) == 9_300_000;
    assert Anchor.Select(s[1..][1..], 9, 9_100_000) == [100.0] + Anchor.Select(s[1..][1..][1..], 9, 9_100_000);
    assert Anchor.Select(s[1..], 9, 9_100_000) == [98.0] + Anchor.Select(s[1..][1..], 9, 9_100_000);
  }

  lemma DemoMedian()
    ensures Anchor.Median([96.0, 98.0, 100.0]) == 98.0
  {
    var s := [96.0, 98.0, 100.0];
    assert s[1..] == [98.0, 100.0] && [98.0, 100.0][1..] == [100.0] && [100.0][1..] == [];
    assert Anchor.SortedCopy([100.0]) == [100.0];
    assert Anchor.SortedCopy([98.0, 100.0]) == [98.0, 100.0];
  }

  /** The engine takes the next message of the rising book. */
  lemma DemoEngine(strike: real, from: nat, n: nat)
    requires n < 3 && from + n < 5
    ensures Signal.Acceptable(DEMO_SIGNAL, Engine(strike, from, n), DemoSample(from + n + 1))
    ensures Signal.PushReceived(DEMO_SIGNAL, Engine(strike, from, n), DemoSample(from + n + 1), DemoTime(from + n + 1))
            == Engine(strike, from, n + 1)
  {
    var m := from + n + 1;
    assert Signal.PointOf(Engine(strike, from, n), DemoSample(m), DemoTime(m))
           == DemoPoint(m, if n == 0 then 0.0 else 2.0);
  }

  /** A tick outside a quoted market only feeds the engine. */
  lemma DemoHear(s: System, strike: real, from: nat, n: nat)
    requires n < 3 && from + n < 3 && s.inHand == DemoMessage(from + n + 1)
    requires s.core.signal == Engine(strike, from, n) && !RuntimeSpec.Quoted(s.core.market)
    ensures Linked(s, DemoBinanceTick(from + n + 1),
                   s.(core := s.core.(signal := Engine(strike, from, n + 1)), inHand := None))
  {
    DemoEngine(strike, from, n);
  }

  lemma DemoRotation()
    ensures Linked(Unmarketed(2), DEMO_ROTATION, Rotated(true, AnchorState(2, 0), Signal.FRESH))
    ensures Linked(Rotated(true, AnchorState(2, 0), Signal.FRESH), SetTarget,
                   Rotated(false, AnchorState(2, 9), Signal.FRESH))
  {
    var s := Next(DEMO_CONFIG, Unmarketed(2), DEMO_ROTATION);
    assert s.core.inv.pending == map[] && s.core.trackers == map[] && s.core.inv.ledger.owned == map[];
  }

  lemma DemoQuotes()
    ensures Linked(Rotated(false, AnchorState(3, 0), Anchored(1)), DemoQuoteStep("yes"), YesQuoted())
    ensures Linked(YesQuoted(), DemoQuoteStep("no"), Unclaimed())
  {
    assert [] + [SampleOf(DEMO_QUOTE)] == [SampleOf(DEMO_QUOTE)];
    assert "yes" != "no" by { assert |"yes"| != |"no"|; }
  }

  /** From the second message since the strike on the window says YES. */
  lemma DemoSide(n: nat)
    requires 2 <= n <= 3
    ensures Signal.SideOf(DEMO_SIGNAL, Anchored(n)) == Some(Yes)
  {
    var s := Anchored(n).samples;
    var cutoff := s[n - 1].ts - 100_000_000;
    assert Signal.FirstSince(s, cutoff) == 0;
    assert Signal.OfiSumSince(s, cutoff) == s[0].ofi + Signal.OfiSumSince(s[1..], cutoff);
    assert Signal.OfiSumSince(s[1..], cutoff) == s[1].ofi + Signal.OfiSumSince(s[1..][1..], cutoff);
    if n > 2 {
      assert Signal.OfiSumSince(s[1..][1..], cutoff) == s[2].ofi + Signal.OfiSumSince(s[1..][1..][1..], cutoff);
    }
  }

  lemma DemoDecision(n: nat, now: int)
    requires 2 <= n <= 3 && 9_200_000 <= now <= 15_000_000
    ensures Signal.Decide(DEMO_SIGNAL, Anchored(n), DEMO_MARKET, DEMO_QUOTE, DEMO_QUOTE, now,
                          TimeToExpiry(DEMO_MARKET, now), DEMO_MODEL) == Some(DEMO_WISH)
  {
    DemoSide(n);
    assert Signal.ProbYes(DEMO_SIGNAL, Anchored(n), TimeToExpiry(DEMO_MARKET, now), DEMO_MODEL) == Some(0.9);
    assert (0.9 * 100.0 - 50.0).Floor == 40;
  }

  /** The core between the two sections of a message. */
  ghost predicate Hears(s: System, m: nat) {
    && 4 <= m <= 5 && s.inHand == DemoMessage(m)
    && s.core == Listening(m - 1, s.core.inv.pending, s.core.inv.nextId, multiset{}, {}).core
    && forall id :: id in s.core.inv.pending ==> !s.core.inv.pending[id].status.BlocksEntry()
  }

  lemma DemoWish(s: System, m: nat)
    requires Hears(s, m)
    ensures SignalAfter(DEMO_CONFIG, s.core, DemoSample(m), DemoTime(m)) == Anchored(m - 2)
    ensures SignalIntent(DEMO_CONFIG, s.core, DemoSample(m), DemoTime(m), DEMO_MODEL) == Some(DEMO_WISH)
  {
    DemoEngine(98.0, 2, m - 3);
    DemoDecision(m - 2, DemoTime(m));
    assert RuntimeSpec.Quoted(s.core.market);
  }

  lemma DemoUngated(s: System, m: nat)
    requires Hears(s, m)
    ensures !EntryBlocked(s.core.inv, "yes")
    ensures EntryGateBlock(DEMO_CONFIG.gates, s.core, DEMO_WISH, DemoTime(m)).None?
  {
    assert OwnedAtoms(s.core.inv, "yes") == 0;
  }

  /** A tick on the quoted market claims when no claim blocks. */
  lemma DemoTick(s: System, m: nat)
    requires Hears(s, m)
    ensures Enabled(DEMO_CONFIG, s, DemoBinanceTick(m))
    ensures SignalAfter(DEMO_CONFIG, s.core, DemoSample(m), DemoTime(m)) == Anchored(m - 2)
  {
    DemoWish(s, m);
    DemoUngated(s, m);
  }

  ghost function Heard(s: System, m: nat): System {
    s.(anchor := AnchorState(m, 0), inHand := DemoMessage(m))
  }

  lemma DemoFirstClaim()
    ensures Linked(Heard(Unclaimed(), 4), DemoBinanceTick(4), FirstClaim())
  {
    DemoTick(Heard(Unclaimed(), 4), 4);
  }

  lemma DemoSecondEntry()
    ensures ClaimEntry(Expired().core.inv, "yes", Buy, 1, 15_000_000) == SecondClaim().core.inv
    ensures multiset{} + multiset{2} == SecondClaim().tasks && {1} - {2} == SecondClaim().expired
  {
  }

  lemma DemoSecondState()
    requires SignalAfter(DEMO_CONFIG, Expired().core, DemoSample(5), 15_000_000) == Anchored(3)
    ensures SecondClaim() == Next(DEMO_CONFIG, Heard(Expired(), 5), DemoBinanceTick(5))
  {
    DemoSecondEntry();
  }

  lemma DemoSecondClaim()
    ensures Linked(Heard(Expired(), 5), DemoBinanceTick(5), SecondClaim())
  {
    DemoSecondEnabled();
    DemoSecondState();
  }

  lemma DemoSecondEnabled()
    ensures Enabled(DEMO_CONFIG, Heard(Expired(), 5), DemoBinanceTick(5))
    ensures SignalAfter(DEMO_CONFIG, Expired().core, DemoSample(5), 15_000_000) == Anchored(3)
  {
    ExpiredHears();
    DemoTick(Heard(Expired(), 5), 5);
  }

  lemma ExpiredHears()
    ensures Hears(Heard(Expired(), 5), 5)
  {
  }

  lemma DemoUncertain()
    ensures Linked(FirstClaim(), HttpOutcome(1, OutcomeUnknown, 10_000_000, 0), Uncertain())
  {
  }

  lemma DemoExpiry()
    ensures Linked(Uncertain(), Maintenance(15_000_000), Expired())
  {
    assert NewlyExpired(Uncertain().core.inv, 15_000_000) == {1};
    assert ExpireStale(Uncertain().core, 15_000_000).inv.pending == Expired().core.inv.pending;
  }

  lemma DemoRevival()
    ensures Linked(SecondClaim(), UserEvent(LATE_TRADE, Some(1)), Revived())
    ensures BothBlock(Revived(), 1, 2)
  {
    assert MatchesByTokenSide(SecondClaim().core.inv, LATE_TRADE, 1);
    assert forall id :: !MatchesByOrder(SecondClaim().core.inv, LATE_TRADE, id);
  }

  // ------------------------------------------------------------------- the run

  /** Some run ends in this state. */
  ghost predicate Reachable(last: System) {
    exists states, steps :: RunTo(states, steps, last)
  }

  ghost predicate RunTo(states: seq<System>, steps: seq<Step>, last: System) {
    IsRun(DEMO_CONFIG, states, steps) && states[|steps|] == last
  }

  lemma Extend(last: System, step: Step, next: System)
    requires Reachable(last) && Linked(last, step, next)
    ensures Reachable(next)
  {
    var states, steps :| RunTo(states, steps, last);
    RunExtends(DEMO_CONFIG, states, steps, step, next);
    assert RunTo(states + [next], steps + [step], next);
  }

  /** The two sections of a message before the market is found. */
  lemma ReachUnmarketed(m: nat)
    requires m <= 2
    ensures Reachable(Unmarketed(m))
  {
    if m == 0 {
      assert RunTo([BOOT], [], BOOT);
      Extend(BOOT, Trust(true), Unmarketed(0));
    } else {
      ReachUnmarketed(m - 1);
      var s := Unmarketed(m - 1);
      var heard := s.(anchor := AnchorState(m, 0), inHand := DemoMessage(m));
      DemoListen(s, m - 1);
      Extend(s, DemoAnchorTick(m), heard);
      DemoHear(heard, 0.0, 0, m - 1);
      Extend(heard, DemoBinanceTick(m), Unmarketed(m));
    }
  }

  lemma ReachTargeted()
    ensures Reachable(Rotated(false, AnchorState(2, 9), Signal.FRESH))
  {
    ReachUnmarketed(2);
    DemoRotation();
    var rotated := Rotated(true, AnchorState(2, 0), Signal.FRESH);
    Extend(Unmarketed(2), DEMO_ROTATION, rotated);
    Extend(rotated, SetTarget, Rotated(false, AnchorState(2, 9), Signal.FRESH));
  }

  ghost function Resolved(): System {
    Rotated(false, AnchorState(3, 0), Anchored(0)).(inHand := DemoMessage(3))
  }

  lemma ReachResolved()
    ensures Reachable(Resolved())
  {
    ReachTargeted();
    var targeted := Rotated(false, AnchorState(2, 9), Signal.FRESH);
    DemoSecondListen(targeted);
    Extend(targeted, DemoAnchorTick(3), Resolved());
  }

  lemma ReachAnchored()
    ensures Reachable(Rotated(false, AnchorState(3, 0), Anchored(1)))
  {
    ReachResolved();
    var heard := Resolved();
    DemoHear(heard, 98.0, 2, 0);
    Extend(heard, DemoBinanceTick(3), Rotated(false, AnchorState(3, 0), Anchored(1)));
  }

  lemma ReachUnclaimed()
    ensures Reachable(Unclaimed())
  {
    ReachAnchored();
    DemoQuotes();
    var anchored := Rotated(false, AnchorState(3, 0), Anchored(1));
    Extend(anchored, DemoQuoteStep("yes"), YesQuoted());
    Extend(YesQuoted(), DemoQuoteStep("no"), Unclaimed());
  }

  lemma ReachFirstClaim()
    ensures Reachable(FirstClaim())
  {
    ReachUnclaimed();
    DemoListen(Unclaimed(), 3);
    Extend(Unclaimed(), DemoAnchorTick(4), Heard(Unclaimed(), 4));
    DemoFirstClaim();
    Extend(Heard(Unclaimed(), 4), DemoBinanceTick(4), FirstClaim());
  }

  lemma ReachSecondClaim()
    ensures Reachable(SecondClaim())
  {
    ReachFirstClaim();
    DemoUncertain();
    Extend(FirstClaim(), HttpOutcome(1, OutcomeUnknown, 10_000_000, 0), Uncertain());
    DemoExpiry();
    Extend(Uncertain(), Maintenance(15_000_000), Expired());
    DemoListen(Expired(), 4);
    Extend(Expired(), DemoAnchorTick(5), Heard(Expired(), 5));
    DemoSecondClaim();
    Extend(Heard(Expired(), 5), DemoBinanceTick(5), SecondClaim());
  }

  /** The naive form is false: a late trade revives an expired claim beside its successor, so two
      blocking claims stand on one token at the end of a run. */
  lemma RevivedClaimsCoexist() returns (states: seq<System>, steps: seq<Step>)
    ensures IsRun(DEMO_CONFIG, states, steps)
    ensures BothBlock(states[|steps|], 1, 2)
  {
    ReachSecondClaim();
    DemoRevival();
    Extend(SecondClaim(), UserEvent(LATE_TRADE, Some(1)), Revived());
    states, steps :| RunTo(states, steps, Revived());
  }
}
