/** The five tasks as one step system: each step is one critical section on the core or the anchor,
    and any interleaving of enabled steps is a run. */
module Protocol {
  import opened Wrappers
  import opened MachineInt
  import opened VenueTypes
  import opened InventorySpec
  import opened MarketState
  import opened RuntimeSpec
  import Anchor
  import Signal

  /** A sample its callback has given to the anchor and not yet to the engine. */
  datatype Message = Message(sample: Signal.BinanceSample, now: int)

  /** The core and the anchor under their two mutexes, whether a rotation has yet to set the anchor's
      target, when the next rotation is due, the sample between its two sections, the spawned submit
      tasks that have not reported, and, as a history variable, the claims that have ever been
      ExpiredUnknown. */
  datatype System = System(
    core: CoreState,
    anchor: Anchor.AnchorView,
    retarget: bool,
    due: int,
    inHand: Option<Message>,
    tasks: multiset<SubmitId>,
    expired: set<SubmitId>)

  /** A step carries its inputs and, where later steps depend on it, what its section decided. */
  datatype Step =
    | AnchorTick(sample: Signal.BinanceSample, now: int, result: Anchor.AnchorResult)
    | BinanceTick(sample: Signal.BinanceSample, now: int, model: Option<real>, intent: Option<BuyIntent>)
    | PrepareFailed(id: SubmitId)
    | HttpOutcome(id: SubmitId, outcome: SubmitOutcome, now: int, rtt: int)
    | UserEvent(trade: UserTrade, matched: Option<SubmitId>)
    | ExitPass(now: int, model: Option<real>)
    | Maintenance(now: int)
    | Rotation(market: MarketContext, now: int)
    | SetTarget
    | Trust(trusted: bool)
    | MarketData(event: MarketEvent, ts: int)

  const BOOT: System := System(START, Anchor.EMPTY_BUFFER, false, 0, None, multiset{}, {})

  /** A market is left this long before its end. */
  const ROTATION_LEAD_S: int := 5

  /** When a rotation at a time schedules the next one, at the earliest: a lead before the market's
      end, in whole seconds, and a second away at least. */
  function RotationDue(m: MarketContext, now: int): int {
    now + Max(m.endTs - ROTATION_LEAD_S - now / 1_000_000, 1) * 1_000_000
  }

  /** One callback gives each sample to the anchor and then to the engine. Each submit task reports
      once: a failed preparation or one HTTP outcome. One task rotates, to a market it does not yet
      have, and sets the anchor's target before it rotates again. */
  ghost predicate Enabled(cfg: RuntimeConfig, s: System, step: Step) {
    match step
    case AnchorTick(sample, now, result) => s.inHand.None? && result == AnchorAfter(s.anchor, sample, now).1
    case BinanceTick(sample, now, model, intent) =>
      s.inHand == Some(Message(sample, now)) && intent == OnBinanceSample(cfg, s.core, sample, now, model)
    case PrepareFailed(id) => id in s.tasks
    case HttpOutcome(id, _, _, _) => id in s.tasks
    case UserEvent(t, m) => MatchAllowed(s.core.inv, t, m)
    case Rotation(m, now) => !s.retarget && IsNewMarket(s.core.market, m) && Scheduled(s, m, now)
    case SetTarget => s.retarget
    case _ => true
  }

  predicate IsNewMarket(v: MarketView, m: MarketContext) {
    v.market.None? || v.market.value.conditionId != m.conditionId || v.market.value.slug != m.slug
  }

  /** The first market is taken when it is found; from then on the next one, when it is due. */
  predicate Scheduled(s: System, m: MarketContext, now: int) {
    match s.core.market.market
    case None => true
    case Some(held) => now >= s.due && m.slugTs == held.endTs
  }

  /** The anchor takes the sample and tries to resolve its target. */
  function AnchorAfter(a: Anchor.AnchorView, sample: Signal.BinanceSample, now: int)
    : (Anchor.AnchorView, Anchor.AnchorResult)
  {
    Anchor.TryResolve(Anchor.Push(a, sample.ts, Anchor.Book(sample.bid, sample.ask, sample.bidQty, sample.askQty)), now)
  }

  function SlugTsOf(v: MarketView): int {
    match v.market
    case None => 0
    case Some(m) => m.slugTs
  }

  /** A tick that claims: live, with an intent that passed. */
  predicate ClaimsBy(cfg: RuntimeConfig, step: Step) {
    step.BinanceTick? && step.intent.Some? && cfg.live
  }

  ghost function Next(cfg: RuntimeConfig, s: System, step: Step): System {
    match step
    case AnchorTick(sample, now, result) =>
      s.(anchor := AnchorAfter(s.anchor, sample, now).0,
         inHand := Some(Message(sample, now)),
         core := if !result.Resolved? then s.core
                 else s.core.(signal := Signal.SetStrike(s.core.signal, result.strike, true)))
    case BinanceTick(sample, now, model, intent) =>
      var core' := s.core.(signal := SignalAfter(cfg, s.core, sample, now));
      if ClaimsBy(cfg, step) then
        var id := NextClaimId(s.core.inv);
        s.(core := core'.(inv := ClaimEntry(s.core.inv, intent.value.token, Buy, 1, now)),
           inHand := None, tasks := s.tasks + multiset{id}, expired := s.expired - {id})
      else s.(core := core', inHand := None)
    case PrepareFailed(id) =>
      s.(core := s.core.(inv := ReleaseClaim(s.core.inv, id)), tasks := s.tasks - multiset{id})
    case HttpOutcome(id, outcome, now, rtt) =>
      s.(core := SubmitDone(s.core, id, outcome, now, rtt), tasks := s.tasks - multiset{id})
    case UserEvent(t, m) => s.(core := UserTradeStep(s.core, t, m))
    case ExitPass(now, model) => s.(core := PlanExits(cfg, s.core, now, model).0)
    case Maintenance(now) =>
      s.(core := ExpireStale(s.core, now), expired := s.expired + NewlyExpired(s.core.inv, now))
    case Rotation(m, now) => s.(core := Rotate(s.core, m), retarget := true, due := RotationDue(m, now))
    case SetTarget =>
      s.(anchor := s.anchor.(pendingSlugTs := SlugTsOf(s.core.market)), retarget := false)
    case Trust(trusted) => s.(core := s.core.(inv := s.core.inv.(trusted := trusted)))
    case MarketData(e, ts) => s.(core := s.core.(market := ApplyEvent(s.core.market, e, ts)))
  }

  ghost function NewlyExpired(inv: InvState, now: int): set<SubmitId> {
    set id | id in inv.pending && StaleUnknown(inv.pending[id], SatSub(now, UNKNOWN_SUBMIT_EXPIRE_US))
  }

  ghost predicate IsRun(cfg: RuntimeConfig, states: seq<System>, steps: seq<Step>) {
    && |states| == |steps| + 1
    && states[0] == BOOT
    && forall i :: 0 <= i < |steps| ==> IsStep(cfg, states, steps, i)
  }

  ghost predicate IsStep(cfg: RuntimeConfig, states: seq<System>, steps: seq<Step>, i: nat)
    requires |states| == |steps| + 1 && i < |steps|
  {
    Enabled(cfg, states[i], steps[i]) && states[i + 1] == Next(cfg, states[i], steps[i])
  }

  /** An enabled tick is exactly the core's critical section. */
  lemma TickIsOneSection(cfg: RuntimeConfig, s: System, step: Step)
    requires step.BinanceTick? && Enabled(cfg, s, step)
    ensures Next(cfg, s, step).core == Tick(cfg, s.core, step.sample, step.now, step.model)
    ensures ClaimsBy(cfg, step) <==> Claims(cfg, s.core, step.sample, step.now, step.model)
  {
  }

  /** A step that is neither a trade nor a rotation leaves the ledger alone. */
  lemma LedgerUntouched(cfg: RuntimeConfig, s: System, step: Step)
    requires !step.UserEvent? && !step.Rotation?
    ensures Next(cfg, s, step).core.inv.ledger == s.core.inv.ledger
  {
    if step.HttpOutcome? {
      OutcomeKeepsLedger(s.core, step.id, step.outcome, step.now, step.rtt);
    } else if step.ExitPass? {
      PassKeepsInventory(cfg, s.core, step.now, step.model);
    }
  }

  lemma OutcomeKeepsLedger(c: CoreState, id: SubmitId, outcome: SubmitOutcome, now: int, rtt: int)
    ensures SubmitDone(c, id, outcome, now, rtt).inv.ledger == c.inv.ledger
  {
  }

  lemma PassKeepsInventory(cfg: RuntimeConfig, c: CoreState, now: int, model: Option<real>)
    ensures PlanExits(cfg, c, now, model).0.inv == c.inv
  {
  }

  /** A rotation can come exactly when the anchor's target has caught up with the last one, and then to any
      market at first, and later to the one that starts where the held one ends, under another slug or
      condition, once it is due. */
  lemma RotationExactlyWhen(cfg: RuntimeConfig, s: System, m: MarketContext, now: int)
    ensures Enabled(cfg, s, Rotation(m, now))
            <==> !s.retarget
                 && (s.core.market.market.Some? ==>
                       var held := s.core.market.market.value;
                       && (m.slug != held.slug || m.conditionId != held.conditionId)
                       && m.slugTs == held.endTs && s.due <= now)
  {
  }

  /** One more enabled step makes a longer run. */
  lemma RunExtends(cfg: RuntimeConfig, states: seq<System>, steps: seq<Step>, step: Step, next: System)
    requires IsRun(cfg, states, steps)
    requires Enabled(cfg, states[|steps|], step) && next == Next(cfg, states[|steps|], step)
    ensures IsRun(cfg, states + [next], steps + [step])
  {
    forall i | 0 <= i < |steps| + 1
      ensures IsStep(cfg, states + [next], steps + [step], i)
    {
      assert i < |steps| ==> IsStep(cfg, states, steps, i);
    }
  }
}
