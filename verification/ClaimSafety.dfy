/** Claim exclusivity over every interleaving of the five tasks. */
module ClaimSafety {
  import opened Wrappers
  import opened MachineInt
  import opened VenueTypes
  import opened InventorySpec
  import opened MarketState
  import opened RuntimeSpec
  import opened Protocol
  import Signal

  // ------------------------------------------------------------------ the invariant

  /** The part of a system state that the claim protocol works on. */
  datatype ClaimView = ClaimView(
    pending: map<SubmitId, PendingSubmit>,
    nextId: nat,
    tasks: multiset<SubmitId>,
    expired: set<SubmitId>)

  ghost function ClaimsOf(s: System): ClaimView {
    ClaimView(s.core.inv.pending, s.core.inv.nextId, s.tasks, s.expired)
  }

  ghost predicate Unexpired(v: ClaimView, id: SubmitId) {
    id in v.pending && id !in v.expired
  }

  ghost predicate WellKeyed(v: ClaimView) {
    && v.nextId <= U64_MAX
    && forall id :: id in v.pending ==> ClaimKeyed(v.pending[id], id, v.nextId)
  }

  ghost predicate ClaimKeyed(p: PendingSubmit, id: SubmitId, nextId: nat) {
    p.id == id <= nextId && p.side.Buy? && (p.status.Pending? ==> p.createdTs == p.updatedTs)
  }

  /** A claim that never expired still blocks. */
  ghost predicate UnexpiredBlocks(v: ClaimView) {
    forall id :: Unexpired(v, id) ==> v.pending[id].status.BlocksEntry()
  }

  /** Per token at most one claim has never expired. */
  ghost predicate Exclusive(v: ClaimView) {
    forall a, b :: Unexpired(v, a) && Unexpired(v, b) && v.pending[a].token == v.pending[b].token ==> a == b
  }

  /** A claim still marked Pending has a submit task that has not reported. */
  ghost predicate PendingHasTask(v: ClaimView) {
    forall id :: id in v.pending && v.pending[id].status.Pending? ==> id in v.tasks
  }

  /** Until the id counter is exhausted: one task per claim, and never one for a claim whose
      outcome is already uncertain. */
  ghost predicate TasksOpen(v: ClaimView) {
    v.nextId < U64_MAX ==>
      && (forall id :: id in v.expired ==> id <= v.nextId)
      && (forall id :: id in v.tasks ==> TaskOpen(v, id))
  }

  ghost predicate TaskOpen(v: ClaimView, id: SubmitId) {
    && v.tasks[id] <= 1 && id <= v.nextId && id !in v.expired
    && (id in v.pending ==> v.pending[id].status.Pending? || v.pending[id].status.Accepted?)
  }

  ghost predicate Safe(v: ClaimView) {
    WellKeyed(v) && UnexpiredBlocks(v) && Exclusive(v) && PendingHasTask(v) && TasksOpen(v)
  }

  // ----------------------------------------------------- what steps do to the claims

  ghost function Claimed(v: ClaimView, token: TokenId, now: int): ClaimView {
    var id := if v.nextId + 1 > U64_MAX then U64_MAX else v.nextId + 1;
    ClaimView(v.pending[id := PendingSubmit(id, token, Buy, 1, None, Pending, now, now)],
              id, v.tasks + multiset{id}, v.expired - {id})
  }

  lemma ClaimSafe(v: ClaimView, token: TokenId, now: int)
    requires Safe(v)
    requires forall id :: id in v.pending && v.pending[id].token == token ==> !v.pending[id].status.BlocksEntry()
    ensures Safe(Claimed(v, token, now))
  {
    var v' := Claimed(v, token, now);
    forall a | Unexpired(v', a) && a != v'.nextId
      ensures Unexpired(v, a) && v.pending[a].token != token
    {
    }
    forall id | id in v'.tasks && v'.nextId < U64_MAX
      ensures TaskOpen(v', id)
    {
      assert id in v.tasks ==> TaskOpen(v, id);
    }
  }

  /** The claim with this id is removed, and its task, if it was the one reporting, is done. */
  lemma RemoveSafe(v: ClaimView, id: SubmitId, tasks: multiset<SubmitId>)
    requires Safe(v) && (tasks == v.tasks || tasks == v.tasks - multiset{id})
    ensures Safe(v.(pending := v.pending - {id}, tasks := tasks))
  {
    var v' := v.(pending := v.pending - {id}, tasks := tasks);
    ShrinkExclusive(v, v');
    forall x | x in v'.tasks && v'.nextId < U64_MAX
      ensures TaskOpen(v', x)
    {
      assert TaskOpen(v, x);
    }
  }

  /** Claims that keep their token, or disappear, stay exclusive. */
  lemma ShrinkExclusive(v: ClaimView, v': ClaimView)
    requires Exclusive(v) && v.expired <= v'.expired
    requires forall id :: id in v'.pending ==> id in v.pending && v'.pending[id].token == v.pending[id].token
    ensures Exclusive(v')
  {
    assert forall id :: Unexpired(v', id) ==> Unexpired(v, id);
  }

  /** A non-rejecting outcome marks its claim and closes its task. */
  lemma OutcomeSafe(v: ClaimView, id: SubmitId, p: PendingSubmit)
    requires Safe(v) && id in v.tasks && id in v.pending
    requires p.id == id && p.token == v.pending[id].token && p.side.Buy?
    requires p.status.Accepted? || p.status.Unknown?
    ensures Safe(v.(pending := v.pending[id := p], tasks := v.tasks - multiset{id}))
  {
    TaskReported(v, id, v.pending[id := p]);
    OutcomeMarked(v, id, p);
    ShrinkExclusive(v, v.(pending := v.pending[id := p], tasks := v.tasks - multiset{id}));
  }

  lemma OutcomeMarked(v: ClaimView, id: SubmitId, p: PendingSubmit)
    requires WellKeyed(v) && UnexpiredBlocks(v) && PendingHasTask(v) && id in v.pending
    requires p.id == id && p.side.Buy? && (p.status.Accepted? || p.status.Unknown?)
    ensures var v' := v.(pending := v.pending[id := p], tasks := v.tasks - multiset{id});
            WellKeyed(v') && UnexpiredBlocks(v') && PendingHasTask(v')
  {
  }

  /** A task that reports closes, whatever becomes of its claim. */
  lemma TaskReported(v: ClaimView, id: SubmitId, pending: map<SubmitId, PendingSubmit>)
    requires TasksOpen(v)
    requires forall x :: x in pending && x != id ==> x in v.pending && pending[x] == v.pending[x]
    ensures TasksOpen(v.(pending := pending, tasks := v.tasks - multiset{id}))
  {
    var v' := v.(pending := pending, tasks := v.tasks - multiset{id});
    forall x | x in v'.tasks && v'.nextId < U64_MAX
      ensures TaskOpen(v', x)
    {
      assert TaskOpen(v, x);
    }
  }

  /** A task whose claim is already gone reports to nobody. */
  lemma OrphanSafe(v: ClaimView, id: SubmitId)
    requires Safe(v) && id !in v.pending
    ensures Safe(v.(tasks := v.tasks - multiset{id}))
  {
    var v' := v.(tasks := v.tasks - multiset{id});
    ShrinkExclusive(v, v');
    forall x | x in v'.tasks && v'.nextId < U64_MAX
      ensures TaskOpen(v', x)
    {
      assert TaskOpen(v, x);
    }
  }

  lemma MatchSafe(v: ClaimView, id: SubmitId, p: PendingSubmit)
    requires Safe(v) && id in v.pending
    requires p.id == id && p.token == v.pending[id].token && p.side.Buy? && p.status.Accepted?
    ensures Safe(v.(pending := v.pending[id := p]))
  {
    var v' := v.(pending := v.pending[id := p]);
    ShrinkExclusive(v, v');
    forall x | x in v'.tasks && v'.nextId < U64_MAX
      ensures TaskOpen(v', x)
    {
      assert TaskOpen(v, x);
    }
  }

  /** A sweep may drop claims and retire Unknown ones, recording them as expired. */
  lemma SweepSafe(v: ClaimView, v': ClaimView)
    requires Safe(v) && v'.nextId == v.nextId && v'.tasks == v.tasks
    requires v.expired <= v'.expired
    requires forall id :: id in v'.expired && id !in v.expired ==> id in v.pending && v.pending[id].status.Unknown?
    requires forall id :: id in v'.pending ==> id in v.pending && Retired(v.pending[id], v'.pending[id], id in v'.expired)
    ensures Safe(v')
  {
    ShrinkExclusive(v, v');
    forall x | x in v'.tasks && v'.nextId < U64_MAX
      ensures TaskOpen(v', x)
    {
      assert TaskOpen(v, x);
    }
  }

  ghost predicate Retired(p: PendingSubmit, p': PendingSubmit, expired: bool) {
    p' == p || (p.status.Unknown? && expired && p' == p.(status := ExpiredUnknown))
  }

  /** A live tick claims exactly on a trusted feed, with both sides of an active market quoted, an
      intent of the engine, less than a sellable quantum owned, no blocking claim on its token, and no
      gate in the way. */
  lemma ClaimGuard(cfg: RuntimeConfig, c: CoreState, sample: Signal.BinanceSample, now: int, model: Option<real>)
    ensures Claims(cfg, c, sample, now, model)
            <==> && cfg.live && c.inv.trusted && c.market.active
                 && QuoteForSide(c.market, Yes).Some? && QuoteForSide(c.market, No).Some?
                 && SignalIntent(cfg, c, sample, now, model).Some?
                 && var intent := SignalIntent(cfg, c, sample, now, model).value;
                    && OwnedAtoms(c.inv, intent.token) < SELL_QUANTUM
                    && (forall id :: id in c.inv.pending && c.inv.pending[id].token == intent.token
                                     ==> !c.inv.pending[id].status.BlocksEntry())
                    && EntryGateBlock(cfg.gates, c, intent, now).None?
    ensures Claims(cfg, c, sample, now, model)
            ==> OnBinanceSample(cfg, c, sample, now, model) == SignalIntent(cfg, c, sample, now, model)
  {
  }

  /** What the maintenance sweep does to each claim. */
  lemma SweptClaims(inv: InvState, now: int, c: CoreState)
    requires c.inv == inv
    ensures ExpireStale(c, now).inv.nextId == inv.nextId
    ensures forall id :: id in ExpireStale(c, now).inv.pending
                         <==> (id in inv.pending && !StalePending(inv.pending[id], SatSub(now, PENDING_SUBMIT_EXPIRE_US)))
    ensures forall id :: id in ExpireStale(c, now).inv.pending ==>
              ExpireStale(c, now).inv.pending[id]
              == if id in NewlyExpired(inv, now) then inv.pending[id].(status := ExpiredUnknown) else inv.pending[id]
    ensures forall id :: id in NewlyExpired(inv, now) ==> id in inv.pending && inv.pending[id].status.Unknown?
  {
  }

  lemma MaintenanceSafe(cfg: RuntimeConfig, s: System, now: int)
    requires Safe(ClaimsOf(s))
    ensures Safe(ClaimsOf(Next(cfg, s, Maintenance(now))))
  {
    SweptClaims(s.core.inv, now, s.core);
    SweepSafe(ClaimsOf(s), ClaimsOf(Next(cfg, s, Maintenance(now))));
  }

  lemma HttpOutcomeSafe(cfg: RuntimeConfig, s: System, step: Step)
    requires Safe(ClaimsOf(s)) && Enabled(cfg, s, step) && step.HttpOutcome?
    ensures Safe(ClaimsOf(Next(cfg, s, step)))
  {
    var v, v' := ClaimsOf(s), ClaimsOf(Next(cfg, s, step));
    var id := step.id;
    if step.outcome.OrderRejected? {
      RemoveSafe(v, id, v.tasks - multiset{id});
    } else if id in v.pending {
      OutcomeSafe(v, id, v'.pending[id]);
    } else {
      OrphanSafe(v, id);
    }
  }

  /** What a tick does to the claims: one new claim on an unblocked token, or nothing. */
  lemma TickClaims(cfg: RuntimeConfig, s: System, step: Step)
    requires step.BinanceTick?
    ensures ClaimsOf(Next(cfg, s, step))
            == if ClaimsBy(cfg, step) then Claimed(ClaimsOf(s), step.intent.value.token, step.now) else ClaimsOf(s)
  {
  }

  lemma ClaimIsUnblocked(cfg: RuntimeConfig, s: System, step: Step)
    requires ClaimsBy(cfg, step) && Enabled(cfg, s, step)
    ensures forall id :: id in s.core.inv.pending && s.core.inv.pending[id].token == step.intent.value.token
                         ==> !s.core.inv.pending[id].status.BlocksEntry()
  {
    ClaimGuard(cfg, s.core, step.sample, step.now, step.model);
  }

  lemma TickSafe(cfg: RuntimeConfig, s: System, step: Step)
    requires Safe(ClaimsOf(s)) && Enabled(cfg, s, step) && step.BinanceTick?
    ensures Safe(ClaimsOf(Next(cfg, s, step)))
  {
    TickClaims(cfg, s, step);
    if ClaimsBy(cfg, step) {
      ClaimIsUnblocked(cfg, s, step);
      ClaimSafe(ClaimsOf(s), step.intent.value.token, step.now);
    }
  }

  lemma TradeSafe(cfg: RuntimeConfig, s: System, step: Step)
    requires Safe(ClaimsOf(s)) && Enabled(cfg, s, step) && step.UserEvent?
    ensures Safe(ClaimsOf(Next(cfg, s, step)))
  {
    var v, m := ClaimsOf(s), step.matched;
    if m.Some? && step.trade.status.Terminal() {
      RemoveSafe(v, m.value, v.tasks);
    } else if m.Some? {
      MatchSafe(v, m.value, TouchMatched(v.pending[m.value], step.trade));
    }
  }

  /** Steps that never touch a claim. */
  predicate LeavesClaims(step: Step) {
    step.AnchorTick? || step.ExitPass? || step.SetTarget? || step.Trust? || step.MarketData?
  }

  lemma ClaimsUntouched(cfg: RuntimeConfig, s: System, step: Step)
    requires LeavesClaims(step)
    ensures ClaimsOf(Next(cfg, s, step)) == ClaimsOf(s)
  {
  }

  /** Every enabled step keeps the invariant. */
  lemma StepSafe(cfg: RuntimeConfig, s: System, step: Step)
    requires Safe(ClaimsOf(s)) && Enabled(cfg, s, step)
    ensures Safe(ClaimsOf(Next(cfg, s, step)))
  {
    if LeavesClaims(step) {
      ClaimsUntouched(cfg, s, step);
    } else if step.BinanceTick? {
      TickSafe(cfg, s, step);
    } else if step.PrepareFailed? {
      RemoveSafe(ClaimsOf(s), step.id, s.tasks - multiset{step.id});
    } else if step.HttpOutcome? {
      HttpOutcomeSafe(cfg, s, step);
    } else if step.UserEvent? {
      TradeSafe(cfg, s, step);
    } else if step.Maintenance? {
      MaintenanceSafe(cfg, s, step.now);
    } else {
      SweepSafe(ClaimsOf(s), ClaimsOf(Next(cfg, s, step)));
    }
  }

  /** Exclusivity in every state of every run. */
  lemma {:induction false} EveryStateSafe(cfg: RuntimeConfig, states: seq<System>, steps: seq<Step>, k: nat)
    requires IsRun(cfg, states, steps) && k < |states|
    ensures Safe(ClaimsOf(states[k]))
  {
    if k > 0 {
      EveryStateSafe(cfg, states, steps, k - 1);
      assert IsStep(cfg, states, steps, k - 1);
      StepSafe(cfg, states[k - 1], steps[k - 1]);
    }
  }

  /** Two blocking claims on one token mean that one of them had expired before. */
  lemma DuplicateBlockingNeedsExpiry(cfg: RuntimeConfig, states: seq<System>, steps: seq<Step>, k: nat,
                                     a: SubmitId, b: SubmitId)
    requires IsRun(cfg, states, steps) && k < |states| && a != b
    requires a in states[k].core.inv.pending && b in states[k].core.inv.pending
    requires states[k].core.inv.pending[a].token == states[k].core.inv.pending[b].token
    ensures a in states[k].expired || b in states[k].expired
  {
    EveryStateSafe(cfg, states, steps, k);
    assert !(Unexpired(ClaimsOf(states[k]), a) && Unexpired(ClaimsOf(states[k]), b));
  }

  // ------------------------------------------------------------- how a claim is lost

  /** A claim on this token that has never expired. */
  ghost predicate Held(s: System, id: SubmitId, token: TokenId) {
    Unexpired(ClaimsOf(s), id) && s.core.inv.pending[id].token == token
  }

  /** The only ways a held claim stops being held. */
  ghost predicate LossCause(s: System, step: Step, id: SubmitId, token: TokenId)
    requires Held(s, id, token)
  {
    var p := s.core.inv.pending[id];
    match step
    case PrepareFailed(x) => x == id
    case HttpOutcome(x, outcome, _, _) => x == id && outcome.OrderRejected?
    case UserEvent(t, m) => m == Some(id) && t.status.Terminal()
    case Maintenance(now) =>
      || (p.status.Pending? && p.createdTs <= SatSub(now, PENDING_SUBMIT_EXPIRE_US))
      || (p.status.Unknown? && p.updatedTs <= SatSub(now, UNKNOWN_SUBMIT_EXPIRE_US))
    case Rotation(m, _) => token !in {m.yesToken, m.noToken}
    case BinanceTick(_, _, _, _) => s.core.inv.nextId >= U64_MAX
    case _ => false
  }

  lemma LostByTick(cfg: RuntimeConfig, s: System, step: Step, id: SubmitId, token: TokenId)
    requires Safe(ClaimsOf(s)) && Held(s, id, token) && step.BinanceTick?
    ensures !Held(Next(cfg, s, step), id, token) ==> s.core.inv.nextId >= U64_MAX
  {
    TickClaims(cfg, s, step);
  }

  lemma LostBySweep(cfg: RuntimeConfig, s: System, now: int, id: SubmitId, token: TokenId)
    requires Safe(ClaimsOf(s)) && Held(s, id, token)
    ensures !Held(Next(cfg, s, Maintenance(now)), id, token) <==> LossCause(s, Maintenance(now), id, token)
  {
    SweptClaims(s.core.inv, now, s.core);
    var s' := Next(cfg, s, Maintenance(now));
    assert s'.core == ExpireStale(s.core, now);
    assert id in s'.expired <==> StaleUnknown(s.core.inv.pending[id], SatSub(now, UNKNOWN_SUBMIT_EXPIRE_US));
  }

  lemma LostByOutcome(cfg: RuntimeConfig, s: System, step: Step, id: SubmitId, token: TokenId)
    requires Held(s, id, token) && step.HttpOutcome?
    ensures !Held(Next(cfg, s, step), id, token) <==> LossCause(s, step, id, token)
  {
    if id in Next(cfg, s, step).core.inv.pending {
      OutcomeMark(s.core.inv, step.id, step.outcome, step.now, id);
    }
  }

  lemma LostByTrade(cfg: RuntimeConfig, s: System, step: Step, id: SubmitId, token: TokenId)
    requires Enabled(cfg, s, step) && Held(s, id, token) && step.UserEvent?
    ensures !Held(Next(cfg, s, step), id, token) <==> LossCause(s, step, id, token)
  {
    if id in Next(cfg, s, step).core.inv.pending {
      TradeMark(s.core.inv, step.trade, step.matched, id);
    }
  }

  lemma LostByRelease(cfg: RuntimeConfig, s: System, step: Step, id: SubmitId, token: TokenId)
    requires Held(s, id, token) && (step.PrepareFailed? || step.Rotation?)
    ensures !Held(Next(cfg, s, step), id, token) <==> LossCause(s, step, id, token)
  {
  }

  /** Exactly these steps lose a claim, and the id counter overflowing is the only other way. */
  lemma LossExactlyByCause(cfg: RuntimeConfig, s: System, step: Step, id: SubmitId, token: TokenId)
    requires Safe(ClaimsOf(s)) && Enabled(cfg, s, step) && Held(s, id, token)
    ensures !Held(Next(cfg, s, step), id, token) ==> LossCause(s, step, id, token)
    ensures LossCause(s, step, id, token) && !step.BinanceTick? ==> !Held(Next(cfg, s, step), id, token)
  {
    if LeavesClaims(step) {
      ClaimsUntouched(cfg, s, step);
    } else if step.BinanceTick? {
      LostByTick(cfg, s, step, id, token);
    } else if step.Maintenance? {
      LostBySweep(cfg, s, step.now, id, token);
    } else if step.HttpOutcome? {
      LostByOutcome(cfg, s, step, id, token);
    } else if step.UserEvent? {
      LostByTrade(cfg, s, step, id, token);
    } else {
      LostByRelease(cfg, s, step, id, token);
    }
  }

  /** A claim is held right after it is made. */
  lemma ClaimIsHeld(cfg: RuntimeConfig, states: seq<System>, steps: seq<Step>, i: nat, token: TokenId)
    requires IsRun(cfg, states, steps) && i < |steps| && ClaimsAt(cfg, states, steps, i, token)
    ensures Held(states[i + 1], NextClaimId(states[i].core.inv), token)
  {
    assert IsStep(cfg, states, steps, i);
    TickClaims(cfg, states[i], steps[i]);
  }

  /** No claim on a token is held at the moment another is made. */
  lemma NothingHeldAtClaim(cfg: RuntimeConfig, states: seq<System>, steps: seq<Step>, j: nat,
                           id: SubmitId, token: TokenId)
    requires IsRun(cfg, states, steps) && j < |steps| && ClaimsAt(cfg, states, steps, j, token)
    ensures !Held(states[j], id, token)
  {
    EveryStateSafe(cfg, states, steps, j);
    assert IsStep(cfg, states, steps, j);
    ClaimIsUnblocked(cfg, states[j], steps[j]);
  }

  /** A claim held at m and not at n was lost at a step between, for a listed cause. */
  lemma LossBetween(cfg: RuntimeConfig, states: seq<System>, steps: seq<Step>, m: nat, n: nat,
                    id: SubmitId, token: TokenId)
    returns (k: nat)
    requires IsRun(cfg, states, steps) && m <= n < |states|
    requires Held(states[m], id, token) && !Held(states[n], id, token)
    ensures m <= k < n && Held(states[k], id, token) && !Held(states[k + 1], id, token)
    ensures LossCause(states[k], steps[k], id, token)
  {
    k := m;
    while Held(states[k + 1], id, token)
      invariant m <= k < n && Held(states[k], id, token)
      decreases n - k
    {
      k := k + 1;
    }
    EveryStateSafe(cfg, states, steps, k);
    assert IsStep(cfg, states, steps, k);
    LossExactlyByCause(cfg, states[k], steps[k], id, token);
  }

  /** Two claims on one token: somewhere between them the first was lost for a listed cause. */
  lemma ClaimsAreSeparated(cfg: RuntimeConfig, states: seq<System>, steps: seq<Step>, i: nat, j: nat, token: TokenId)
    returns (k: nat)
    requires IsRun(cfg, states, steps) && i < j < |steps|
    requires ClaimsAt(cfg, states, steps, i, token) && ClaimsAt(cfg, states, steps, j, token)
    ensures i < k < j
    ensures var id := NextClaimId(states[i].core.inv);
            && Held(states[k], id, token) && !Held(states[k + 1], id, token)
            && LossCause(states[k], steps[k], id, token)
  {
    var id := NextClaimId(states[i].core.inv);
    ClaimIsHeld(cfg, states, steps, i, token);
    NothingHeldAtClaim(cfg, states, steps, j, id, token);
    k := LossBetween(cfg, states, steps, i + 1, j, id, token);
  }

  ghost predicate ClaimsAt(cfg: RuntimeConfig, states: seq<System>, steps: seq<Step>, i: nat, token: TokenId)
    requires i < |steps| < |states|
  {
    ClaimsBy(cfg, steps[i]) && steps[i].intent.value.token == token
  }

  // ------------------------------------------------------------ expiries come late

  /** Steps that write a claim's status and time: the claim itself, a non-rejecting outcome, and a
      non-terminal trade matched to it. */
  ghost predicate Touches(cfg: RuntimeConfig, s: System, step: Step, id: SubmitId) {
    match step
    case BinanceTick(_, _, _, _) => ClaimsBy(cfg, step) && NextClaimId(s.core.inv) == id
    case HttpOutcome(x, outcome, _, _) => x == id && !outcome.OrderRejected?
    case UserEvent(t, m) => m == Some(id) && !t.status.Terminal()
    case _ => false
  }

  ghost function TouchTime(step: Step): int
    requires step.BinanceTick? || step.HttpOutcome? || step.UserEvent?
  {
    match step
    case BinanceTick(_, now, _, _) => now
    case HttpOutcome(_, _, now, _) => now
    case UserEvent(t, _) => t.ts
  }

  ghost function TouchStatus(step: Step): SubmitStatus
    requires step.BinanceTick? || step.HttpOutcome? || step.UserEvent?
  {
    match step
    case BinanceTick(_, _, _, _) => Pending
    case HttpOutcome(_, outcome, _, _) => if outcome.OutcomeUnknown? then Unknown else Accepted
    case UserEvent(_, _) => Accepted
  }

  /** Step m was the last to touch the claim before state k, and its mark is still there. */
  ghost predicate LastTouchedAt(cfg: RuntimeConfig, states: seq<System>, steps: seq<Step>, m: nat, k: nat, id: SubmitId)
    requires m < k <= |steps| < |states|
  {
    && Touches(cfg, states[m], steps[m], id)
    && (forall j :: m < j < k ==> !Touches(cfg, states[j], steps[j], id))
    && id in states[k].core.inv.pending
    && states[k].core.inv.pending[id].updatedTs == TouchTime(steps[m])
    && (states[k].core.inv.pending[id].status == TouchStatus(steps[m])
        || (states[k].core.inv.pending[id].status.ExpiredUnknown? && TouchStatus(steps[m]).Unknown?))
  }

  /** The claim p became p' without being touched. */
  ghost predicate SameMark(p: PendingSubmit, p': PendingSubmit) {
    p'.updatedTs == p.updatedTs && (p'.status == p.status || (p'.status.ExpiredUnknown? && p.status.Unknown?))
  }

  /** A claim present after a step was touched by it, or was there before with the same mark. */
  ghost predicate Marked(cfg: RuntimeConfig, s: System, step: Step, id: SubmitId, p': PendingSubmit) {
    if Touches(cfg, s, step, id) then p'.updatedTs == TouchTime(step) && p'.status == TouchStatus(step)
    else id in s.core.inv.pending && SameMark(s.core.inv.pending[id], p')
  }

  lemma TickMark(cfg: RuntimeConfig, s: System, step: Step, id: SubmitId)
    requires step.BinanceTick? && id in Next(cfg, s, step).core.inv.pending
    ensures Marked(cfg, s, step, id, Next(cfg, s, step).core.inv.pending[id])
  {
    TickClaims(cfg, s, step);
    assert ClaimsOf(Next(cfg, s, step)).pending == Next(cfg, s, step).core.inv.pending;
  }

  lemma StepMark(cfg: RuntimeConfig, s: System, step: Step, id: SubmitId)
    requires Enabled(cfg, s, step) && id in Next(cfg, s, step).core.inv.pending
    ensures Marked(cfg, s, step, id, Next(cfg, s, step).core.inv.pending[id])
  {
    if LeavesClaims(step) {
      ClaimsUntouched(cfg, s, step);
      assert ClaimsOf(Next(cfg, s, step)).pending == ClaimsOf(s).pending;
    } else if step.BinanceTick? {
      TickMark(cfg, s, step, id);
    } else {
      OtherMark(cfg, s, step, id);
    }
  }

  lemma OtherMark(cfg: RuntimeConfig, s: System, step: Step, id: SubmitId)
    requires Enabled(cfg, s, step) && !LeavesClaims(step) && !step.BinanceTick?
    requires id in Next(cfg, s, step).core.inv.pending
    ensures Marked(cfg, s, step, id, Next(cfg, s, step).core.inv.pending[id])
  {
    match step
    case Maintenance(now) => SweptClaims(s.core.inv, now, s.core);
    case HttpOutcome(x, outcome, now, rtt) => OutcomeMark(s.core.inv, x, outcome, now, id);
    case UserEvent(t, m) => TradeMark(s.core.inv, t, m, id);
    case _ =>
  }

  lemma OutcomeMark(inv: InvState, x: SubmitId, outcome: SubmitOutcome, now: int, id: SubmitId)
    requires id in RecordOutcome(inv, x, outcome, now).pending
    ensures id in inv.pending
    ensures var p' := RecordOutcome(inv, x, outcome, now).pending[id];
            if x == id && !outcome.OrderRejected?
            then p'.updatedTs == now && p'.status == (if outcome.OutcomeUnknown? then Unknown else Accepted)
            else p' == inv.pending[id]
    ensures RecordOutcome(inv, x, outcome, now).pending[id].token == inv.pending[id].token
  {
  }

  lemma TradeMark(inv: InvState, t: UserTrade, m: Option<SubmitId>, id: SubmitId)
    requires MatchAllowed(inv, t, m) && id in ApplyUserTrade(inv, t, m).pending
    ensures id in inv.pending
    ensures var p' := ApplyUserTrade(inv, t, m).pending[id];
            if m == Some(id) && !t.status.Terminal() then p'.updatedTs == t.ts && p'.status == Accepted
            else p' == inv.pending[id]
    ensures ApplyUserTrade(inv, t, m).pending[id].token == inv.pending[id].token
  {
  }

  /** Every claim in every reachable state has a last touch that explains its status and time. */
  lemma {:induction false} LastTouch(cfg: RuntimeConfig, states: seq<System>, steps: seq<Step>, k: nat, id: SubmitId)
    returns (m: nat)
    requires IsRun(cfg, states, steps) && k < |states| && id in states[k].core.inv.pending
    ensures m < k && LastTouchedAt(cfg, states, steps, m, k, id)
  {
    assert k > 0;
    assert IsStep(cfg, states, steps, k - 1);
    StepMark(cfg, states[k - 1], steps[k - 1], id);
    if Touches(cfg, states[k - 1], steps[k - 1], id) {
      m := k - 1;
    } else {
      m := LastTouch(cfg, states, steps, k - 1, id);
    }
  }

  /** A claim expires only 5 s or more after its HTTP outcome came back Unknown, with no trade
      matched to it since. */
  lemma UnknownExpiryIsLate(cfg: RuntimeConfig, states: seq<System>, steps: seq<Step>, k: nat, id: SubmitId)
    returns (m: nat)
    requires IsRun(cfg, states, steps) && k < |steps| && steps[k].Maintenance?
    requires Unexpired(ClaimsOf(states[k]), id) && id in states[k + 1].expired
    ensures m < k && steps[m].HttpOutcome? && steps[m].id == id && steps[m].outcome.OutcomeUnknown?
    ensures steps[m].now <= SatSub(steps[k].now, 5_000_000)
    ensures forall j :: m < j < k ==> !Touches(cfg, states[j], steps[j], id)
  {
    assert IsStep(cfg, states, steps, k);
    m := LastTouch(cfg, states, steps, k, id);
  }

  /** A claim is swept away only 60 s or more after it was made, with no outcome and no matched
      trade in between. */
  lemma PendingExpiryIsLate(cfg: RuntimeConfig, states: seq<System>, steps: seq<Step>, k: nat, id: SubmitId)
    returns (m: nat)
    requires IsRun(cfg, states, steps) && k < |steps| && steps[k].Maintenance?
    requires id in states[k].core.inv.pending && id !in states[k + 1].core.inv.pending
    ensures m < k && steps[m].BinanceTick? && Touches(cfg, states[m], steps[m], id)
    ensures steps[m].now <= SatSub(steps[k].now, 60_000_000)
    ensures forall j :: m < j < k ==> !Touches(cfg, states[j], steps[j], id)
  {
    assert IsStep(cfg, states, steps, k);
    EveryStateSafe(cfg, states, steps, k);
    m := LastTouch(cfg, states, steps, k, id);
  }

  /** Until the id counter is exhausted, an expired claim blocks again only when a trade event
      matches it. */
  lemma RevivalOnlyByTrade(cfg: RuntimeConfig, states: seq<System>, steps: seq<Step>, k: nat, id: SubmitId)
    requires IsRun(cfg, states, steps) && k < |steps|
    requires states[k].core.inv.nextId < U64_MAX
    requires id in states[k].core.inv.pending && states[k].core.inv.pending[id].status.ExpiredUnknown?
    requires id in states[k + 1].core.inv.pending && states[k + 1].core.inv.pending[id].status.BlocksEntry()
    ensures steps[k].UserEvent? && steps[k].matched == Some(id)
  {
    EveryStateSafe(cfg, states, steps, k);
    assert IsStep(cfg, states, steps, k);
    StepMark(cfg, states[k], steps[k], id);
    assert id in states[k].tasks ==> TaskOpen(ClaimsOf(states[k]), id);
  }
}
