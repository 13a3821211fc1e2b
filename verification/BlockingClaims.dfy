/** When a token can have two blocking claims: exactly when a trade revives an expired claim beside
    another blocking one. */
module BlockingClaims {
  import opened Wrappers
  import opened MachineInt
  import opened VenueTypes
  import opened InventorySpec
  import opened RuntimeSpec
  import opened Protocol
  import opened ClaimSafety

  predicate Blocking(pending: map<SubmitId, PendingSubmit>, id: SubmitId) {
    id in pending && pending[id].status.BlocksEntry()
  }

  /** At most one blocking claim per token. */
  ghost predicate OneBlocking(pending: map<SubmitId, PendingSubmit>) {
    forall a, b :: Blocking(pending, a) && Blocking(pending, b) && pending[a].token == pending[b].token ==> a == b
  }

  /** A non-terminal trade event matched to an expired claim while another claim blocks its token. */
  ghost predicate RevivesBeside(pending: map<SubmitId, PendingSubmit>, step: Step) {
    && step.UserEvent? && !step.trade.status.Terminal()
    && step.matched.Some? && step.matched.value in pending
    && pending[step.matched.value].status.ExpiredUnknown?
    && exists other :: Blocking(pending, other) && pending[other].token == pending[step.matched.value].token
  }

  /** Blocking claims that only disappear stay one per token. */
  lemma FewerBlocking(p: map<SubmitId, PendingSubmit>, p': map<SubmitId, PendingSubmit>)
    requires OneBlocking(p)
    requires forall id :: Blocking(p', id) ==> Blocking(p, id) && p'[id].token == p[id].token
    ensures OneBlocking(p')
  {
  }

  lemma OneMoreBlocking(p: map<SubmitId, PendingSubmit>, id: SubmitId, claim: PendingSubmit)
    requires OneBlocking(p)
    requires forall x :: Blocking(p, x) && p[x].token == claim.token ==> x == id
    ensures OneBlocking(p[id := claim])
  {
    var p' := p[id := claim];
    assert forall x :: x != id && Blocking(p', x) ==> Blocking(p, x) && p'[x] == p[x];
  }

  lemma TickKeepsOne(cfg: RuntimeConfig, s: System, step: Step)
    requires Safe(ClaimsOf(s)) && Enabled(cfg, s, step) && step.BinanceTick?
    requires s.core.inv.nextId < U64_MAX && OneBlocking(s.core.inv.pending)
    ensures OneBlocking(ClaimsOf(Next(cfg, s, step)).pending)
  {
    TickClaims(cfg, s, step);
    if ClaimsBy(cfg, step) {
      ClaimIsUnblocked(cfg, s, step);
      var id, token := NextClaimId(s.core.inv), step.intent.value.token;
      OneMoreBlocking(s.core.inv.pending, id, PendingSubmit(id, token, Buy, 1, None, Pending, step.now, step.now));
    }
  }

  lemma OutcomeKeepsOne(cfg: RuntimeConfig, s: System, step: Step)
    requires Safe(ClaimsOf(s)) && Enabled(cfg, s, step) && step.HttpOutcome?
    requires s.core.inv.nextId < U64_MAX && OneBlocking(s.core.inv.pending)
    ensures OneBlocking(RecordOutcome(s.core.inv, step.id, step.outcome, step.now).pending)
  {
    assert TaskOpen(ClaimsOf(s), step.id);
    FewerBlocking(s.core.inv.pending, RecordOutcome(s.core.inv, step.id, step.outcome, step.now).pending);
  }

  lemma SweepKeepsOne(s: System, now: int)
    requires OneBlocking(s.core.inv.pending)
    ensures OneBlocking(ExpireStale(s.core, now).inv.pending)
  {
    SweptClaims(s.core.inv, now, s.core);
    FewerBlocking(s.core.inv.pending, ExpireStale(s.core, now).inv.pending);
  }

  /** A trade keeps one blocking claim per token exactly when it does not revive beside another. */
  lemma TradeKeepsOneExactlyWhen(inv: InvState, step: Step)
    requires step.UserEvent? && MatchAllowed(inv, step.trade, step.matched) && OneBlocking(inv.pending)
    ensures OneBlocking(ApplyUserTrade(inv, step.trade, step.matched).pending) <==> !RevivesBeside(inv.pending, step)
  {
    var p, p' := inv.pending, ApplyUserTrade(inv, step.trade, step.matched).pending;
    if step.matched.None? || step.trade.status.Terminal() {
      FewerBlocking(p, p');
    } else {
      var id := step.matched.value;
      assert p' == p[id := TouchMatched(p[id], step.trade)];
      if RevivesBeside(p, step) {
        var other :| Blocking(p, other) && p[other].token == p[id].token;
        assert Blocking(p', other) && Blocking(p', id) && other != id;
      } else {
        OneMoreBlocking(p, id, TouchMatched(p[id], step.trade));
      }
    }
  }

  /** Exactly one kind of step gives a token a second blocking claim. */
  lemma StepKeepsOneExactlyWhen(cfg: RuntimeConfig, s: System, step: Step)
    requires Safe(ClaimsOf(s)) && Enabled(cfg, s, step)
    requires s.core.inv.nextId < U64_MAX && OneBlocking(s.core.inv.pending)
    ensures OneBlocking(ClaimsOf(Next(cfg, s, step)).pending) <==> !RevivesBeside(s.core.inv.pending, step)
  {
    if LeavesClaims(step) {
      ClaimsUntouched(cfg, s, step);
    } else if step.BinanceTick? {
      TickKeepsOne(cfg, s, step);
    } else if step.HttpOutcome? {
      OutcomeKeepsOne(cfg, s, step);
    } else if step.Maintenance? {
      SweepKeepsOne(s, step.now);
    } else if step.UserEvent? {
      TradeKeepsOneExactlyWhen(s.core.inv, step);
    } else {
      FewerBlocking(s.core.inv.pending, ClaimsOf(Next(cfg, s, step)).pending);
    }
  }

  lemma CounterGrows(cfg: RuntimeConfig, s: System, step: Step)
    requires s.core.inv.nextId <= U64_MAX
    ensures s.core.inv.nextId <= ClaimsOf(Next(cfg, s, step)).nextId
  {
    if LeavesClaims(step) {
      ClaimsUntouched(cfg, s, step);
    } else if step.BinanceTick? {
      TickClaims(cfg, s, step);
    }
  }

  lemma RunStep(cfg: RuntimeConfig, states: seq<System>, steps: seq<Step>, i: nat)
    requires IsRun(cfg, states, steps) && i < |steps| && states[i + 1].core.inv.nextId < U64_MAX
    ensures states[i].core.inv.nextId < U64_MAX
    ensures OneBlocking(states[i].core.inv.pending) ==>
              (OneBlocking(states[i + 1].core.inv.pending) <==> !RevivesBeside(states[i].core.inv.pending, steps[i]))
  {
    EveryStateSafe(cfg, states, steps, i);
    assert IsStep(cfg, states, steps, i);
    CounterGrows(cfg, states[i], steps[i]);
    if OneBlocking(states[i].core.inv.pending) {
      StepKeepsOneExactlyWhen(cfg, states[i], steps[i]);
    }
  }

  /** Over any run in which the claim counter has not reached its end, no token ever has two blocking
      claims if and only if no trade event revives an expired claim beside a blocking one. */
  lemma {:induction false} OneBlockingExactlyWhen(cfg: RuntimeConfig, states: seq<System>, steps: seq<Step>, n: nat)
    requires IsRun(cfg, states, steps) && n < |states| && states[n].core.inv.nextId < U64_MAX
    ensures (forall k :: 0 <= k <= n ==> OneBlocking(states[k].core.inv.pending))
            <==> (forall i :: 0 <= i < n ==> !RevivesBeside(states[i].core.inv.pending, steps[i]))
  {
    if n > 0 {
      RunStep(cfg, states, steps, n - 1);
      OneBlockingExactlyWhen(cfg, states, steps, n - 1);
    } else {
      assert states[0].core.inv.pending == map[];
    }
  }
}
