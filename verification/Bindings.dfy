/** A claim's order id over whole runs: once bound it changes only by an acceptance of its own. */
module Bindings {
  import opened Wrappers
  import opened MachineInt
  import opened VenueTypes
  import opened InventorySpec
  import opened RuntimeSpec
  import opened Protocol
  import opened ClaimSafety

  ghost predicate BoundTo(s: System, id: SubmitId, order: OrderId) {
    id in s.core.inv.pending && s.core.inv.pending[id].orderId == Some(order)
  }

  /** The step accepts this claim under an order id. */
  predicate AcceptsClaim(step: Step, id: SubmitId) {
    step.HttpOutcome? && step.id == id && step.outcome.OrderAccepted?
  }

  /** A claim that is still there stays bound to its order, unless the step accepts it under another. */
  lemma BindingStep(cfg: RuntimeConfig, s: System, step: Step, id: SubmitId, order: OrderId)
    requires Safe(ClaimsOf(s)) && s.core.inv.nextId < U64_MAX && BoundTo(s, id, order)
    requires id in Next(cfg, s, step).core.inv.pending
    ensures BoundTo(Next(cfg, s, step), id, if AcceptsClaim(step, id) then step.outcome.orderId else order)
  {
    if step.BinanceTick? {
      TickKeepsBinding(cfg, s, step, id);
    } else if step.HttpOutcome? {
      OutcomeKeepsBinding(s.core.inv, step.id, step.outcome, step.now, id);
    } else if step.UserEvent? {
      TradeKeepsBinding(s.core.inv, step.trade, step.matched, id);
    } else if step.Maintenance? {
      SweepKeepsBinding(s, step.now, id);
    } else {
      OthersKeepClaims(cfg, s, step, id);
    }
  }

  lemma SweepKeepsBinding(s: System, now: int, id: SubmitId)
    requires id in ExpireStale(s.core, now).inv.pending
    ensures id in s.core.inv.pending
    ensures ExpireStale(s.core, now).inv.pending[id].orderId == s.core.inv.pending[id].orderId
  {
    SweptClaims(s.core.inv, now, s.core);
  }

  /** No other step changes a claim that it keeps. */
  lemma OthersKeepClaims(cfg: RuntimeConfig, s: System, step: Step, id: SubmitId)
    requires !step.BinanceTick? && !step.HttpOutcome? && !step.UserEvent? && !step.Maintenance?
    requires id in Next(cfg, s, step).core.inv.pending
    ensures id in s.core.inv.pending && Next(cfg, s, step).core.inv.pending[id] == s.core.inv.pending[id]
  {
    if step.ExitPass? {
      PassKeepsInventory(cfg, s.core, step.now, step.model);
    }
  }

  lemma TickKeepsBinding(cfg: RuntimeConfig, s: System, step: Step, id: SubmitId)
    requires Safe(ClaimsOf(s)) && s.core.inv.nextId < U64_MAX && id in s.core.inv.pending && step.BinanceTick?
    ensures id in Next(cfg, s, step).core.inv.pending
    ensures Next(cfg, s, step).core.inv.pending[id] == s.core.inv.pending[id]
  {
    assert ClaimKeyed(s.core.inv.pending[id], id, s.core.inv.nextId);
  }

  lemma TradeKeepsBinding(inv: InvState, t: UserTrade, m: Option<SubmitId>, id: SubmitId)
    requires id in inv.pending && inv.pending[id].orderId.Some? && id in ApplyUserTrade(inv, t, m).pending
    ensures ApplyUserTrade(inv, t, m).pending[id].orderId == inv.pending[id].orderId
  {
  }

  lemma OutcomeKeepsBinding(inv: InvState, x: SubmitId, outcome: SubmitOutcome, now: int, id: SubmitId)
    requires id in inv.pending && id in RecordOutcome(inv, x, outcome, now).pending
    ensures RecordOutcome(inv, x, outcome, now).pending[id].orderId
            == if x == id && outcome.OrderAccepted? then Some(outcome.orderId) else inv.pending[id].orderId
  {
  }

  /** Over runs: a claim bound at state i and there ever since is bound to the same order at state k, if no
      step in between accepted it under another. */
  lemma {:induction false} BindingSticks(cfg: RuntimeConfig, states: seq<System>, steps: seq<Step>, i: nat, k: nat,
                                         id: SubmitId, order: OrderId)
    requires IsRun(cfg, states, steps) && i <= k < |states| && BoundTo(states[i], id, order)
    requires forall j :: i <= j <= k ==> id in states[j].core.inv.pending && states[j].core.inv.nextId < U64_MAX
    requires forall j :: i <= j < k ==> !AcceptsClaim(steps[j], id)
    ensures BoundTo(states[k], id, order)
    decreases k - i
  {
    if i < k {
      BindingSticks(cfg, states, steps, i, k - 1, id, order);
      assert IsStep(cfg, states, steps, k - 1);
      EveryStateSafe(cfg, states, steps, k - 1);
      BindingStep(cfg, states[k - 1], steps[k - 1], id, order);
    }
  }
}
