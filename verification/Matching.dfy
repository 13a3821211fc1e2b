/** How user trades find the claim that caused them, in whatever order HTTP outcomes and trade
    events arrive. */
module Matching {
  import opened Wrappers
  import opened VenueTypes
  import opened InventorySpec

  /** No claim other than id carries the order. */
  ghost predicate OrderUnique(s: InvState, order: OrderId, id: SubmitId) {
    forall x :: x in s.pending && s.pending[x].orderId == Some(order) ==> x == id
  }

  /** No claim other than id is on its token and side. */
  ghost predicate AloneOnToken(s: InvState, id: SubmitId)
    requires id in s.pending
  {
    forall x :: x in s.pending && s.pending[x].token == s.pending[id].token && s.pending[x].side == s.pending[id].side
                ==> x == id
  }

  /** A match is found exactly when some claim carries the order, or is on the token and side, in
      any status; the order is preferred. */
  lemma MatchFoundExactlyWhen(s: InvState, t: UserTrade, m: Option<SubmitId>)
    requires MatchAllowed(s, t, m)
    ensures m.Some? <==> exists id :: id in s.pending
                                      && ((t.takerOrderId.Some? && s.pending[id].orderId == t.takerOrderId)
                                          || (s.pending[id].token == t.token && s.pending[id].side == t.side))
    ensures (exists id :: MatchesByOrder(s, t, id)) ==> m.Some? && s.pending[m.value].orderId == t.takerOrderId
  {
    if id :| id in s.pending && ((t.takerOrderId.Some? && s.pending[id].orderId == t.takerOrderId)
                                 || (s.pending[id].token == t.token && s.pending[id].side == t.side)) {
      assert MatchesByOrder(s, t, id) || MatchesByTokenSide(s, t, id);
    }
  }

  /** Every trade event can be taken: some match, or none, is always allowed. */
  lemma SomeMatchIsAllowed(s: InvState, t: UserTrade) returns (m: Option<SubmitId>)
    ensures MatchAllowed(s, t, m)
  {
    if id :| MatchesByOrder(s, t, id) {
      m := Some(id);
    } else if id :| MatchesByTokenSide(s, t, id) {
      m := Some(id);
    } else {
      m := None;
    }
  }

  /** Outcome first: once the HTTP answer has put its order id on a claim, a trade with that order
      finds exactly that claim. */
  lemma AcceptedThenTrade(s: InvState, id: SubmitId, order: OrderId, now: int, t: UserTrade, m: Option<SubmitId>)
    requires id in s.pending && OrderUnique(s, order, id) && t.takerOrderId == Some(order)
    requires MatchAllowed(MarkAccepted(s, id, order, now), t, m)
    ensures m == Some(id)
  {
    assert MatchesByOrder(MarkAccepted(s, id, order, now), t, id);
  }

  /** Trade first: a claim still without an order id, pending, uncertain or already expired, is
      found through its token and side, blocks again, and takes the trade's order id. */
  lemma TradeBeforeOutcome(s: InvState, id: SubmitId, t: UserTrade, m: Option<SubmitId>)
    requires id in s.pending && AloneOnToken(s, id) && s.pending[id].orderId.None?
    requires t.token == s.pending[id].token && t.side == s.pending[id].side && !t.status.Terminal()
    requires t.takerOrderId.Some? ==> forall x :: x in s.pending ==> s.pending[x].orderId != t.takerOrderId
    requires MatchAllowed(s, t, m)
    ensures m == Some(id)
    ensures var p := ApplyUserTrade(s, t, m).pending[id];
            p.orderId == t.takerOrderId && p.status.BlocksEntry() && p.updatedTs == t.ts
    ensures EntryBlocked(ApplyUserTrade(s, t, m), t.token)
  {
    assert MatchesByTokenSide(s, t, id);
    assert forall x :: !MatchesByOrder(s, t, x);
    var s' := ApplyUserTrade(s, t, m);
    assert id in s'.pending && s'.pending[id].token == t.token && s'.pending[id].status.BlocksEntry();
  }

  /** An uncertain outcome does not unbind: a trade of the order still finds the claim. */
  lemma UnknownKeepsBinding(s: InvState, id: SubmitId, order: OrderId, now: int, t: UserTrade, m: Option<SubmitId>)
    requires id in s.pending && s.pending[id].orderId == Some(order) && OrderUnique(s, order, id)
    requires t.takerOrderId == Some(order) && MatchAllowed(MarkUnknown(s, id, now), t, m)
    ensures m == Some(id)
  {
    assert MatchesByOrder(MarkUnknown(s, id, now), t, id);
  }

  /** From MATCHED to the terminal status: a claim bound to a unique order stays and blocks its
      token through every non-terminal event of that order, and the terminal event removes it. */
  lemma BoundUntilTerminal(s: InvState, id: SubmitId, order: OrderId, t: UserTrade, m: Option<SubmitId>)
    requires id in s.pending && s.pending[id].orderId == Some(order) && OrderUnique(s, order, id)
    requires t.takerOrderId == Some(order) && MatchAllowed(s, t, m)
    ensures m == Some(id)
    ensures var s' := ApplyUserTrade(s, t, m);
            if t.status.Terminal() then id !in s'.pending
            else
              && id in s'.pending && s'.pending[id].orderId == Some(order) && OrderUnique(s', order, id)
              && EntryBlocked(s', s.pending[id].token)
    ensures forall x :: x != id ==> (x in ApplyUserTrade(s, t, m).pending <==> x in s.pending)
    ensures forall x :: x != id && x in s.pending ==> ApplyUserTrade(s, t, m).pending[x] == s.pending[x]
  {
    assert MatchesByOrder(s, t, id);
    var s' := ApplyUserTrade(s, t, m);
    assert !t.status.Terminal() ==> id in s'.pending && s'.pending[id].status.BlocksEntry();
  }

  /** An HTTP outcome that arrives after its trade does not disturb the balance, and an acceptance
      keeps the claim blocking. */
  lemma LateOutcomeIsHarmless(s: InvState, id: SubmitId, order: OrderId, now: int)
    ensures MarkAccepted(s, id, order, now).ledger == s.ledger && MarkUnknown(s, id, now).ledger == s.ledger
    ensures ReleaseClaim(s, id).ledger == s.ledger
    ensures id in s.pending ==> EntryBlocked(MarkAccepted(s, id, order, now), s.pending[id].token)
                                && EntryBlocked(MarkUnknown(s, id, now), s.pending[id].token)
    ensures id !in s.pending ==> MarkAccepted(s, id, order, now) == s && MarkUnknown(s, id, now) == s
                                 && ReleaseClaim(s, id).pending == s.pending
  {
    if id in s.pending {
      var a, u := MarkAccepted(s, id, order, now), MarkUnknown(s, id, now);
      assert id in a.pending && a.pending[id].token == s.pending[id].token && a.pending[id].status.BlocksEntry();
      assert id in u.pending && u.pending[id].token == s.pending[id].token && u.pending[id].status.BlocksEntry();
    }
  }
}
