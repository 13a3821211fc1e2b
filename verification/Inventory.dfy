/** The mutable inventory: five fields updated in place under the runtime's one mutex. */
module Inventory {
  import opened Wrappers
  import opened MachineInt
  import opened VenueTypes
  import opened InventorySpec

  datatype PositionView = PositionView(ownedAtoms: nat, sellable: nat)

  class Inventory {
    var trusted: bool
    var nextSubmitId: nat
    var ownedByToken: map<TokenId, int>
    var trades: map<TradeId, TradeRecord>
    var pending: map<SubmitId, PendingSubmit>

    ghost function View(): InvState
      reads this
    {
      InvState(trusted, nextSubmitId, Ledger(ownedByToken, trades), pending)
    }

    constructor ()
      ensures View() == EMPTY
    {
      trusted, nextSubmitId := false, 0;
      ownedByToken, trades, pending := map[], map[], map[];
    }

    method SetUserWssTrusted(t: bool)
      modifies this
      ensures View() == old(View()).(trusted := t)
    {
      trusted := t;
    }

    method ClaimEntry(token: TokenId, side: OrderSide, size: Atoms, now: int) returns (id: SubmitId)
      modifies this
      ensures id == NextClaimId(old(View()))
      ensures View() == InventorySpec.ClaimEntry(old(View()), token, side, size, now)
    {
      nextSubmitId := if nextSubmitId + 1 > U64_MAX then U64_MAX else nextSubmitId + 1;
      id := nextSubmitId;
      var p := PendingSubmit(id, token, side, size, None, Pending, now, now);
      pending := pending[id := p];
    }

    method MarkSubmitAccepted(id: SubmitId, order: OrderId, now: int)
      modifies this
      ensures View() == MarkAccepted(old(View()), id, order, now)
    {
      if id in pending {
        var p := pending[id];
        p := p.(orderId := Some(order));
        p := p.(status := Accepted);
        p := p.(updatedTs := now);
        pending := pending[id := p];
      }
    }

    method MarkSubmitUnknown(id: SubmitId, now: int)
      modifies this
      ensures View() == MarkUnknown(old(View()), id, now)
    {
      if id in pending {
        var p := pending[id];
        p := p.(status := Unknown);
        p := p.(updatedTs := now);
        pending := pending[id := p];
      }
    }

    method ReleaseClaim(id: SubmitId)
      modifies this
      ensures View() == InventorySpec.ReleaseClaim(old(View()), id)
    {
      pending := pending - {id};
    }

    /** Walks the claims in arbitrary order, expiring stale Unknown ones in place. */
    method ExpireUnknowns(cutoff: int)
      modifies this
      ensures View() == InventorySpec.ExpireUnknowns(old(View()), cutoff)
    {
      var ids := pending.Keys;
      ghost var was := pending;
      while ids != {}
        invariant View() == old(View()).(pending := pending)
        invariant SweptSo(was, pending, was.Keys - ids, cutoff)
        invariant ids <= was.Keys
        decreases |ids|
      {
        var id :| id in ids;
        SweepsOne(was, pending, was.Keys - ids, id, cutoff);
        var p := pending[id];
        assert was.Keys - (ids - {id}) == was.Keys - ids + {id};
        if p.status == Unknown && p.updatedTs <= cutoff {
          pending := pending[id := p.(status := ExpiredUnknown)];
        }
        ids := ids - {id};
      }
      AllSwept(old(View()), pending, cutoff);
    }

    /** The claims in `done` have been swept, the others are as they were. */
    static ghost predicate SweptSo(was: map<SubmitId, PendingSubmit>, now: map<SubmitId, PendingSubmit>,
                                   done: set<SubmitId>, cutoff: int) {
      && now.Keys == was.Keys
      && forall id :: id in was ==>
           now[id] == if id in done && StaleUnknown(was[id], cutoff) then was[id].(status := ExpiredUnknown) else was[id]
    }

    /** Once all are swept, the claims are those of the specification. */
    static lemma AllSwept(s: InvState, now: map<SubmitId, PendingSubmit>, cutoff: int)
      requires SweptSo(s.pending, now, s.pending.Keys, cutoff)
      ensures InventorySpec.ExpireUnknowns(s, cutoff) == s.(pending := now)
    {
      assert InventorySpec.ExpireUnknowns(s, cutoff).pending == now;
    }

    /** One claim swept. */
    static lemma SweepsOne(was: map<SubmitId, PendingSubmit>, now: map<SubmitId, PendingSubmit>,
                           done: set<SubmitId>, id: SubmitId, cutoff: int)
      requires SweptSo(was, now, done, cutoff) && id in was && id !in done
      ensures now[id] == was[id]
      ensures SweptSo(was, if StaleUnknown(was[id], cutoff) then now[id := was[id].(status := ExpiredUnknown)] else now,
                      done + {id}, cutoff)
    {
    }

    method ExpirePending(cutoff: int)
      modifies this
      ensures View() == InventorySpec.ExpirePending(old(View()), cutoff)
    {
      pending := map id | id in pending && !(pending[id].status == Pending && pending[id].createdTs <= cutoff)
                   :: pending[id];
    }

    /** Searches the claims in arbitrary order, by order id first, and touches the one found. */
    method MatchPendingSubmit(t: UserTrade) returns (m: Option<SubmitId>)
      modifies this
      ensures MatchAllowed(old(View()), t, m)
      ensures View() == old(View()).(pending :=
                if m.None? then old(pending)
                else old(pending)[m.value := TouchMatched(old(pending)[m.value], t)])
    {
      ghost var s := View();
      m := None;
      if t.takerOrderId.Some? {
        if id :| id in pending && pending[id].orderId == t.takerOrderId && pending[id].status.Matchable() {
          assert MatchesByOrder(s, t, id);
          m := Some(id);
        }
      }
      if m == None {
        assert forall id :: !MatchesByOrder(s, t, id);
        if id :| id in pending && pending[id].status.Matchable()
                 && pending[id].token == t.token && pending[id].side == t.side {
          assert MatchesByTokenSide(s, t, id);
          m := Some(id);
        } else {
          assert forall id :: !MatchesByTokenSide(s, t, id);
        }
      }
      if m.Some? {
        var p := pending[m.value];
        p := p.(status := Accepted);
        if p.orderId.None? {
          p := p.(orderId := t.takerOrderId);
        }
        p := p.(updatedTs := t.ts);
        pending := pending[m.value := p];
      }
    }

    /** One user-channel trade event: match a claim, drop it on a terminal status, then apply or
        reverse the trade's delta at most once each. */
    method ApplyUserTrade(t: UserTrade) returns (state: TradeState)
      modifies this
      ensures MatchAllowed(old(View()), t, state.matchedSubmit)
      ensures View() == InventorySpec.ApplyUserTrade(old(View()), t, state.matchedSubmit)
      ensures state == TradeReport(old(View()), t, state.matchedSubmit)
    {
      ghost var s := View();
      var matched := MatchPendingSubmit(t);
      if t.status.Terminal() && matched.Some? && matched.value in pending {
        pending := pending - {matched.value};
      }
      assert pending == PendingAfterTrade(s.pending, t, matched);

      var record, inventoryChanged := SettleTrade(t);
      state := TradeState(t.tradeId, record.token, record.side, record.sizeAtoms, t.status,
                          record.applied, inventoryChanged, record.finalized, matched);
    }

    /** The trade's record, opened by its first event: apply once, reverse once before finality. */
    method SettleTrade(t: UserTrade) returns (record: TradeRecord, inventoryChanged: bool)
      modifies this`ownedByToken, this`trades
      ensures Ledger(ownedByToken, trades) == LedgerStep(old(View().ledger), t)
      ensures record == LedgerStep(old(View().ledger), t).trades[t.tradeId]
      ensures inventoryChanged == ChangesInventory(old(View().ledger), t)
    {
      record := if t.tradeId in trades then trades[t.tradeId]
                else TradeRecord(t.token, t.side, t.sizeAtoms, false, false);
      inventoryChanged := false;
      var applying := t.status == Matched || t.status == Confirmed;
      if applying && !record.applied {
        ApplyInventoryDelta(record.token, record.side, record.sizeAtoms);
        record := record.(applied := true);
        inventoryChanged := true;
      }
      if t.status == Failed && record.applied && !record.finalized {
        var reverseSide := if record.side == Buy then Sell else Buy;
        ApplyInventoryDelta(record.token, reverseSide, record.sizeAtoms);
        inventoryChanged := true;
      }
      if t.status.Terminal() {
        record := record.(finalized := true);
      }
      trades := trades[t.tradeId := record];
    }

    method ApplyInventoryDelta(token: TokenId, side: OrderSide, size: Atoms)
      modifies this`ownedByToken
      ensures ownedByToken == ApplyDelta(old(ownedByToken), token, side, size)
    {
      var entry := if token in ownedByToken then ownedByToken[token] else 0;
      match side {
        case Buy => entry := SatAdd(entry, size);
        case Sell => entry := Max(SatSub(entry, size), 0);
      }
      ownedByToken := ownedByToken[token := entry];
    }

    /** A position exists exactly while something is owned. */
    method Position(token: TokenId) returns (r: Option<PositionView>)
      ensures r == if OwnedAtoms(View(), token) == 0 then None
                   else Some(PositionView(OwnedAtoms(View(), token), Sellable(View(), token)))
    {
      var entry := if token in ownedByToken then ownedByToken[token] else 0;
      var owned := Max(entry, 0);
      if owned <= 0 {
        return None;
      }
      r := Some(PositionView(owned, owned / 10_000));
    }

    method HasEntryExposureOrPending(token: TokenId) returns (blocked: bool)
      ensures blocked == EntryBlocked(View(), token)
    {
      if !trusted {
        return true;
      }
      var entry := if token in ownedByToken then ownedByToken[token] else 0;
      var anyBlocking := exists id :: id in pending && pending[id].token == token && pending[id].status.BlocksEntry();
      blocked := Max(entry, 0) >= 10_000 || anyBlocking;
    }

    method ReleaseMarketScope(active: set<TokenId>)
      modifies this
      ensures View() == InventorySpec.ReleaseMarketScope(old(View()), active)
    {
      ownedByToken := map t | t in ownedByToken && t in active :: ownedByToken[t];
      pending := map id | id in pending && pending[id].token in active :: pending[id];
    }
  }
}
