/** Whole histories of user trades: what one trade contributes, and what the clamped balance is. */
module Conservation {
  import opened Wrappers
  import opened MachineInt
  import opened VenueTypes
  import opened InventorySpec

  type Events = seq<UserTrade>

  function Run(l: Ledger, events: Events): Ledger {
    if events == [] then l else LedgerStep(Run(l, events[..|events| - 1]), events[|events| - 1])
  }

  function Signed(side: OrderSide, size: Atoms): int {
    if side.Buy? then size as int else -(size as int)
  }

  /** The signed, unclamped change an event asks of a token's balance. */
  function Delta(l: Ledger, t: UserTrade, token: TokenId): int {
    var r := RecordFor(l, t);
    if r.token != token then 0
    else if AppliesNow(l, t) then Signed(r.side, r.sizeAtoms)
    else if ReversesNow(l, t) then -Signed(r.side, r.sizeAtoms)
    else 0
  }

  /** Running sum of the changes. */
  function Sum(l: Ledger, events: Events, token: TokenId): int {
    if events == [] then 0
    else
      var init := events[..|events| - 1];
      Sum(l, init, token) + Delta(Run(l, init), events[|events| - 1], token)
  }

  /** Least prefix of the running sum, the empty prefix included. */
  function Lowest(l: Ledger, events: Events, token: TokenId): int {
    if events == [] then 0 else Min(Lowest(l, events[..|events| - 1], token), Sum(l, events, token))
  }

  /** Total of the credits alone: what saturation is measured against. */
  function Credits(l: Ledger, events: Events, token: TokenId): nat {
    if events == [] then 0
    else
      var init := events[..|events| - 1];
      Credits(l, init, token) + Max(Delta(Run(l, init), events[|events| - 1], token), 0)
  }

  lemma {:induction false} LowestBelow(l: Ledger, events: Events, token: TokenId, k: nat)
    requires k <= |events|
    ensures Lowest(l, events, token) <= Sum(l, events[..k], token)
  {
    if k == |events| {
      assert events[..k] == events;
    } else {
      var init := events[..|events| - 1];
      assert events[..k] == init[..k];
      LowestBelow(l, init, token, k);
    }
  }

  lemma {:induction false} LowestAttained(l: Ledger, events: Events, token: TokenId) returns (k: nat)
    ensures k <= |events| && Lowest(l, events, token) == Sum(l, events[..k], token)
  {
    assert events[..|events|] == events;
    k := |events|;
    if events != [] && Lowest(l, events, token) != Sum(l, events, token) {
      var init := events[..|events| - 1];
      k := LowestAttained(l, init, token);
      assert events[..k] == init[..k];
    }
  }

  /** Lowest is the least prefix sum: attained, and below every other. */
  lemma LowestIsLeastPrefix(l: Ledger, events: Events, token: TokenId)
    ensures forall k :: 0 <= k <= |events| ==> Lowest(l, events, token) <= Sum(l, events[..k], token)
    ensures exists k :: 0 <= k <= |events| && Lowest(l, events, token) == Sum(l, events[..k], token)
  {
    var least := LowestAttained(l, events, token);
    forall k | 0 <= k <= |events|
      ensures Lowest(l, events, token) <= Sum(l, events[..k], token)
    {
      LowestBelow(l, events, token, k);
    }
  }

  /** One event moves a token's balance by its delta, clamped at zero below. */
  lemma StepBalance(l: Ledger, t: UserTrade, token: TokenId)
    requires 0 <= OwnedIn(l.owned, token)
    requires OwnedIn(l.owned, token) + Max(Delta(l, t, token), 0) <= I64_MAX
    ensures OwnedIn(LedgerStep(l, t).owned, token) == Max(OwnedIn(l.owned, token) + Delta(l, t, token), 0)
  {
  }

  /** Clamped conservation: after any history of trade events, duplicated, reordered or failed,
      the balance is the running sum lifted by however far its least prefix fell below zero. */
  lemma {:induction false} ClampedConservation(l: Ledger, events: Events, token: TokenId)
    requires 0 <= OwnedIn(l.owned, token)
    requires OwnedIn(l.owned, token) + Credits(l, events, token) <= I64_MAX
    ensures var q := OwnedIn(l.owned, token);
            OwnedIn(Run(l, events).owned, token)
            == q + Sum(l, events, token) - Min(0, q + Lowest(l, events, token))
    ensures 0 <= OwnedIn(Run(l, events).owned, token) <= OwnedIn(l.owned, token) + Credits(l, events, token)
  {
    if events != [] {
      var init := events[..|events| - 1];
      ClampedConservation(l, init, token);
      StepBalance(Run(l, init), events[|events| - 1], token);
    }
  }

  /** Started at q, the running sum never goes below zero. */
  ghost predicate NeverBelowZero(l: Ledger, events: Events, token: TokenId, q: int) {
    forall k :: 0 <= k <= |events| ==> 0 <= q + Sum(l, events[..k], token)
  }

  /** That is so exactly when q covers the least prefix. */
  lemma LowestDecides(l: Ledger, events: Events, token: TokenId, q: int)
    ensures NeverBelowZero(l, events, token, q) <==> 0 <= q + Lowest(l, events, token)
  {
    var least := LowestAttained(l, events, token);
    assert NeverBelowZero(l, events, token, q) ==> 0 <= q + Sum(l, events[..least], token);
    forall k | 0 <= k <= |events|
      ensures Lowest(l, events, token) <= Sum(l, events[..k], token)
    {
      LowestBelow(l, events, token, k);
    }
  }

  /** The clamp never acted exactly when the opening balance covers the least prefix. */
  lemma ClampVanishes(l: Ledger, events: Events, token: TokenId, q: int)
    requires 0 <= OwnedIn(l.owned, token) == q
    requires q + Credits(l, events, token) <= I64_MAX
    ensures OwnedIn(Run(l, events).owned, token) == q + Sum(l, events, token) <==> 0 <= q + Lowest(l, events, token)
  {
    ClampedConservation(l, events, token);
    LiftedByNothing(OwnedIn(Run(l, events).owned, token), q, Sum(l, events, token), Lowest(l, events, token));
  }

  lemma LiftedByNothing(balance: int, q: int, sum: int, lowest: int)
    requires balance == q + sum - Min(0, q + lowest)
    ensures balance == q + sum <==> 0 <= q + lowest
  {
  }

  /** The balance is the plain running sum exactly when that sum never goes below zero. */
  lemma UnclampedExactlyWhen(l: Ledger, events: Events, token: TokenId)
    requires 0 <= OwnedIn(l.owned, token)
    requires OwnedIn(l.owned, token) + Credits(l, events, token) <= I64_MAX
    ensures OwnedIn(Run(l, events).owned, token) == OwnedIn(l.owned, token) + Sum(l, events, token)
            <==> NeverBelowZero(l, events, token, OwnedIn(l.owned, token))
  {
    ClampVanishes(l, events, token, OwnedIn(l.owned, token));
    LowestDecides(l, events, token, OwnedIn(l.owned, token));
  }

  // ----------------------------------------------------------- one trade's lifecycle

  /** The statuses one trade went through, in arrival order. */
  function History(events: Events, id: TradeId): seq<TradeStatus> {
    if events == [] then []
    else
      var last := events[|events| - 1];
      History(events[..|events| - 1], id) + if last.tradeId == id then [last.status] else []
  }

  ghost predicate Seen(events: Events, id: TradeId) {
    exists i :: 0 <= i < |events| && events[i].tradeId == id
  }

  /** The event that opened a trade, its earliest: it fixes token, side and size for good. */
  ghost function Opening(events: Events, id: TradeId): (t: UserTrade)
    requires Seen(events, id)
    ensures exists i :: 0 <= i < |events| && events[i] == t && t.tradeId == id
                        && forall j :: 0 <= j < i ==> events[j].tradeId != id
  {
    var init, last := events[..|events| - 1], events[|events| - 1];
    assert forall i :: 0 <= i < |init| ==> events[i] == init[i];
    if Seen(init, id) then Opening(init, id) else last
  }

  /** Index of the first status that applies the trade, or the length. */
  function FirstApply(h: seq<TradeStatus>): (i: nat)
    ensures i <= |h| && (i < |h| ==> h[i].Applies())
    ensures forall j :: 0 <= j < i ==> !h[j].Applies()
  {
    if h == [] then 0
    else if h[0].Applies() then 0
    else
      var i := FirstApply(h[1..]);
      assert forall j :: 1 <= j < i + 1 ==> h[j] == h[1..][j - 1];
      i + 1
  }

  /** Index of the first terminal status, or the length. */
  function FirstTerminal(h: seq<TradeStatus>): (i: nat)
    ensures i <= |h| && (i < |h| ==> h[i].Terminal())
    ensures forall j :: 0 <= j < i ==> !h[j].Terminal()
  {
    if h == [] then 0
    else if h[0].Terminal() then 0
    else
      var i := FirstTerminal(h[1..]);
      assert forall j :: 1 <= j < i + 1 ==> h[j] == h[1..][j - 1];
      i + 1
  }

  /** Closed form: a trade counts once it was MATCHED or CONFIRMED, unless its first terminal
      status is a FAILED that came after it was applied. */
  predicate Live(h: seq<TradeStatus>) {
    && FirstApply(h) < |h|
    && !(FirstTerminal(h) < |h| && h[FirstTerminal(h)].Failed? && FirstApply(h) < FirstTerminal(h))
  }

  lemma FirstApplyAppend(h: seq<TradeStatus>, st: TradeStatus)
    ensures FirstApply(h + [st]) == if FirstApply(h) < |h| then FirstApply(h)
                                    else if st.Applies() then |h| else |h| + 1
  {
    var g, i := h + [st], FirstApply(h + [st]);
    assert forall j :: 0 <= j < |h| ==> g[j] == h[j];
    assert g[|h|] == st;
  }

  lemma FirstTerminalAppend(h: seq<TradeStatus>, st: TradeStatus)
    ensures FirstTerminal(h + [st]) == if FirstTerminal(h) < |h| then FirstTerminal(h)
                                       else if st.Terminal() then |h| else |h| + 1
  {
    var g, i := h + [st], FirstTerminal(h + [st]);
    assert forall j :: 0 <= j < |h| ==> g[j] == h[j];
    assert g[|h|] == st;
  }

  lemma OpeningStable(events: Events, last: UserTrade, id: TradeId)
    ensures Seen(events + [last], id) <==> (Seen(events, id) || last.tradeId == id)
    ensures Seen(events, id) ==> Opening(events + [last], id) == Opening(events, id)
    ensures !Seen(events, id) && last.tradeId == id ==> Opening(events + [last], id) == last
    ensures History(events + [last], id) == History(events, id) + if last.tradeId == id then [last.status] else []
  {
    var all := events + [last];
    assert all[..|all| - 1] == events;
    if Seen(events, id) {
      var i :| 0 <= i < |events| && events[i].tradeId == id;
      assert all[i].tradeId == id;
    }
    if last.tradeId == id {
      assert all[|events|].tradeId == id;
    }
    if Seen(all, id) && last.tradeId != id {
      var i :| 0 <= i < |all| && all[i].tradeId == id;
      assert events[i].tradeId == id;
    }
  }

  /** A trade's record remembers its opening terms and exactly whether it was ever applied and
      ever terminal. */
  lemma {:induction false} RecordMatchesHistory(l: Ledger, events: Events, id: TradeId)
    requires id !in l.trades
    ensures id in Run(l, events).trades <==> Seen(events, id)
    ensures !Seen(events, id) ==> History(events, id) == []
    ensures Seen(events, id) ==>
              var (op, h) := (Opening(events, id), History(events, id));
              Run(l, events).trades[id]
              == TradeRecord(op.token, op.side, op.sizeAtoms, FirstApply(h) < |h|, FirstTerminal(h) < |h|)
  {
    if events != [] {
      var init, last := events[..|events| - 1], events[|events| - 1];
      assert events == init + [last];
      RecordMatchesHistory(l, init, id);
      OpeningStable(init, last, id);
      if last.tradeId == id {
        FirstApplyAppend(History(init, id), last.status);
        FirstTerminalAppend(History(init, id), last.status);
      } else {
        assert History(init, id) + [] == History(init, id);
      }
    }
  }

  /** What one trade has done to its token so far, by the closed form. */
  ghost function Contribution(events: Events, id: TradeId): int {
    if Seen(events, id) && Live(History(events, id))
    then Signed(Opening(events, id).side, Opening(events, id).sizeAtoms)
    else 0
  }

  /** The running sum of one trade's own changes, whatever its token. */
  function TradeSum(l: Ledger, events: Events, id: TradeId): int {
    if events == [] then 0
    else
      var init, last := events[..|events| - 1], events[|events| - 1];
      TradeSum(l, init, id)
      + if last.tradeId == id then Delta(Run(l, init), last, RecordFor(Run(l, init), last).token) else 0
  }

  /** How often one trade changed the inventory. */
  function Changes(l: Ledger, events: Events, id: TradeId): nat {
    if events == [] then 0
    else
      var init, last := events[..|events| - 1], events[|events| - 1];
      Changes(l, init, id) + if last.tradeId == id && ChangesInventory(Run(l, init), last) then 1 else 0
  }

  /** Times a trade with this history has changed the inventory: never before it applies, once
      while live, twice once reversed. */
  function ChangeCount(h: seq<TradeStatus>): nat {
    if FirstApply(h) == |h| then 0 else if Live(h) then 1 else 2
  }

  /** What the inventory asks of one event of a trade, read off the trade's history alone. */
  lemma OwnEvent(r: TradeRecord, h: seq<TradeStatus>, st: TradeStatus)
    requires r.applied == (FirstApply(h) < |h|) && r.finalized == (FirstTerminal(h) < |h|)
    ensures st.Applies() && !r.applied ==> !Live(h) && Live(h + [st])
    ensures st.Failed? && r.applied && !r.finalized ==> Live(h) && !Live(h + [st])
    ensures !(st.Applies() && !r.applied) && !(st.Failed? && r.applied && !r.finalized)
            ==> Live(h + [st]) == Live(h) && ChangeCount(h + [st]) == ChangeCount(h)
    ensures (st.Applies() && !r.applied) || (st.Failed? && r.applied && !r.finalized)
            ==> ChangeCount(h + [st]) == ChangeCount(h) + 1
  {
    LiveAppend(h, st);
    FirstApplyAppend(h, st);
  }

  /** An event changes its trade's contribution by exactly the delta it causes. */
  lemma DeltaIsContributionChange(l: Ledger, init: Events, last: UserTrade)
    requires last.tradeId !in l.trades
    ensures Seen(init + [last], last.tradeId)
    ensures var (id, r) := (last.tradeId, RecordFor(Run(l, init), last));
            && Delta(Run(l, init), last, r.token) == Contribution(init + [last], id) - Contribution(init, id)
            && r.token == Opening(init + [last], id).token
            && ChangeCount(History(init + [last], id))
               == ChangeCount(History(init, id)) + if ChangesInventory(Run(l, init), last) then 1 else 0
  {
    var id := last.tradeId;
    RecordMatchesHistory(l, init, id);
    OpeningStable(init, last, id);
    OwnEvent(RecordFor(Run(l, init), last), History(init, id), last.status);
  }

  /** Lifecycle closed form: however a trade's events are interleaved with others, repeated or
      reordered, its net effect is its opening size if live and nothing otherwise, and it touches
      the inventory at most twice. */
  lemma {:induction false} LifecycleClosedForm(l: Ledger, events: Events, id: TradeId)
    requires id !in l.trades
    ensures TradeSum(l, events, id) == Contribution(events, id)
    ensures Changes(l, events, id) == ChangeCount(History(events, id)) <= 2
  {
    if events != [] {
      var init, last := events[..|events| - 1], events[|events| - 1];
      assert events == init + [last];
      LifecycleClosedForm(l, init, id);
      if last.tradeId == id {
        DeltaIsContributionChange(l, init, last);
      } else {
        OtherEvent(init, last, id);
      }
    }
  }

  /** An event of another trade changes neither history nor contribution. */
  lemma OtherEvent(init: Events, last: UserTrade, id: TradeId)
    requires last.tradeId != id
    ensures History(init + [last], id) == History(init, id)
    ensures Contribution(init + [last], id) == Contribution(init, id)
  {
    OpeningStable(init, last, id);
    assert History(init, id) + [] == History(init, id);
  }

  /** When a trade's liveness flips: on with the first apply, off with a FAILED that is the first
      terminal status after it. */
  lemma LiveAppend(h: seq<TradeStatus>, st: TradeStatus)
    ensures Live(h + [st]) <==>
            if FirstApply(h) == |h| then st.Applies()
            else Live(h) && !(st.Failed? && FirstTerminal(h) == |h|)
  {
    FirstApplyAppend(h, st);
    FirstTerminalAppend(h, st);
    var g := h + [st];
    assert forall j :: 0 <= j < |h| ==> g[j] == h[j];
    assert g[|h|] == st;
  }

  // ------------------------------------------------- the balance as a sum over trades

  /** Trades opened on a token. */
  ghost function TradesOn(events: Events, token: TokenId): set<TradeId> {
    set t | t in events && Opened(events, t.tradeId, token) :: t.tradeId
  }

  ghost predicate Opened(events: Events, id: TradeId, token: TokenId) {
    Seen(events, id) && Opening(events, id).token == token
  }

  ghost function Total(events: Events, ids: set<TradeId>): int {
    if ids == {} then 0
    else
      var id :| id in ids;
      Contribution(events, id) + Total(events, ids - {id})
  }

  lemma {:induction false} TotalSplit(events: Events, ids: set<TradeId>, x: TradeId)
    requires x in ids
    ensures Total(events, ids) == Contribution(events, x) + Total(events, ids - {x})
    decreases |ids|
  {
    var id :| id in ids && Total(events, ids) == Contribution(events, id) + Total(events, ids - {id});
    if id != x {
      TotalSplit(events, ids - {id}, x);
      TotalSplit(events, ids - {x}, id);
      assert ids - {id} - {x} == ids - {x} - {id};
    }
  }

  lemma {:induction false} TotalSame(e1: Events, e2: Events, ids: set<TradeId>)
    requires forall id :: id in ids ==> Contribution(e1, id) == Contribution(e2, id)
    ensures Total(e1, ids) == Total(e2, ids)
    decreases |ids|
  {
    if ids != {} {
      var id :| id in ids;
      TotalSplit(e1, ids, id);
      TotalSplit(e2, ids, id);
      TotalSame(e1, e2, ids - {id});
    }
  }

  lemma SeenMember(events: Events, id: TradeId)
    ensures Seen(events, id) <==> exists t :: t in events && t.tradeId == id
  {
    if Seen(events, id) {
      var i :| 0 <= i < |events| && events[i].tradeId == id;
      assert events[i] in events;
    }
  }

  lemma TradesOnMember(events: Events, token: TokenId, id: TradeId)
    ensures id in TradesOn(events, token) <==> Opened(events, id, token)
  {
    SeenMember(events, id);
    if Seen(events, id) {
      assert Opening(events, id) in events;
    }
  }

  /** The running sum on a token is the sum, over the trades opened on it, of their closed forms. */
  lemma {:induction false} SumIsTotalOfTrades(l: Ledger, events: Events, token: TokenId)
    requires l.trades == map[]
    ensures Sum(l, events, token) == Total(events, TradesOn(events, token))
  {
    if events == [] {
      assert TradesOn(events, token) == {};
    } else {
      var init, last := events[..|events| - 1], events[|events| - 1];
      assert events == init + [last];
      SumIsTotalOfTrades(l, init, token);
      DeltaIsContributionChange(l, init, last);
      TotalAfterEvent(init, last, token);
    }
  }

  /** One more event changes the total by the change of its own trade's contribution, if that
      trade was opened on the token. */
  lemma TotalAfterEvent(init: Events, last: UserTrade, token: TokenId)
    ensures Seen(init + [last], last.tradeId)
    ensures var (all, id) := (init + [last], last.tradeId);
            Total(all, TradesOn(all, token))
            == Total(init, TradesOn(init, token))
               + if Opening(all, id).token == token then Contribution(all, id) - Contribution(init, id) else 0
  {
    var all, id := init + [last], last.tradeId;
    var before, after := TradesOn(init, token), TradesOn(all, token);
    AppendTouchesOneTrade(init, last, token);
    OpeningStable(init, last, id);
    TradesOnMember(init, token, id);
    TradesOnMember(all, token, id);
    TotalSame(init, all, before - {id});
    if id in after {
      TotalSplit(all, after, id);
    } else {
      assert after - {id} == after;
    }
    if id in before {
      TotalSplit(init, before, id);
    } else {
      assert before - {id} == before;
    }
  }

  /** An event leaves every other trade's closed form, and membership, as they were. */
  lemma AppendTouchesOneTrade(init: Events, last: UserTrade, token: TokenId)
    ensures forall id :: id != last.tradeId ==> Contribution(init + [last], id) == Contribution(init, id)
    ensures TradesOn(init + [last], token) - {last.tradeId} == TradesOn(init, token) - {last.tradeId}
  {
    var all := init + [last];
    forall id | id != last.tradeId
      ensures Contribution(all, id) == Contribution(init, id)
      ensures id in TradesOn(all, token) <==> id in TradesOn(init, token)
    {
      OtherEvent(init, last, id);
      OpeningStable(init, last, id);
      TradesOnMember(all, token, id);
      TradesOnMember(init, token, id);
    }
  }

  /** Starting flat, when every trade opened on the token is a BUY, the balance is exactly the
      sum of the live sizes. */
  lemma BuyOnlyBalance(l: Ledger, events: Events, token: TokenId)
    requires l.trades == map[] && OwnedIn(l.owned, token) == 0
    requires Credits(l, events, token) <= I64_MAX
    requires forall id :: Opened(events, id, token) ==> Opening(events, id).side == Buy
    ensures OwnedIn(Run(l, events).owned, token) == Total(events, TradesOn(events, token))
  {
    forall k | 0 <= k <= |events|
      ensures Sum(l, events[..k], token) >= 0
    {
      PrefixOpenings(events, k, token);
      SumIsTotalOfTrades(l, events[..k], token);
      forall id | id in TradesOn(events[..k], token)
        ensures Contribution(events[..k], id) >= 0
      {
        TradesOnMember(events[..k], token, id);
      }
      TotalNonNegative(events[..k], TradesOn(events[..k], token));
    }
    UnclampedExactlyWhen(l, events, token);
    SumIsTotalOfTrades(l, events, token);
  }

  lemma {:induction false} TotalNonNegative(events: Events, ids: set<TradeId>)
    requires forall id :: id in ids ==> Contribution(events, id) >= 0
    ensures Total(events, ids) >= 0
    decreases |ids|
  {
    if ids != {} {
      var id :| id in ids;
      TotalSplit(events, ids, id);
      TotalNonNegative(events, ids - {id});
    }
  }

  lemma {:induction false} PrefixOpenings(events: Events, k: nat, token: TokenId)
    requires k <= |events|
    ensures forall id :: Opened(events[..k], id, token)
                         ==> Opened(events, id, token) && Opening(events, id) == Opening(events[..k], id)
    decreases |events| - k
  {
    if k == |events| {
      assert events[..k] == events;
    } else {
      PrefixOpenings(events, k + 1, token);
      assert events[..k + 1] == events[..k] + [events[k]];
      forall id | Opened(events[..k], id, token)
        ensures Opened(events, id, token) && Opening(events, id) == Opening(events[..k], id)
      {
        OpeningStable(events[..k], events[k], id);
      }
    }
  }

  // ----------------------------------------------------------------- replays and reversals

  /** The trade's record already carries what this event would mark. */
  predicate Settled(l: Ledger, t: UserTrade) {
    && t.tradeId in l.trades
    && (t.status.Applies() ==> l.trades[t.tradeId].applied)
    && (t.status.Terminal() ==> l.trades[t.tradeId].finalized)
  }

  /** Marks stay: no later event of any trade takes them back. */
  lemma {:induction false} SettledStays(l: Ledger, t: UserTrade, mid: Events)
    requires Settled(l, t)
    ensures Settled(Run(l, mid), t)
  {
    if mid != [] {
      SettledStays(l, t, mid[..|mid| - 1]);
    }
  }

  /** A settled event changes nothing, and every delivered event is settled. */
  lemma SettledIsDone(l: Ledger, t: UserTrade)
    ensures Settled(l, t) ==> LedgerStep(l, t) == l
    ensures Settled(LedgerStep(l, t), t)
  {
    if Settled(l, t) {
      assert l.trades[t.tradeId := l.trades[t.tradeId]] == l.trades;
    }
  }

  /** An event delivered again, at once or after any other events, changes neither a balance nor a
      trade record. */
  lemma ReplayIsIdempotent(l: Ledger, t: UserTrade, mid: Events)
    ensures var after := Run(LedgerStep(l, t), mid);
            LedgerStep(after, t) == after
  {
    SettledIsDone(l, t);
    SettledStays(LedgerStep(l, t), t, mid);
    SettledIsDone(Run(LedgerStep(l, t), mid), t);
  }

  /** The claims an event may be matched to. */
  ghost predicate Candidate(s: InvState, t: UserTrade, id: SubmitId) {
    if exists x :: MatchesByOrder(s, t, x) then MatchesByOrder(s, t, id) else MatchesByTokenSide(s, t, id)
  }

  /** The claims are not idempotent: a terminal event, replayed or not, leaves them alone whatever it is
      matched to, exactly when no claim carries its order id or has its token and side. */
  lemma TerminalKeepsClaimsExactlyWhen(s: InvState, t: UserTrade)
    requires t.status.Terminal()
    ensures (forall m :: MatchAllowed(s, t, m) ==> ApplyUserTrade(s, t, m).pending == s.pending)
            <==> (forall id :: !MatchesByOrder(s, t, id) && !MatchesByTokenSide(s, t, id))
  {
    if forall id :: !MatchesByOrder(s, t, id) && !MatchesByTokenSide(s, t, id) {
      assert forall m :: MatchAllowed(s, t, m) ==> m == None;
    } else {
      var id := SomeCandidate(s, t);
      assert MatchAllowed(s, t, Some(id));
      assert id !in ApplyUserTrade(s, t, Some(id)).pending;
    }
  }

  lemma SomeCandidate(s: InvState, t: UserTrade) returns (id: SubmitId)
    requires exists x :: MatchesByOrder(s, t, x) || MatchesByTokenSide(s, t, x)
    ensures Candidate(s, t, id) && id in s.pending && MatchAllowed(s, t, Some(id))
  {
    if exists x :: MatchesByOrder(s, t, x) {
      id :| MatchesByOrder(s, t, id);
    } else {
      id :| MatchesByTokenSide(s, t, id);
    }
  }

  /** A claim that a match with this event would leave as it is. */
  predicate Touched(p: PendingSubmit, t: UserTrade) {
    p.status.Accepted? && p.updatedTs == t.ts && (p.orderId.Some? || t.takerOrderId.None?)
  }

  /** A non-terminal event, replayed or not, leaves the claims alone whichever claim it is matched to,
      exactly when every claim it may be matched to is already accepted, bound as far as the event can
      bind it, and stamped with the event's time. */
  lemma NonTerminalKeepsClaimsExactlyWhen(s: InvState, t: UserTrade)
    requires !t.status.Terminal()
    ensures (forall m :: MatchAllowed(s, t, m) ==> ApplyUserTrade(s, t, m).pending == s.pending)
            <==> (forall id :: Candidate(s, t, id) ==> Touched(s.pending[id], t))
  {
    if forall id :: Candidate(s, t, id) ==> Touched(s.pending[id], t) {
      forall m | MatchAllowed(s, t, m)
        ensures ApplyUserTrade(s, t, m).pending == s.pending
      {
        if m.Some? {
          assert Candidate(s, t, m.value);
          assert TouchMatched(s.pending[m.value], t) == s.pending[m.value];
        }
      }
    } else {
      var id :| Candidate(s, t, id) && !Touched(s.pending[id], t);
      assert MatchAllowed(s, t, Some(id));
      assert ApplyUserTrade(s, t, Some(id)).pending[id] == TouchMatched(s.pending[id], t) != s.pending[id];
    }
  }

  /** Right after a delivery the matched claim is one of those; so a replay is harmless to the claims
      when no other claim is a candidate. */
  lemma ReplayHarmlessWhenAlone(s: InvState, t: UserTrade, m1: Option<SubmitId>, m2: Option<SubmitId>)
    requires !t.status.Terminal() && MatchAllowed(s, t, m1)
    requires MatchAllowed(ApplyUserTrade(s, t, m1), t, m2)
    requires forall id: SubmitId :: Candidate(ApplyUserTrade(s, t, m1), t, id) ==> m1 == Some(id)
    ensures ApplyUserTrade(ApplyUserTrade(s, t, m1), t, m2).pending == ApplyUserTrade(s, t, m1).pending
  {
    var once := ApplyUserTrade(s, t, m1);
    NonTerminalKeepsClaimsExactlyWhen(once, t);
  }

  /** A replayed MATCHED without an order id that accepts a second, fresh claim on the token. */
  lemma ReplayCanAcceptAnotherClaim() returns (s: InvState, t: UserTrade)
    ensures t.status.Matched? && LedgerStep(s.ledger, t) == s.ledger
    ensures 7 in s.pending && s.pending[7].status.Pending?
    ensures MatchAllowed(s, t, Some(7)) && ApplyUserTrade(s, t, Some(7)).pending[7].status.Accepted?
  {
    t := UserTrade("tr", "tok", None, Buy, 1_000_000, 50, Matched, 9);
    var ledger := LedgerStep(Ledger(map[], map[]), t);
    s := InvState(true, 7, ledger,
                  map[6 := PendingSubmit(6, "tok", Buy, 1, None, Accepted, 8, 9),
                      7 := PendingSubmit(7, "tok", Buy, 1, None, Pending, 9, 9)]);
    SettledIsDone(Ledger(map[], map[]), t);
    SettledIsDone(ledger, t);
    assert MatchesByTokenSide(s, t, 7);
    assert forall id :: !MatchesByOrder(s, t, id);
  }

  /** A replayed CONFIRMED that removes a fresh claim through the token-and-side fallback. */
  lemma ReplayCanDropFreshClaim() returns (s: InvState, t: UserTrade)
    ensures t.status.Confirmed?
    ensures ReversesNow(s.ledger, t) == AppliesNow(s.ledger, t) == false
    ensures LedgerStep(s.ledger, t) == s.ledger
    ensures 7 in s.pending && s.pending[7].status.Pending?
    ensures MatchAllowed(s, t, Some(7)) && 7 !in ApplyUserTrade(s, t, Some(7)).pending
  {
    t := UserTrade("tr", "tok", None, Buy, 1_000_000, 50, Confirmed, 9);
    var ledger := LedgerStep(Ledger(map[], map[]), t);
    s := InvState(true, 7, ledger, map[7 := PendingSubmit(7, "tok", Buy, 1, None, Pending, 8, 8)]);
    assert MatchesByTokenSide(s, t, 7);
    assert forall id :: !MatchesByOrder(s, t, id);
  }

  /** A trade applied and then failed restores the balance exactly when it neither saturated as a
      BUY nor clamped as a SELL; a clamped SELL is credited back in full. */
  lemma FailureRestoresExactlyWhen(l: Ledger, t: UserTrade)
    requires t.tradeId !in l.trades && t.status.Matched?
    requires 0 <= OwnedIn(l.owned, t.token) <= I64_MAX
    ensures var (q, back) := (OwnedIn(l.owned, t.token), LedgerStep(LedgerStep(l, t), t.(status := Failed)));
            && (OwnedIn(back.owned, t.token) == q
                <==> if t.side == Buy then q + t.sizeAtoms <= I64_MAX else t.sizeAtoms <= q)
            && (t.side == Sell && t.sizeAtoms > q ==> OwnedIn(back.owned, t.token) == t.sizeAtoms)
  {
  }

  /** In the other order the FAILED is forgotten: the size is applied and stays. */
  lemma FailedBeforeMatchedSticks(l: Ledger, t: UserTrade)
    requires t.tradeId !in l.trades && t.status.Failed? && t.side == Buy
    requires 0 <= OwnedIn(l.owned, t.token) <= I64_MAX - t.sizeAtoms
    ensures var after := LedgerStep(LedgerStep(LedgerStep(l, t), t.(status := Matched)), t);
            OwnedIn(after.owned, t.token) == OwnedIn(l.owned, t.token) + t.sizeAtoms
  {
  }
}
