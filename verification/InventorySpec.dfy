/** Inventory as a value: owned balances, trade records and pending submits, and what each
    operation does to them. The class in module Inventory is proved against these functions. */
module InventorySpec {
  import opened Wrappers
  import opened MachineInt
  import opened VenueTypes

  /** Claim ids: the n of the rendered "s{n}". */
  type SubmitId = nat

  datatype SubmitStatus = Pending | Accepted | Unknown | ExpiredUnknown {
    predicate BlocksEntry() {
      Pending? || Accepted? || Unknown?
    }

    predicate Matchable() {
      Pending? || Accepted? || Unknown? || ExpiredUnknown?
    }
  }

  datatype PendingSubmit = PendingSubmit(
    id: SubmitId,
    token: TokenId,
    side: OrderSide,
    sizeAtoms: Atoms,
    orderId: Option<OrderId>,
    status: SubmitStatus,
    createdTs: int,
    updatedTs: int)

  datatype TradeStatus = Matched | Mined | Confirmed | Failed | Retrying | Other {
    predicate Terminal() {
      Confirmed? || Failed?
    }

    predicate Applies() {
      Matched? || Confirmed?
    }
  }

  datatype UserTrade = UserTrade(
    tradeId: TradeId,
    token: TokenId,
    takerOrderId: Option<OrderId>,
    side: OrderSide,
    sizeAtoms: Atoms,
    price: int,
    status: TradeStatus,
    ts: int)

  datatype TradeRecord = TradeRecord(
    token: TokenId,
    side: OrderSide,
    sizeAtoms: Atoms,
    applied: bool,
    finalized: bool)

  datatype TradeState = TradeState(
    tradeId: TradeId,
    token: TokenId,
    side: OrderSide,
    sizeAtoms: Atoms,
    status: TradeStatus,
    applied: bool,
    inventoryChanged: bool,
    finalized: bool,
    matchedSubmit: Option<SubmitId>)

  /** The part of the inventory that trades own. */
  datatype Ledger = Ledger(owned: map<TokenId, int>, trades: map<TradeId, TradeRecord>)

  datatype InvState = InvState(
    trusted: bool,
    nextId: nat,
    ledger: Ledger,
    pending: map<SubmitId, PendingSubmit>)

  const EMPTY: InvState := InvState(false, 0, Ledger(map[], map[]), map[])

  const SELL_QUANTUM: int := 10_000

  // ------------------------------------------------------------------ balances

  function OwnedIn(owned: map<TokenId, int>, token: TokenId): int {
    if token in owned then owned[token] else 0
  }

  function OwnedAtoms(s: InvState, token: TokenId): nat {
    Max(OwnedIn(s.ledger.owned, token), 0)
  }

  /** Whole 0.01-share steps of the owned balance. */
  function Sellable(s: InvState, token: TokenId): nat {
    OwnedAtoms(s, token) / SELL_QUANTUM
  }

  function Shifted(balance: int, side: OrderSide, size: Atoms): int {
    match side
    case Buy => SatAdd(balance, size)
    case Sell => Max(SatSub(balance, size), 0)
  }

  function ApplyDelta(owned: map<TokenId, int>, token: TokenId, side: OrderSide, size: Atoms): map<TokenId, int> {
    owned[token := Shifted(OwnedIn(owned, token), side, size)]
  }

  function Opposite(side: OrderSide): OrderSide {
    match side
    case Buy => Sell
    case Sell => Buy
  }

  // ----------------------------------------------------------------- one trade event

  /** The record an event works on: its trade's own, or a fresh one with the event's terms. */
  function RecordFor(l: Ledger, t: UserTrade): TradeRecord {
    if t.tradeId in l.trades then l.trades[t.tradeId]
    else TradeRecord(t.token, t.side, t.sizeAtoms, false, false)
  }

  predicate AppliesNow(l: Ledger, t: UserTrade) {
    t.status.Applies() && !RecordFor(l, t).applied
  }

  predicate ReversesNow(l: Ledger, t: UserTrade) {
    t.status.Failed? && RecordFor(l, t).applied && !RecordFor(l, t).finalized
  }

  predicate ChangesInventory(l: Ledger, t: UserTrade) {
    AppliesNow(l, t) || ReversesNow(l, t)
  }

  function LedgerStep(l: Ledger, t: UserTrade): Ledger {
    var r := RecordFor(l, t);
    var owned :=
      if AppliesNow(l, t) then ApplyDelta(l.owned, r.token, r.side, r.sizeAtoms)
      else if ReversesNow(l, t) then ApplyDelta(l.owned, r.token, Opposite(r.side), r.sizeAtoms)
      else l.owned;
    var r' := r.(applied := r.applied || t.status.Applies(), finalized := r.finalized || t.status.Terminal());
    Ledger(owned, l.trades[t.tradeId := r'])
  }

  // -------------------------------------------------------------- matching a claim

  predicate MatchesByOrder(s: InvState, t: UserTrade, id: SubmitId) {
    && id in s.pending
    && t.takerOrderId.Some?
    && s.pending[id].orderId == t.takerOrderId
    && s.pending[id].status.Matchable()
  }

  predicate MatchesByTokenSide(s: InvState, t: UserTrade, id: SubmitId) {
    && id in s.pending
    && s.pending[id].status.Matchable()
    && s.pending[id].token == t.token
    && s.pending[id].side == t.side
  }

  /** What the two hash-map searches may return: any claim with the trade's order id, else any
      claim with its token and side, else none. */
  ghost predicate MatchAllowed(s: InvState, t: UserTrade, m: Option<SubmitId>) {
    if exists id :: MatchesByOrder(s, t, id) then m.Some? && MatchesByOrder(s, t, m.value)
    else if exists id :: MatchesByTokenSide(s, t, id) then m.Some? && MatchesByTokenSide(s, t, m.value)
    else m.None?
  }

  /** A matched claim is accepted again, takes the order id if it had none, and is touched. */
  function TouchMatched(p: PendingSubmit, t: UserTrade): PendingSubmit {
    p.(status := Accepted,
       orderId := if p.orderId.None? then t.takerOrderId else p.orderId,
       updatedTs := t.ts)
  }

  function PendingAfterTrade(pending: map<SubmitId, PendingSubmit>, t: UserTrade, m: Option<SubmitId>)
    : map<SubmitId, PendingSubmit>
  {
    if m.None? || m.value !in pending then pending
    else if t.status.Terminal() then pending - {m.value}
    else pending[m.value := TouchMatched(pending[m.value], t)]
  }

  function ApplyUserTrade(s: InvState, t: UserTrade, m: Option<SubmitId>): InvState {
    s.(ledger := LedgerStep(s.ledger, t), pending := PendingAfterTrade(s.pending, t, m))
  }

  function TradeReport(s: InvState, t: UserTrade, m: Option<SubmitId>): TradeState {
    var r := LedgerStep(s.ledger, t).trades[t.tradeId];
    TradeState(t.tradeId, r.token, r.side, r.sizeAtoms, t.status, r.applied,
               ChangesInventory(s.ledger, t), r.finalized, m)
  }

  // --------------------------------------------------------------- claim lifecycle

  function NextClaimId(s: InvState): SubmitId {
    if s.nextId + 1 > U64_MAX then U64_MAX else s.nextId + 1
  }

  function ClaimEntry(s: InvState, token: TokenId, side: OrderSide, size: Atoms, now: int): InvState {
    var id := NextClaimId(s);
    s.(nextId := id,
       pending := s.pending[id := PendingSubmit(id, token, side, size, None, Pending, now, now)])
  }

  function MarkAccepted(s: InvState, id: SubmitId, order: OrderId, now: int): InvState {
    if id !in s.pending then s
    else s.(pending := s.pending[id := s.pending[id].(orderId := Some(order), status := Accepted, updatedTs := now)])
  }

  function MarkUnknown(s: InvState, id: SubmitId, now: int): InvState {
    if id !in s.pending then s
    else s.(pending := s.pending[id := s.pending[id].(status := Unknown, updatedTs := now)])
  }

  function ReleaseClaim(s: InvState, id: SubmitId): InvState {
    s.(pending := s.pending - {id})
  }

  predicate StaleUnknown(p: PendingSubmit, cutoff: int) {
    p.status.Unknown? && p.updatedTs <= cutoff
  }

  predicate StalePending(p: PendingSubmit, cutoff: int) {
    p.status.Pending? && p.createdTs <= cutoff
  }

  function ExpireUnknowns(s: InvState, cutoff: int): InvState {
    s.(pending := map id | id in s.pending ::
                    if StaleUnknown(s.pending[id], cutoff) then s.pending[id].(status := ExpiredUnknown)
                    else s.pending[id])
  }

  function ExpirePending(s: InvState, cutoff: int): InvState {
    s.(pending := map id | id in s.pending && !StalePending(s.pending[id], cutoff) :: s.pending[id])
  }

  function ReleaseMarketScope(s: InvState, active: set<TokenId>): InvState {
    s.(ledger := s.ledger.(owned := map t | t in s.ledger.owned && t in active :: s.ledger.owned[t]),
       pending := map id | id in s.pending && s.pending[id].token in active :: s.pending[id])
  }

  /** Entries are blocked while untrusted, while a sellable quantum is owned, and while a
      blocking claim on the token is pending. */
  predicate EntryBlocked(s: InvState, token: TokenId) {
    || !s.trusted
    || OwnedAtoms(s, token) >= SELL_QUANTUM
    || exists id :: id in s.pending && s.pending[id].token == token && s.pending[id].status.BlocksEntry()
  }
}
