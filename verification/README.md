# Verification of the trading runtime's integer core

This project models the venue-facing core of the runtime: the WSS-owned inventory and its claim
protocol, the runtime core that five tasks share under one mutex, BUY and SELL canonicalisation on the
venue's size lattice, the order-book summary, the exit tracker, the entry gates, the signal window, the
strike anchor, calendar and decimal parsing, and the amounts and preimage of a signed order. It proves
what these parts keep, over every input and every interleaving.

## How it is organised

Each mutable structure of the program is a class whose methods change the same fields by the same
steps; each method is proved equal to a function of the old state, and everything below about whole runs
is proved about those functions.

| part | modules |
|---|---|
| shared | `Wrappers`, `MachineInt`, `VenueTypes`, `Text` |
| inventory | `InventorySpec`, `Inventory`, `Conservation`, `Matching` |
| market data | `OrderBook`, `MarketState` |
| runtime core | `RuntimeSpec`, `Runtime`, `Latency` |
| interleavings | `Protocol`, `ClaimSafety`, `BlockingClaims`, `Bindings`, `NaiveExclusivity`, `ExitSafety`, `ExitValue`, `Tracking`, `StrikeSafety`, `StaleStrike`, `SystemBalance`, `RunLatency`, `Projections` |
| orders | `Lattice`, `Orders`, `CeilingCost`, `Signing`, `EntryChain` |
| signal, entry and strike | `Signal`, `SignalRules`, `OrderFlow`, `EntryRule`, `Anchor` |
| parsing | `Decimal`, `Calendar` |

Because every task works on the core and on the anchor only inside short lock scopes, the concurrent
program is a step system (`Protocol`): anchor tick, tick with claim, failed preparation, HTTP outcome,
user trade, exit pass, maintenance, rotation, setting the anchor's target, trust change and market data.
One callback gives each sample to the anchor and then to the engine; a rotation leaves a held market no
earlier than its deadline and only for the market that starts where the held one ends. Otherwise a run is
any sequence of enabled steps, with arbitrary samples and timestamps, arbitrary answers of the normal
model and arbitrary duplication and reordering of trade events.

## The main results

- **Claims.** In every reachable state at most one claim per token has never expired, and it blocks
  entry (`EveryStateSafe`). Between two claims on a token the first was lost to one
  of six listed causes, or to the claim counter reaching its 64-bit end (`ClaimsAreSeparated`); the two
  time-outs come no earlier than 5 s and 60 s (`UnknownExpiryIsLate`, `PendingExpiryIsLate`); and only a
  late trade revives an expired claim (`RevivalOnlyByTrade`). No token ever has two blocking claims if
  and only if no trade revives an expired claim beside a blocking one (`OneBlockingExactlyWhen`).
- **Entries.** A tick enters, on either side, if and only if sample, market, window, prices, probability,
  edge, exposure and gates all allow exactly that intent (`EntryExactlyWhen`, `ClaimEntersProperly`), and the
  rule treats the sides alike (`MirroredIntent`); the order flow it reads telescopes to what the bid size
  gained less what the ask size gained (`FlowTelescopes`). No claim is made while the average of the round
  trips reported so far is over its ceiling (`NoClaimAboveCeiling`). Between the last rotation and any claim the anchor resolved the strike in use
  (`ClaimNeedsAnchor`), from known samples for a known market (`StrikeProvenance`), which is the active one
  whenever markets last longer than the anchor's late limit and the rotation's lead together
  (`StrikeIsOfActiveMarket`), and no claim is made against its own exit pressure (`ClaimIsNotOpposed`).
- **Balances.** Over every interleaving, what is owned is the running signed sum of the effective trade
  deltas, lifted by however far it ever fell below zero, and that sum is the sum over trades of a closed
  form of each trade's own history (`SystemConservation`, `LifecycleClosedForm`).
- **Order sizes.** The BUY answer is optimal over the whole infinite lattice (`BandOptimality`,
  `PreferenceOrder`) within the documented overrun (`AllowedMaximum`), is refused only in two stated cases (`RejectedExactlyWhen`) and is within one
  lattice step of its target (`NotionalBound`); the ceiling it prefers is the least cost that reaches the
  target exactly under a stated condition (`CeilingIsLeastCostExactlyWhen`); from the entry signal to the signed body no intent of a
  validated configuration is lost or repriced (`IntentBecomesExactOrder`).
- **Order book.** The streaming four-slot buffer is the best four of the aggregated whole book, whatever
  the arrival order, and its BUY cutoff is the whole book's (`TopFourOfWholeInput`,
  `ArrivalOrderIrrelevant`, `CutoffAgainstRawQuotes`).
- **Exits.** Every decision rests on the fair price and the pressure of its own token's side
  (`DecisionReadsItsSide`), and a side worth more than bid and edge is kept while nothing presses against it
  (`FairlyHeldIsKept`). Sellable positions stay tracked, with the one way this breaks stated exactly; a tracker's
  peak is the exact maximum of what was seen since the fill; a supported position is never sold
  (`StepKeepsTracking`, `PeakIsExact`, `SupportedNeverSold`).
- **Bytes and text.** The signed preimage decodes back to its order and only preimages decode; decimal
  parsing never rounds, and is exact exactly when the value fits; the day formula is the counted
  Gregorian calendar.

## Where the expected statement is false

The code is modelled as it is. Each failure is proved, and the exact condition under which the
expectation holds is a lemma beside it.

- Two blocking claims can stand on one token: a late trade revives an expired claim next to its successor
  (`RevivedClaimsCoexist`, a run of eighteen steps from start-up). The condition, for a step and for whole
  runs: `StepKeepsOneExactlyWhen`, `OneBlockingExactlyWhen`.
- A replayed CONFIRMED can remove a fresh claim (`ReplayCanDropFreshClaim`) and a replayed MATCHED can
  accept one (`ReplayCanAcceptAnotherClaim`). The conditions: `TerminalKeepsClaimsExactlyWhen`,
  `NonTerminalKeepsClaimsExactlyWhen`. Balances and trade records are idempotent, however late the replay
  (`ReplayIsIdempotent`).
- A FAILED that arrives before its MATCHED is forgotten (`FailedBeforeMatchedSticks`; what any history
  leaves is `LifecycleClosedForm`), and a SELL that clamped at zero is credited back in full when it fails
  (`FailureRestoresExactlyWhen`, both directions).
- After a SELL that cleared the position fails, the shares return but the tracker does not, and no exit
  pass sells them until the next BUY fill (`FailedSellIsStranded`). Tracking breaks in exactly that way
  (`StepKeepsTracking`).
- The preferred ceiling is not always the least lattice cost that reaches the target: 16 ticks and 101
  cents give 102 cents although 101 is on the lattice (`CeilingIsNotTheNearestCost`). The condition is
  `CeilingIsLeastCostExactlyWhen`, and it always holds at prices that 8 does not divide
  (`CeilingIsLeastCostOffEights`).
- The documentation of `canonical_buy_target_for_notional` says a BUY is rejected when no size satisfies
  the risk band (src/orders.rs:95-96); the code then accepts the ceiling (src/orders.rs:171-178): 198
  cents for a target of 100 (`OrdersOutsideTheBand`). It meets the rule exactly under
  `DocumentedRuleExactlyWhen`.
- The price that fills an entry can drop when the notional grows past the kept depth (`BuyCutoffCanDrop`;
  the condition is `BuyCutoffMonotoneExactlyWhen`).
- A strike can be resolved for the market a rotation has just left, when the anchor answers between the
  rotation and the new target. Some run does that for a market if and only if the market's end, less the
  five seconds of the rotation's lead, comes within the 30.3 s the anchor may take from the window's start,
  give or take how far a sample's stamp lags behind the rotation's (`StaleAnswerExactlyWhen`); with longer
  markets it cannot happen (`StrikeIsOfActiveMarket`).
- The two decimal parsers agree on numerals but not on every text (`ParsersDisagreeOffNumerals`; the
  condition, on all trimmed text, is `ParsersAgreeExactlyWhen`).

## Model

| member | source | states |
|---|---|---|
| `Inventory.Inventory.constructor` | src/inventory.rs:155-157 | a new inventory is untrusted and owns, records and claims nothing |
| `Inventory.Inventory.SetUserWssTrusted` | src/inventory.rs:159-161 | changes the trust flag and nothing else |
| `Inventory.Inventory.ClaimEntry` | src/inventory.rs:163-184 | the next saturating id gets a Pending claim stamped twice with the current time; all else is unchanged |
| `Inventory.Inventory.MarkSubmitAccepted` | src/inventory.rs:186-192 | a live claim takes the order id, is accepted and touched; a vanished one is ignored |
| `Inventory.Inventory.MarkSubmitUnknown` | src/inventory.rs:194-199 | a live claim becomes uncertain and is touched; a vanished one is ignored |
| `Inventory.Inventory.ReleaseClaim` | src/inventory.rs:203-205 | removes exactly that claim |
| `Inventory.Inventory.ExpireUnknowns` | src/inventory.rs:207-213 | whatever order the map is walked in, exactly the Unknown claims at or before the cutoff become ExpiredUnknown, keeping their times |
| `Inventory.Inventory.ExpirePending` | src/inventory.rs:233-237 | drops exactly the Pending claims created at or before the cutoff |
| `Inventory.Inventory.MatchPendingSubmit` | src/inventory.rs:361-386 | finds some claim with the trade's order id, else some claim with its token and side, else none, for any iteration order; the one found is accepted, bound and touched |
| `Inventory.Inventory.ApplyUserTrade` | src/inventory.rs:239-310 | one trade event: match, drop the claim on a terminal status, apply the opening terms once, reverse once before finality; the report says whether the balance moved |
| `Inventory.Inventory.SettleTrade` | src/inventory.rs:253-297 | the trade's record is opened by its first event and then applies at most once, reverses at most once before finality, and remembers both |
| `Inventory.Inventory.ApplyInventoryDelta` | src/inventory.rs:389-400 | BUY adds saturating at 64 bits, SELL subtracts and clamps at zero, other tokens unchanged |
| `Inventory.Inventory.Position` | src/inventory.rs:312-331 | a position exists exactly while something is owned, and shows whole 0.01-share steps |
| `Inventory.Inventory.HasEntryExposureOrPending` | src/inventory.rs:333-345 | blocked exactly when untrusted, or a sellable quantum is owned, or a blocking claim is on the token |
| `Inventory.Inventory.ReleaseMarketScope` | src/inventory.rs:347-355 | keeps balances and claims of the active tokens only, and every trade record |
| `Conservation.LowestIsLeastPrefix` | src/inventory.rs:389-400 | the recursive least prefix is attained by some prefix sum and below every other |
| `Conservation.StepBalance` | src/inventory.rs:264-297 | one event moves a balance by its signed delta, clamped at zero below |
| `Conservation.ClampedConservation` | src/inventory.rs:264-297 | after any history of events, duplicated, reordered or failed, the balance is the running sum lifted by however far its least prefix fell below zero |
| `Conservation.UnclampedExactlyWhen` | src/inventory.rs:389-400 | the balance is the plain sum if and only if no prefix goes below zero |
| `Conservation.RecordMatchesHistory` | src/inventory.rs:253-297 | a trade's record is its opening event's terms with exactly whether it ever applied and was ever terminal |
| `Conservation.LifecycleClosedForm` | src/inventory.rs:239-310 | a trade's net effect is its opening size if it applied and its first terminal status is not a FAILED after that, else nothing; it changes the inventory at most twice |
| `Conservation.DeltaIsContributionChange` | src/inventory.rs:264-297 | an event asks of the balance exactly the change of its own trade's closed form |
| `Conservation.LiveAppend` | src/inventory.rs:264-297 | a trade's effect switches on with its first apply and off with a FAILED that is the first terminal status after it, and by nothing else |
| `Conservation.SumIsTotalOfTrades` | src/inventory.rs:239-310 | the running sum on a token is the sum, over the trades opened on it, of their closed forms |
| `Conservation.BuyOnlyBalance` | src/inventory.rs:264-297 | with only BUY trades on a token, the balance is exactly the sum of the live sizes |
| `Conservation.ReplayIsIdempotent` | src/inventory.rs:253-297 | an event delivered again, at once or after any other events of any trades, changes neither a balance nor a trade record |
| `Conservation.SettledStays` | src/inventory.rs:271-297 | no later event takes back that a trade was applied or finalised |
| `Conservation.TerminalKeepsClaimsExactlyWhen` | src/inventory.rs:240-251 | in any state a terminal event, replayed or not, leaves the claims alone whatever it is matched to if and only if no claim can match it by order id or by token and side |
| `Conservation.ReplayCanDropFreshClaim` | src/inventory.rs:240-251 | a concrete replayed CONFIRMED that removes a fresh Pending claim |
| `Conservation.NonTerminalKeepsClaimsExactlyWhen` | src/inventory.rs:361-386 | a non-terminal event leaves the claims alone, whichever it is matched to, if and only if every claim it may match is accepted, bound as far as the event binds and stamped with its time |
| `Conservation.ReplayHarmlessWhenAlone` | src/inventory.rs:361-386 | a redelivered non-terminal event leaves the claims alone when no other claim can match it |
| `Conservation.ReplayCanAcceptAnotherClaim` | src/inventory.rs:361-386 | a concrete replayed MATCHED without order id that accepts a fresh claim |
| `Conservation.FailureRestoresExactlyWhen` | src/inventory.rs:282-293 | MATCHED then FAILED restores the balance if and only if nothing saturated or clamped; a clamped SELL comes back in full |
| `Conservation.FailedBeforeMatchedSticks` | src/inventory.rs:271-297 | FAILED, MATCHED, FAILED leaves the BUY applied |
| `Matching.MatchFoundExactlyWhen` | src/inventory.rs:361-386 | a match is found if and only if a claim in any status has the order id or the token and side, and the order id is preferred |
| `Matching.SomeMatchIsAllowed` | src/inventory.rs:361-386 | every trade event can be taken in every state |
| `Matching.AcceptedThenTrade` | src/inventory.rs:186-192 | a trade that follows the acceptance of its order finds exactly that claim |
| `Matching.TradeBeforeOutcome` | src/inventory.rs:361-386 | a trade that overtakes its HTTP outcome finds the claim through token and side, even an expired one, binds it and makes the token blocked |
| `Matching.UnknownKeepsBinding` | src/inventory.rs:194-199 | after an uncertain outcome a trade of the claim's order still finds it |
| `Bindings.BindingStep` | src/inventory.rs:186-199 | a claim that stays keeps its order id through every step but an acceptance of its own |
| `Bindings.BindingSticks` | src/inventory.rs:186-199 | the same over any stretch of a run |
| `Matching.BoundUntilTerminal` | src/inventory.rs:239-251 | a claim bound to a unique order blocks through every non-terminal event of that order and goes with the terminal one, other claims untouched |
| `Matching.LateOutcomeIsHarmless` | src/inventory.rs:186-205 | an outcome never moves a balance; on a vanished claim it does nothing, and a non-rejecting one keeps a live claim blocking |
| `OrderBook.BookDepth.Empty` | src/state.rs:27-31 | four empty slots, valid for either side |
| `OrderBook.BookDepth.Insert` | src/state.rs:62-86 | in place: the slots become the four best of the ladder with the level added, its size merged into an equal price, order kept |
| `OrderBook.BookDepth.ShiftIn` | src/state.rs:79-82 | worse slots move down one place and the last falls out |
| `OrderBook.BookDepth.BestPrice` | src/state.rs:43-45 | the price of the best level, if any |
| `OrderBook.BookDepth.CutoffForBuyCents` | src/state.rs:47-60 | the slot loop is the walk over the kept ladder; none for a non-positive target |
| `OrderBook.FromLevels` | src/state.rs:33-41 | streaming through four slots gives the first four levels of the whole aggregated book |
| `OrderBook.TruncationCommutes` | src/state.rs:62-86 | forgetting all but the n best before adding a level loses nothing of the n best after |
| `OrderBook.WholeBookIsAggregate` | src/state.rs:33-41 | the whole book is exactly the quoted prices, once each, in strict order, with the saturated sum of all positive sizes |
| `OrderBook.BestFirst` | src/state.rs:62-86 | bids run from the highest price down, asks from the lowest up, and no quoted price lies beyond the first |
| `OrderBook.TopFourOfWholeInput` | src/state.rs:33-41 | the buffer holds the four best distinct prices of the input with their full totals; any quoted price not held is worse than all four |
| `OrderBook.ArrivalOrderIrrelevant` | src/state.rs:33-41 | any permutation of the input gives the same book |
| `OrderBook.EvictedNeverReturns` | src/state.rs:62-86 | a price never moves up the ladder, so one pushed out of the best four stays out |
| `OrderBook.CutoffOfWholeBook` | src/state.rs:47-60 | a cutoff found in the kept levels is the cutoff of the whole ladder |
| `OrderBook.AggregationConservesCost` | src/market.rs:219-233 | below any price the aggregated ladder costs what the raw quotes cost |
| `OrderBook.WalkStops` | src/state.rs:47-60 | the walk stops at the price below which cost is under target and up to which it reaches it; it finds none only when the whole ladder costs less |
| `OrderBook.CutoffAgainstRawQuotes` | src/state.rs:47-60 | the buffer's cutoff is a quoted price, equals the full-book walk, and brackets the target between raw costs |
| `OrderBook.CutoffMonotone` | src/state.rs:47-60 | a larger target never has a cheaper cutoff, nor one where a smaller has none |
| `OrderBook.WalkFindsExactlyWhen` | src/state.rs:47-60 | a cutoff exists if and only if the kept levels together cost the target |
| `OrderBook.WalkStopsAtBestExactlyWhen` | src/state.rs:47-60 | the cutoff is the best price if and only if the best level alone costs the target |
| `OrderBook.BestBookPrice` | src/market.rs:235-253 | the scan returns a quoted price no positive-size level beats, and none exactly when no size is positive |
| `OrderBook.BestPricesAgree` | src/market.rs:153-168 | the scan's answer is the buffer's best level, on either side |
| `MarketState.OldestSince` | src/state.rs:150-155 | the first sample at or after the cutoff, none exactly when all are older |
| `MarketState.RuntimeState.constructor` | src/state.rs:166-173 | no market, no quotes, not trading |
| `MarketState.RuntimeState.SetMarketContext` | src/state.rs:175-180 | a new market starts active with empty quotes and history |
| `MarketState.RuntimeState.MarkMarketInactive` | src/state.rs:190-194 | trading stops and quotes and history are cleared, the market is kept |
| `MarketState.RuntimeState.PushSample` | src/state.rs:142-147 | the eviction loop leaves the newest 64 samples, other tokens unchanged |
| `MarketState.RuntimeState.UpdateQuoteWithDepth` | src/state.rs:226-258 | a quote is taken exactly for an active token while trading, and then becomes sample and current quote |
| `MarketState.RuntimeState.ApplyMarketEvents` | src/market.rs:55-113 | applies a batch in order, counts the quotes taken, and stops trading only on the active market's own resolution |
| `MarketState.RingIsNewestHistory` | src/state.rs:142-147 | over every run a token's ring is exactly its newest 64 samples since its market started, its quote is the newest of them, and only active tokens are quoted |
| `MarketState.TradesExactlyWhen` | src/state.rs:175-194 | after any feed the market is that of the last rotation and trades exactly until its own condition is resolved |
| `MarketState.NothingBeforeRotation` | src/state.rs:166-173 | before the first rotation no market data leaves a trace |
| `MarketState.CountExactly` | src/market.rs:55-113 | a batch reports exactly as many updates as it has quotes of the two tokens before an event that ends the trading |
| `Runtime.RuntimeCore.constructor` | src/runtime.rs:205-228 | a new core: empty market state and inventory, no trackers, no average |
| `Runtime.RuntimeCore.RecordRtt` | src/runtime.rs:276-289 | folds one round trip into the average; a non-positive one is ignored |
| `Runtime.RuntimeCore.EntryGate` | src/runtime.rs:312-367 | the gates in order: round-trip ceiling, drift up, drift down, edge |
| `Runtime.RuntimeCore.MeasureDrift` | src/runtime.rs:324-333 | current ask against the oldest in-window ask, with the span; none when any is missing |
| `Runtime.RuntimeCore.EdgeCheck` | src/runtime.rs:343-365 | whether the edge is under the saturating ceiling of the expected drift plus the clean floor |
| `Runtime.RuntimeCore.FeedEngine` | src/runtime.rs:562-589 | outside an active market quoted on both sides the sample is only pushed, stamped with its own time; inside it is pushed as received and decided on |
| `Runtime.RuntimeCore.CurrentAsk` | src/state.rs:265-268 | the ask of an active token's quote |
| `Runtime.RuntimeCore.CurrentBid` | src/state.rs:265-268 | the bid of an active token's quote |
| `Runtime.RuntimeCore.OnBinanceSample` | src/runtime.rs:250-272 | the sample reaches the engine whatever the market; its intent passes exactly without exposure and without a gate |
| `Runtime.RuntimeCore.TickAndClaim` | src/main.rs:382-418 | decision and claim are one critical section; a dry run decides but never claims |
| `Runtime.RuntimeCore.RecordBuySubmitOutcome` | src/runtime.rs:625-644 | the three-way outcome marks, doubts or releases its claim, and the round trip is folded in |
| `Runtime.RuntimeCore.ExpireStaleEntryClaims` | src/runtime.rs:646-649 | expires Unknown claims after 5 s and Pending ones after 60 s |
| `Runtime.RuntimeCore.ApplyUserTrade` | src/runtime.rs:374-389 | inventory first, then the exit tracker, from the inventory's own report |
| `Runtime.RuntimeCore.TrackUserTradeForExit` | src/runtime.rs:391-422 | an applied sellable BUY restarts the tracker, a SELL that clears drops it, anything else leaves it |
| `Runtime.RuntimeCore.PlanSell` | src/runtime.rs:656-678 | a plan for everything sellable at the bid less the concession, at least one tick, when tradeable |
| `Runtime.RuntimeCore.PlanExitForToken` | src/runtime.rs:443-515 | one token of a pass: drop or raise the tracker, then the branch tree of reasons, then the plan |
| `Runtime.RuntimeCore.ReadHeldSide` | src/runtime.rs:455-462 | fair value and pressure of a side, read from the engine with the market's remaining time |
| `Runtime.RuntimeCore.PlanExits` | src/runtime.rs:428-517 | the pass over YES then NO: new trackers and the list of decisions |
| `Runtime.RuntimeCore.SetStrike` | src/main.rs:359-363 | a resolved anchor sets the strike and empties the window |
| `Runtime.RuntimeCore.RotateTo` | src/main.rs:1125-1127 | releases the old scope, keeps active trackers, clears strike and window and installs the market, in one critical section |
| `Protocol.TickIsOneSection` | src/main.rs:382-418 | an enabled tick of the step system is the core's one critical section, decision and claim together |
| `Protocol.RotationExactlyWhen` | src/main.rs:1056-1086 | a rotation can come exactly when the target has caught up, to any market at first, later when due and to the other market that starts where the held one ends |
| `Latency.FoldBetween` | src/runtime.rs:276-289 | a fold lies between average and sample, is still exactly within the dead band of eight, and stays seven short from below |
| `Latency.AverageWithinSamples` | src/runtime.rs:276-289 | the average is zero exactly until the first positive sample, then within the least and greatest seen |
| `Latency.ConstantInputSettles` | src/runtime.rs:276-289 | a constant round trip r settles for good in r-7 to r, exactly at r from above |
| `Latency.EdgeCheckExact` | src/runtime.rs:343-365 | without overflow the check blocks if and only if (edge - clean) * dt * 10000 is less than the drift times round trip times safety |
| `EntryRule.EdgeCheckExactlyWhen` | src/runtime.rs:343-365 | for all inputs, saturating ones too: the check is off without safety, average or span, else it blocks exactly under the cross-multiplied inequality of the capped products |
| `EntryRule.GatesOpenExactlyWhen` | src/runtime.rs:312-367 | no gate blocks if and only if the average is under a positive ceiling and a measured drift is inside both bounds and covered by the edge |
| `Latency.DriftIsOverHistory` | src/runtime.rs:324-333 | the measured drift is the newest sample's ask less that of the oldest in-window sample among the newest 64, over their true span |
| `Latency.DriftMeasuredExactlyWhen` | src/runtime.rs:324-333 | a drift is measured if and only if the newest sample and the oldest in-window one among the newest 64 have an ask |
| `RunLatency.AverageIsOfReports` | src/main.rs:466-483 | in every state of every run the average is the fold of exactly the round trips the submit tasks reported so far, in order |
| `RunLatency.NoClaimAboveCeiling` | src/runtime.rs:312-321 | over every run no claim is made while that average is over a positive ceiling |
| `RunLatency.SlowStartBlocks` | src/runtime.rs:312-321 | while every report so far was over the ceiling, and there was one, nothing is claimed |
| `EntryRule.EntryExactlyWhen` | src/runtime.rs:562-594 | a tick enters with this intent if and only if the active market is quoted on both sides, the sample is clean and not late, the window, prices, time and probability fit the intent, nothing is exposed and no gate blocks |
| `EntryRule.ClaimEntersProperly` | src/main.rs:382-418 | over runs, all of that held at every claiming tick for the intent claimed |
| `Projections.MarketIsOfFeed` | src/market.rs:55-113 | in every state of every run the market view is what the market data and rotations so far make of it |
| `Projections.EngineIsOfInputs` | src/main.rs:359-363 | in every state of every run the engine is what the samples, answers and rotations so far make of it |
| `Projections.AnchorIsOfInputs` | src/main.rs:347-358 | in every state of every run the anchor is what the samples and targets so far make of it |
| `Projections.TasksAccounted` | src/main.rs:420-483 | in every state of every run the open tasks of a claim id are the claims made under it less the reports made on it, so every claim is reported on at most once |
| `ClaimSafety.ClaimGuard` | src/runtime.rs:590-593 | a live tick claims if and only if the feed is trusted, the active market is quoted on both sides, nothing sellable is owned, no claim on the token blocks and no gate does |
| `ClaimSafety.StepSafe` | src/main.rs:382-418 | every enabled step of every task keeps: at most one never-expired claim per token, it blocks, claims and tasks correspond |
| `ClaimSafety.EveryStateSafe` | src/inventory.rs:163-237 | that invariant in every state of every run |
| `ClaimSafety.LossExactlyByCause` | src/inventory.rs:203-237 | a never-expired claim is lost exactly by failed preparation, rejection, its terminal trade, either time-out, or rotation; the only other way is the id counter at its 64-bit end |
| `ClaimSafety.ClaimsAreSeparated` | src/runtime.rs:590-593 | between two claims on a token there is a step at which the first is lost for one of those causes |
| `ClaimSafety.LastTouch` | src/inventory.rs:186-213 | every claim's status and time are those of the last step that touched it |
| `ClaimSafety.UnknownExpiryIsLate` | src/runtime.rs:646-649 | a claim expires only 5 s or more after its Unknown outcome, with no trade matched since |
| `ClaimSafety.PendingExpiryIsLate` | src/runtime.rs:646-649 | a claim is swept only 60 s or more after it was made, with no outcome and no trade in between |
| `ClaimSafety.RevivalOnlyByTrade` | src/inventory.rs:376-384 | an expired claim blocks again only through a trade event that matched it |
| `BlockingClaims.TradeKeepsOneExactlyWhen` | src/inventory.rs:361-386 | a trade event keeps at most one blocking claim per token if and only if it does not revive an expired claim beside another blocking one |
| `BlockingClaims.StepKeepsOneExactlyWhen` | src/inventory.rs:376-384 | every other step keeps it, so that is the only way, while the claim counter has not reached its end |
| `BlockingClaims.OneBlockingExactlyWhen` | src/inventory.rs:333-345 | over any run no token ever has two blocking claims if and only if no trade event revives an expired claim beside a blocking one |
| `NaiveExclusivity.RevivedClaimsCoexist` | src/inventory.rs:376-384 | a run from start-up, through rotation, anchoring, quotes and samples, that ends with two blocking claims on one token |
| `StrikeSafety.EngineAlwaysSound` | src/signal.rs:112-153 | in every state of every run of the system the window is chronological and within capacity |
| `StrikeSafety.StrikeComesFromAnchor` | src/main.rs:359-363 | every strike in force was resolved by the anchor at a known step, with no rotation and no other answer since |
| `StrikeSafety.TargetOrigin` | src/main.rs:1141-1156 | a pending target was set at a known step from the market of that moment, which is still the active one if and only if no rotation came since |
| `StrikeSafety.StrikeProvenance` | src/anchor.rs:107-151 | the strike in force is what the anchor gave for a known market, which is the active one if and only if no rotation fell between setting the target and resolving it |
| `StrikeSafety.AlwaysDueNearEnd` | src/main.rs:1119-1123 | in every state of every run the next rotation is due five seconds before the end of the market held, or later |
| `Anchor.IgnoredExactlyWhen` | src/anchor.rs:69-84 | a tick changes nothing if and only if it has no size, no positive price, or is not newer than what was seen |
| `Anchor.MedianIsMiddle` | src/anchor.rs:172-181 | the median is the mean of the two middle samples by rank, which are one for an odd number |
| `Anchor.CountsExactlyWhen` | src/anchor.rs:112-136 | nothing counts past 30.3 s after the window's start; until 1.3 s only its first 300 ms, from then on all samples since its start |
| `Anchor.SelectAppend` | src/anchor.rs:121-136 | the selected prices are those of the samples that count, in order |
| `Anchor.OutcomeExactlyWhen` | src/anchor.rs:138-151 | resolved if and only if three samples count, else pending exactly while the window is open and failed after it |
| `Anchor.ResolvedInTime` | src/anchor.rs:117-119 | a strike is resolved at most thirty seconds after the end of its 300 ms window |
| `StrikeSafety.LeftOnSchedule` | src/main.rs:1056-1071 | a held market is left no earlier than five seconds before its end |
| `StrikeSafety.AnsweredBeforeLeft` | src/main.rs:1056-1071 | a target of a market that outlives its anchor is answered before the next rotation, whatever else interleaves |
| `StrikeSafety.StrikeIsOfActiveMarket` | src/main.rs:1056-1071 | over every run whose markets outlive their anchors, the strike in force was resolved for the market that is active |
| `StaleStrike.StaleAnswerExactlyWhen` | src/main.rs:1125-1156 | for any market that ends after its window starts, any configuration and any clock lag, some run resolves its strike after it was left if and only if its end less the rotation's lead is within the anchor's late limit plus the lag |
| `StrikeSafety.ClaimNeedsAnchor` | src/signal.rs:229-231 | between the last rotation and any claim the anchor resolved the strike the claim used |
| `StrikeSafety.ClaimIsNotOpposed` | src/signal.rs:370-388 | right after any claim of any run the window does not oppose the side bought, so no planning pass of that moment could sell it for its value |
| `ExitSafety.StepKeepsTracking` | src/runtime.rs:391-422 | each step keeps every sellable position tracked, except if and only if a FAILED returns a SELL's shares to an untracked token whose balance plus the returned size reaches a sellable quantum |
| `ExitSafety.AlwaysTracked` | src/runtime.rs:391-422 | sellable implies tracked in every run without such a FAILED |
| `ExitSafety.PassOnToken` | src/runtime.rs:443-466 | a pass drops exactly the active trackers with nothing to sell and raises the peaks of exactly those with a bid |
| `Tracking.BidExactlyWhen` | src/state.rs:265-268 | a bid is that of the token's own quote while the token is one of the active market's two |
| `Tracking.SeenExactlyWhen` | src/runtime.rs:443-466 | a pass sees a bid exactly for a tracked token of which at least a hundredth of a share is owned |
| `Tracking.TrackersAfterTrade` | src/runtime.rs:391-422 | the first fill of a BUY that leaves a sellable quantum starts the tracker from its price, time and the bid of the moment; a fill or take-back of a SELL that leaves less drops it; all else stays |
| `Tracking.ReportExactly` | src/inventory.rs:298-310 | a trade event reports the opening event's terms, whether the trade has applied and is final, and whether this event moved the balance |
| `ExitSafety.PeakIsExact` | src/runtime.rs:400-412 | every tracker of every run comes from the token's last BUY fill, and its peak is exactly the maximum of fill price, entry bid and bids seen since |
| `ExitSafety.KeptExactlyWhen` | src/runtime.rs:472-493 | the exact condition under which nothing is sold, by fair value, pressure, stop and hold time |
| `ExitSafety.ReasonExactlyWhen` | src/runtime.rs:472-493 | each reason, both ways: a stop unless supported, else the drop from an armed peak or the value of an overvalued and opposed position, else the hold time |
| `ExitSafety.PassSellsExactlyWhen` | src/runtime.rs:428-517 | a pass sells a token if and only if it is tracked with a bid, the concession leaves a tradeable limit, and there is a reason |
| `ExitValue.DecisionReadsItsSide` | src/runtime.rs:451-462 | every decision of a pass carries the fair price of its own token's side, the whole ticks of that side's probability, and the pressure against that side |
| `ExitValue.SignalForReads` | src/runtime.rs:451-462 | the signal a sale is decided on is that of the token's side |
| `ExitValue.FairlyHeldIsKept` | src/runtime.rs:472-493 | a position whose side is worth a tick more than bid and edge, and which the current window does not press against, is not sold by the pass |
| `ExitSafety.SupportedNeverSold` | src/runtime.rs:472-493 | a position supported at every planning step of a run is never sold in it |
| `ExitSafety.DecisionIsExplained` | src/runtime.rs:428-517 | every decision of a run names a sellable token, its last fill, its exact peak, the current bid, the full size, and the reason these give |
| `ExitSafety.PlannedSellClears` | src/runtime.rs:656-678 | a planned SELL signs at exactly its limit, never exceeds what is owned, leaves less than one quantum, and its full MATCHED leaves nothing sellable and no tracker |
| `ExitSafety.FailedSellReturns` | src/runtime.rs:416-420 | if a full SELL fill fails the shares return and the tracker does not |
| `ExitSafety.UntrackedUntilFill` | src/runtime.rs:463-465 | over any run an untracked token stays untracked, and is not sold, until its next BUY fill |
| `ExitSafety.FailedSellIsStranded` | src/runtime.rs:463-465 | in a run where a full SELL fill fails, the shares are sellable again, yet no planning pass sells them up to any later state with no BUY fill of the token in between |
| `SystemBalance.QuietStep` | src/main.rs:1088-1128 | a step that is no trade keeps the records and the balance of every token that stays active |
| `SystemBalance.BalanceFollowsTrades` | src/runtime.rs:374-389 | at every point of a run a live token's balance is what its trade events alone produce |
| `SystemBalance.SystemConservation` | src/inventory.rs:264-297 | clamped conservation over every interleaving of the five tasks, with the sum decomposed over trades |
| `Lattice.ComputeGcd` | src/types.rs:314-327 | Euclid's loop returns the common divisor that every common divisor divides, signs ignored |
| `Lattice.GcdIsGreatest` | src/types.rs:314-327 | the recurrence is a common divisor and divisible by every other |
| `Lattice.Bezout` | src/types.rs:314-327 | the gcd is an integer combination of its arguments |
| `Lattice.SizeMultiple` | src/types.rs:335-339 | the multiple times the gcd is 10000, and it lies in 1..10000 |
| `Lattice.GaussDivides` | src/types.rs:329-339 | if 10000 divides price times size, the multiple divides the size |
| `Lattice.LatticeCharacterisation` | src/types.rs:329-339 | for every tradeable price, 10000 divides price times size if and only if the multiple divides the size |
| `Lattice.SnapNeighbours` | src/types.rs:341-360 | floor and ceiling are the lattice points around a non-negative size with none strictly between |
| `Lattice.MakerCentsExactlyOnLattice` | src/types.rs:366-372 | a maker amount exists exactly on the lattice and is then the exact cost |
| `Orders.NeverPanics` | src/orders.rs:108-139 | when the price of the covering size and the allowed maximum fit 64 bits, no checked or unchecked step overflows |
| `Orders.FittingTargetIsAffordable` | src/orders.rs:108-139 | that is so at every price for every target whose ten-thousandfold fits with room for rounding |
| `Orders.NeighbourCosts` | src/orders.rs:114-134 | both neighbours cost whole cents, on either side of the target, each within one lattice step of it |
| `Orders.NotionalBound` | src/orders.rs:100-188 | a target that reaches both minima is never refused, and its cost is within one lattice step, at most 99 cents, of it |
| `Orders.RejectedExactlyWhen` | src/orders.rs:121-188 | refused if and only if the raw size is under the minimum or the least covering size costs less than the minimum, with the matching error |
| `Orders.AllowedMaximum` | src/orders.rs:135-139 | for every input a cost is within the allowed maximum if and only if it is at most the absolute overrun, or at most the basis points of the target, above it |
| `Orders.OverrunInBasisPoints` | src/orders.rs:98-99 | two percent of 250 cents allow 255, so at 99 ticks 297 is refused and 198 ordered |
| `Orders.BandOptimality` | src/orders.rs:137-178 | the answer is within the documented overrun if and only if some size of the infinite lattice is and the ceiling meets the minimum; an answer outside means none is |
| `Orders.InBandWheneverPossible` | src/orders.rs:137-178 | with the minimum not above the target, the answer is within the documented overrun if and only if any lattice size is |
| `Orders.NeighboursSuffice` | src/orders.rs:129-169 | if any lattice size is in the band, one of the two neighbours is |
| `Orders.PreferenceOrder` | src/orders.rs:149-178 | least covering size when one is in the band, else the greatest below when any is, else the least covering size |
| `Orders.AnswerIsNeighbour` | src/orders.rs:149-178 | every answer is a neighbour of the raw size, venue-valid, and meets both minima |
| `Orders.BandReachableExactlyWhen` | src/orders.rs:107-131 | some size of the infinite lattice is in the band if and only if the most steps that stay within the allowed maximum cost the maker minimum and reach the minimum size |
| `Orders.PriceRefusedExactlyWhen` | src/orders.rs:103-106 | a price is refused as out of range exactly outside 1..99 ticks |
| `Orders.DocumentedRuleExactlyWhen` | src/orders.rs:95-96 | the documented rejection outside the band is met if and only if those steps fit the band, the raw size is under the minimum or the covering size costs less than the minimum |
| `Orders.OrdersOutsideTheBand` | src/orders.rs:171-178 | at 99 ticks a 100-cent target with a cent of overrun gives 198 cents although nothing costs 100 or 101 |
| `CeilingCost.LatticeCosts` | src/types.rs:329-339 | the costs on the lattice are exactly the multiples of one step's cost |
| `CeilingCost.CeilingIsLeastCostExactlyWhen` | src/orders.rs:118-131 | the ceiling costs the least that reaches the target if and only if the least covering number of lattice steps also reaches the rounded raw size |
| `CeilingCost.WholeHundredthsExactlyWhen` | src/types.rs:335-339 | the size multiple is whole hundredths of a share if and only if 8 does not divide the price |
| `CeilingCost.CeilingIsLeastCostOffEights` | src/orders.rs:118-131 | at every price that 8 does not divide the ceiling costs the least that reaches the target |
| `CeilingCost.CeilingIsNotTheNearestCost` | src/orders.rs:149-158 | at 16 ticks a 101-cent target gives 102 cents although 101 is venue-valid |
| `Orders.SmallestTrade` | src/config.rs:142-148 | a dollar is accepted and ordered, 99 cents are not accepted |
| `Orders.PolicyRawSize` | src/config.rs:435-443 | under the policy of a validated configuration the raw size reaches the minimum size |
| `Orders.ValidatedConfigOrdersExactlyWhen` | src/config.rs:142-148 | for any validated notional on which the arithmetic does not overflow, an order comes out if and only if the covering size has a 64-bit price or the size below it has one in the band |
| `Orders.CanonicalSell` | src/orders.rs:198-201 | the price passes through and the size is the greatest number of 0.01-share steps within the raw size |
| `Signing.PadLeft` | src/signing.rs:518-540 | a short word is left-padded with zeros to 32 bytes |
| `Signing.U64Word` | src/signing.rs:518-522 | the padded native bytes are the uint256 encoding |
| `Signing.U128Word` | src/signing.rs:524-528 | the padded native bytes are the uint256 encoding |
| `Signing.ByteWord` | src/signing.rs:530-534 | the padded byte is the uint256 encoding |
| `Signing.AddressWord` | src/signing.rs:536-540 | a padded address is the uint256 encoding of the number it reads as |
| `Signing.FillBuffer` | src/signing.rs:195-217 | the words in order, nothing between them |
| `Signing.StructHashPreimage` | src/signing.rs:190-220 | the buffer is the twelve 32-byte words that encodeData of EIP-712 prescribes |
| `Signing.WordsFollowTypeString` | src/signing.rs:64-68 | the words after the type hash are the encoded members in the order of the type string |
| `Signing.PreimageDecodes` | src/signing.rs:190-220 | the preimage reads back as the order it was made from |
| `Signing.DecodedIsPreimage` | src/signing.rs:190-220 | a buffer that reads back as an order is that order's preimage |
| `Signing.PreimageInjective` | src/signing.rs:190-220 | distinct orders or type hashes never share a preimage |
| `Signing.SignedBuyIsExact` | src/signing.rs:291-320 | a canonical BUY signs exactly when it costs something, at exactly its limit price and for exactly its cents |
| `Signing.SignedSellIsExact` | src/signing.rs:324-355 | a SELL signs exactly when its size is positive, at exactly its limit price |
| `EntryChain.IntentBecomesExactOrder` | src/runtime.rs:603-623 | an entry intent under a validated configuration canonicalises, signs at its own limit, costs at least the venue floor and is within one lattice step of the notional |
| `MachineInt.SaturatesToNearest` | src/runtime.rs:276-289 | saturating gives a 64-bit value to which none is nearer |
| `Text.IntegersReadBack` | src/types.rs:388-392 | a shown integer reads back if and only if it fits 64 bits, sign included |
| `Text.WhiteSpaceTable` | src/types.rs:374-375 | what trimming removes is the Unicode White_Space property, its twenty-five characters |
| `Text.BlanksComeOff` | src/types.rs:374-378 | trimming takes off exactly the blanks around a text |
| `Decimal.DecimalScaleDigits` | src/types.rs:411-422 | the division loop returns k exactly for ten to the k |
| `Decimal.ParseScaled` | src/types.rs:374-409 | the parser with its loops is the parsing function |
| `Decimal.ParseParts` | src/types.rs:388-408 | sign, whole digits and fraction put together, or none on bad digits, excess precision or overflow |
| `Decimal.PadFraction` | src/types.rs:397-402 | the fraction is cut or zero-padded to exactly the digits of the scale |
| `Decimal.NeverRounds` | src/types.rs:374-409 | on every numeral whose scaled value fits the parser returns n if and only if value times scale is the integer n |
| `Decimal.AnswerIsExactExactlyWhen` | src/types.rs:408-408 | on every numeral with nothing to cut and a whole part that fits, an answer is given, and it is the scaled value if and only if that fits 64 bits; else the last addition has wrapped |
| `Decimal.NothingToRead` | src/types.rs:374-378 | blank text or a scale that is not positive reads as nothing |
| `Decimal.OverflowFails` | src/types.rs:408-408 | a whole part whose scaled value leaves 64 bits fails |
| `Decimal.PriceAcceptedExactlyWhen` | src/types.rs:61-68 | a numeral is a price if and only if its value is a whole number of cents in 1..99 |
| `Decimal.CentsParsersAgree` | src/config.rs:583-616 | on numerals in range the configuration's parser is the scaled parser at 100 |
| `Decimal.ParsersAgreeExactlyWhen` | src/config.rs:583-616 | on all trimmed text the two parsers agree, except exactly for a readable whole part with a lone sign after the dot, or one whose hundredfold leaves 64 bits with a readable fraction |
| `Decimal.FittedRatio` | src/types.rs:394-402 | cutting or padding the fraction to the scale's digits scales the number exactly when no non-zero digit is cut |
| `Decimal.ExcessPrecision` | src/types.rs:394-396 | with a non-zero digit past the scale no integer is the scaled value |
| `Decimal.CentsFraction` | src/config.rs:601-614 | the four fraction lengths distinguished are the fraction fitted to two digits |
| `Decimal.ShownForm` | src/types.rs:133-145 | a minus sign exactly for a negative amount, and one dot, before two digits |
| `Decimal.DisplayedCentsReadBack` | src/types.rs:133-145 | a displayed amount reads back as itself through both parsers |
| `Decimal.ParsersDisagreeOffNumerals` | src/config.rs:583-616 | one dollar, dot, plus sign: refused by one parser, read as a dollar by the other |
| `Calendar.FormulaCountsDays` | src/gamma.rs:336-340 | on every valid date the formula is the number of days counted from 1970-01-01, month by month and year by year |
| `Calendar.SuccessorIsPlusOne` | src/gamma.rs:336-340 | the day after is plus one across months, leap days and years; 1970-01-01 is zero |
| `Calendar.StrictlyMonotone` | src/gamma.rs:336-340 | the formula orders dates exactly as the calendar does |
| `Calendar.YearsInClosedForm` | src/gamma.rs:339-339 | counted years agree with the 4, 100 and 400 leap-year terms |
| `Calendar.MonthsInClosedForm` | src/gamma.rs:337-339 | counted months agree with the five-month cycle of the formula |
| `Calendar.RenderedTimestampReadsBack` | src/gamma.rs:305-342 | a rendered UTC second parses back, with or without fraction, Z or +00:00, and quotes |
| `Calendar.NegativeOffsetReadAsUtc` | src/gamma.rs:324-333 | a negative zone offset adds two fields nobody reads: the local time is taken as UTC |
| `Calendar.PositiveOffsetRefused` | src/gamma.rs:316-333 | a positive offset other than +00:00 makes the seconds unreadable and the text is refused |
| `Calendar.SecondIsPlusOne` | src/gamma.rs:305-342 | the second after is plus one across minutes, hours, days, months and years, from zero at the epoch |
| `Calendar.SecondsMonotone` | src/gamma.rs:305-342 | later stamps parse to later seconds |
| `Calendar.SlugIsWindowStart` | src/gamma.rs:85-87 | the window start is the only multiple of the window length within one window before the time |
| `Anchor.AnchorBuffer.constructor` | src/anchor.rs:57-63 | an empty buffer with nothing pending |
| `Anchor.AnchorBuffer.PushTick` | src/anchor.rs:69-84 | takes a positive microprice strictly after the newest time, then trims |
| `Anchor.AnchorBuffer.Trim` | src/anchor.rs:154-163 | the loop drops the front samples older than ten seconds before the newest |
| `Anchor.AnchorBuffer.SetPending` | src/anchor.rs:89-91 | replaces the target and nothing else |
| `Anchor.AnchorBuffer.TryResolveNow` | src/anchor.rs:107-151 | pending, failed or the median of the selected samples; an answer clears the target |
| `Anchor.MicropriceLeans` | src/anchor.rs:69-77 | the microprice lies between the quotes, nearer the ask exactly when the bid size is larger |
| `Anchor.MedianOrderIndependent` | src/anchor.rs:172-181 | the median does not depend on the order of the samples |
| `Anchor.MedianSplitsInHalf` | src/anchor.rs:172-181 | at least half the samples are on each side of it |
| `Anchor.BufferIsRecentHistory` | src/anchor.rs:69-84 | over every run the buffer is strictly increasing and is exactly the accepted history within ten seconds of its newest sample |
| `Anchor.TrimmingHarmlessExactlyWhen` | src/anchor.rs:154-163 | trimming changes the selection if and only if a counted sample is over ten seconds older than the newest |
| `Anchor.ResolvesAsUntrimmed` | src/anchor.rs:107-151 | with the newest sample within ten seconds of the window start, the answer is that of the untrimmed history |
| `Anchor.OneAnswerPerTarget` | src/anchor.rs:107-151 | between two answers a new target was set |
| `Signal.SignalEngine.constructor` | src/signal.rs:82-94 | a fresh engine: no strike, no samples, no last book |
| `Signal.SignalEngine.SetStrikeValue` | src/signal.rs:96-106 | sets the strike and, on reset, empties the window and the last book |
| `Signal.SignalEngine.Push` | src/signal.rs:112-200 | takes exactly acceptable samples; the eviction loop keeps the newest within capacity |
| `Signal.SignalEngine.OnSample` | src/signal.rs:202-219 | pushes, refuses a lagging sample, then decides on the new window |
| `Signal.SignalEngine.FairTicksForSide` | src/signal.rs:345-368 | fair ticks of a side from the clamped probability, none without a fresh window, strike, time or model answer |
| `Signal.SignalEngine.Opposes` | src/signal.rs:370-388 | whether move, flow and imbalance all press against a side, none without a fresh window |
| `Signal.RingInvariant` | src/signal.rs:112-153 | over every run the ring is strictly chronological and within capacity |
| `Signal.WindowIsSuffix` | src/signal.rs:448-471 | over every run the window base is the oldest in-window point, before the latest by the minimum span, and the filtered flow is the suffix sum from it |
| `Signal.EntryAgreesWithPressure` | src/signal.rs:370-388 | at an entry the window opposes the other side and does not oppose the side bought |
| `Signal.OpposesIsOtherEntry` | src/signal.rs:370-388 | a fresh window opposes a side if and only if the entry rule picks the other |
| `Signal.FairPricesSplitADollar` | src/signal.rs:345-368 | the fair prices of the two sides are whole ticks in 0..100 that add up to 100, or to 99 exactly when the probability is between ticks |
| `Signal.BuyCutoffMonotoneExactlyWhen` | src/state.rs:114-119 | with the fallback to the best ask, a larger notional is never given a cheaper price, except exactly when the kept depth covers the smaller one past its best level and not the larger |
| `Signal.ParsedBookIsFromBook` | src/market.rs:153-168 | a quote parsed from a book of positive prices has its best ask first in an ordered depth of positive levels |
| `Signal.BuyCutoffCanDrop` | src/state.rs:114-119 | a concrete depth where a dollar is cut off at 60 and two dollars at 50 |
| `Signal.MirroredPush` | src/signal.rs:423-446 | upside down, with bid and ask exchanged, a sample contributes the opposite flow and imbalance |
| `SignalRules.IgnoredExactlyWhen` | src/signal.rs:112-137 | a sample changes nothing if and only if a price, size, spread, update id or time is wrong |
| `SignalRules.PointExactly` | src/signal.rs:138-153 | a taken sample leaves a point with its own times and price and its size imbalance, and becomes the remembered book |
| `SignalRules.RingFills` | src/signal.rs:82-84 | the ring grows by one up to the configured number, at least eight |
| `SignalRules.RestrikeExactly` | src/signal.rs:96-106 | a new strike empties window and book exactly on reset |
| `SignalRules.WindowExactlyWhen` | src/signal.rs:457-465 | there is a window if and only if some sample is earlier than the latest by a span between the two limits |
| `SignalRules.SideExactlyWhen` | src/signal.rs:232-255 | YES exactly on a rise with flow and imbalance up, NO exactly otherwise with all three down |
| `SignalRules.OpposesExactlyWhen` | src/signal.rs:370-388 | a current window presses against YES exactly when all three point down, against NO exactly when up |
| `SignalRules.ProbabilityExactlyWhen` | src/signal.rs:473-480 | a probability exists if and only if strike, time, price and a model answer do, and is that answer brought inside the configured limits |
| `SignalRules.FairExactlyWhen` | src/signal.rs:345-368 | the fair price is the whole ticks of the side's own probability, if and only if the window is current and a probability exists |
| `SignalRules.CutoffExactlyWhen` | src/state.rs:114-119 | the filling price is where the kept depth first costs the notional, if it does, else the best ask |
| `SignalRules.NoNotionalIsBestAsk` | src/state.rs:114-119 | without a notional the filling price is the best ask |
| `SignalRules.IntentExactlyWhen` | src/signal.rs:221-343 | this intent comes out, on either side, if and only if strike, time, window, quote age, limit, edge price, probability and floored edge all fit it |
| `SignalRules.MirroredIntent` | src/signal.rs:221-343 | upside down, with outcomes and quotes exchanged and the opposite probability, the same intent comes out on the other side |
| `OrderFlow.FlowOfMessage` | src/signal.rs:423-446 | a risen bid adds its whole size, a fallen one takes the old size away, an unchanged one counts the change, and the ask the other way round |
| `OrderFlow.StretchFlow` | src/signal.rs:423-446 | after a stretch of messages the newest points' flows add up to what the consecutive messages contribute |
| `OrderFlow.FlowTelescopes` | src/signal.rs:423-446 | while the best prices stand, the flow is what the bid size gained less what the ask size gained |
| `Signal.MirroredSide` | src/signal.rs:232-255 | upside down, a YES entry is a NO entry and the other way round, and none stays none |

## Left out

- ResolvesAsUntrimmed: the ten-second condition is sufficient; `TrimmingHarmlessExactlyWhen` gives the exact condition for the selection.
- NotionalBound: stated, like every statement about `CanonicalBuy`, where the price of the covering size and the allowed maximum fit 64 bits; `NeverPanics` shows the program's arithmetic safe there, and panics beyond are not modelled.
- ClampedConservation: assumes the credits of the run together fit 64 bits, so that no BUY saturates, as do the other statements about balances; the operations themselves saturate exactly.
- AggregationConservesCost: assumes no total at a price saturates 64 bits, as does `CutoffAgainstRawQuotes`.
- EdgeCheckExact: assumes the products and their sum fit 64 bits; `EdgeCheckExactlyWhen` does not, but takes the sum inside the ceiling as unbounded.
- NeverRounds: covers numerals whose scaled value fits; `OverflowFails` and `AnswerIsExactExactlyWhen` say what becomes of the others, with the wrapping of an optimised build.
- DisplayedCentsReadBack: leaves out the least 64-bit amount, whose absolute value does not fit.
- RevivalOnlyByTrade: stated until the claim counter reaches its 64-bit end, where ids repeat, as are `StepKeepsOneExactlyWhen` and `OneBlockingExactlyWhen`.
- SystemConservation: for a token that every rotation of the run keeps active; rotation drops the balances of the others.
- PassSellsExactlyWhen: for a market of two distinct tokens, as `SupportedNeverSold`.
- OnSample: what the normal model answers (sigma estimates, implied probability and the distribution function) is an input; its guards and clamps are modelled.
- FairTicksForSide: takes the model's answer as an input in the same way.
- FeedEngine: takes the model's answer as an input, as do the next four.
- OnBinanceSample: the model's answer is an input.
- TickAndClaim: the model's answer is an input.
- ReadHeldSide: the model's answer is an input.
- PlanExits: the model's answer is an input.
- Push: prices and sizes that the program holds as floating point are reals, so its checks for NaN and infinity have no counterpart.
- PushTick: the same idealisation of floating point, and so for `TryResolveNow` and its median.
- FairPricesSplitADollar: on exact reals; floating point may floor a price that falls on a tick to the one below.
- StaleAnswerExactlyWhen: leaves out markets that end before their window starts, which discovery skips as expired, and times beyond 64 bits.
- StrikeIsOfActiveMarket: assumes that an answer is stamped at most a given lag before any rotation it follows, because a message is stamped before it takes the locks; the lag is a parameter.
- The rotation deadline runs on the same clock as the stamps, and retries of a rotation only postpone it; the times of all other steps are unconstrained.
- Unchecked 64-bit additions that would overflow (drift, tick sums, calendar and window arithmetic) are done on unbounded integers.
- Claim ids are numbers instead of the text "s" followed by the number.
- Decoding of venue messages (JSON, SBE) is not part of this model: it starts from typed trades, levels, samples and events, and a user message with several trades is several steps.
- Text is a sequence of single-unit characters; multi-byte encodings are not modelled.
- Hashing, signatures, the domain separator and the JSON body are not part of this model: the type hash is an arbitrary 32-byte word.
- HTTP transport, sockets, discovery, environment reading, logging and clocks are not part of this model; the classification of a submit result is reduced to its three outcomes.
- The refresh of a SELL plan just before signing (src/runtime.rs:300-307) is the same `PlanSell` in a later state, so `PlannedSellClears` speaks of it, but it is no step of its own.
- The total of several SELLs in flight is not bounded, because the program does not bound it.
- `floor_from_shares4` appears only as the SELL quantum, and the display forms of the other newtypes are left out as easy.
