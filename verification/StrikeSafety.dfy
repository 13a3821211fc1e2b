/** Where the strike of an entry comes from, and what the engine guarantees at the moment of a claim,
    over every interleaving of rotation, anchoring and ticks. */
module StrikeSafety {
  import opened Wrappers
  import opened VenueTypes
  import opened MarketState
  import opened RuntimeSpec
  import opened Protocol
  import Anchor
  import Signal

  // ------------------------------------------------------------------ the engine in a run

  ghost predicate Sound(cfg: RuntimeConfig, c: CoreState) {
    Signal.Chronological(c.signal.samples) && |c.signal.samples| <= Signal.Capacity(cfg.signal)
  }

  lemma StepSound(cfg: RuntimeConfig, s: System, step: Step)
    requires Sound(cfg, s.core)
    ensures Sound(cfg, Next(cfg, s, step).core)
  {
    if step.BinanceTick? {
      var recv := if Quoted(s.core.market) then step.now else step.sample.ts;
      Signal.RingStep(cfg.signal, s.core.signal, Signal.Received(step.sample, recv));
      assert Next(cfg, s, step).core.signal == Signal.PushReceived(cfg.signal, s.core.signal, step.sample, recv);
    } else {
      EngineElsewhere(cfg, s, step);
    }
  }

  /** Outside ticks the engine changes only by a new strike, which empties the window. */
  lemma EngineElsewhere(cfg: RuntimeConfig, s: System, step: Step)
    requires !step.BinanceTick?
    ensures Next(cfg, s, step).core.signal == s.core.signal || Next(cfg, s, step).core.signal.samples == []
  {
  }

  /** In every state of every run the window is chronological and within its capacity. */
  lemma {:induction false} EngineAlwaysSound(cfg: RuntimeConfig, states: seq<System>, steps: seq<Step>, k: nat)
    requires IsRun(cfg, states, steps) && k < |states|
    ensures Sound(cfg, states[k].core)
  {
    if k > 0 {
      EngineAlwaysSound(cfg, states, steps, k - 1);
      assert IsStep(cfg, states, steps, k - 1);
      StepSound(cfg, states[k - 1], steps[k - 1]);
    }
  }

  // ------------------------------------------------------------------ where the strike comes from

  /** The strike a step resolves, if it does. */
  function AnswerOf(step: Step): Option<real> {
    if step.AnchorTick? && step.result.Resolved? then Some(step.result.strike) else None
  }

  lemma StrikeStep(cfg: RuntimeConfig, s: System, step: Step)
    ensures Next(cfg, s, step).core.signal.strike
            == if AnswerOf(step).Some? then AnswerOf(step).value
               else if step.Rotation? then 0.0
               else s.core.signal.strike
  {
  }

  /** Step i resolved the anchor, and since then, up to state k, nothing replaced the strike. */
  ghost predicate AnchoredAt(states: seq<System>, steps: seq<Step>, i: nat, k: nat)
    requires i < k <= |steps| < |states|
  {
    && AnswerOf(steps[i]) == Some(states[k].core.signal.strike)
    && forall j :: i < j < k ==> !steps[j].Rotation? && AnswerOf(steps[j]).None?
  }

  /** The strike over time: replaced by an answer, cleared by a rotation, else kept. */
  ghost predicate Traces(strikes: seq<real>, steps: seq<Step>) {
    && |strikes| == |steps| + 1 && strikes[0] == 0.0
    && forall k :: 0 <= k < |steps| ==>
         strikes[k + 1] == if AnswerOf(steps[k]).Some? then AnswerOf(steps[k]).value
                           else if steps[k].Rotation? then 0.0 else strikes[k]
  }

  lemma StrikeTrace(cfg: RuntimeConfig, states: seq<System>, steps: seq<Step>) returns (strikes: seq<real>)
    requires IsRun(cfg, states, steps)
    ensures Traces(strikes, steps)
    ensures forall k :: 0 <= k < |strikes| ==> strikes[k] == states[k].core.signal.strike
  {
    strikes := seq(|states|, k requires 0 <= k < |states| => states[k].core.signal.strike);
    forall k | 0 <= k < |steps|
      ensures strikes[k + 1] == if AnswerOf(steps[k]).Some? then AnswerOf(steps[k]).value
                                else if steps[k].Rotation? then 0.0 else strikes[k]
    {
      assert IsStep(cfg, states, steps, k);
      StrikeStep(cfg, states[k], steps[k]);
    }
  }

  lemma {:induction false} LastAnswer(strikes: seq<real>, steps: seq<Step>, k: nat) returns (i: nat)
    requires Traces(strikes, steps) && k < |strikes| && strikes[k] != 0.0
    ensures i < k && AnswerOf(steps[i]) == Some(strikes[k])
    ensures forall j :: i < j < k ==> !steps[j].Rotation? && AnswerOf(steps[j]).None?
  {
    assert k > 0;
    if AnswerOf(steps[k - 1]).Some? {
      i := k - 1;
    } else {
      i := LastAnswer(strikes, steps, k - 1);
    }
  }

  /** Every strike in force was resolved by the anchor, after the last rotation. */
  lemma StrikeComesFromAnchor(cfg: RuntimeConfig, states: seq<System>, steps: seq<Step>, k: nat) returns (i: nat)
    requires IsRun(cfg, states, steps) && k < |states| && states[k].core.signal.strike != 0.0
    ensures i < k && AnchoredAt(states, steps, i, k)
  {
    var strikes := StrikeTrace(cfg, states, steps);
    i := LastAnswer(strikes, steps, k);
  }

  // ------------------------------------------------------------------ which market it is for

  lemma TargetStep(cfg: RuntimeConfig, s: System, step: Step)
    ensures var s' := Next(cfg, s, step);
            && (step.SetTarget? ==> s'.anchor.pendingSlugTs == SlugTsOf(s.core.market) && !s'.retarget)
            && (step.Rotation? ==> s'.anchor == s.anchor && s'.retarget && s'.core.market.market == Some(step.market))
            && (step.Rotation? && Enabled(cfg, s, step) ==> !s.retarget && s.core.market.market != Some(step.market))
            && (!step.SetTarget? && !step.Rotation? ==>
                  && s'.retarget == s.retarget
                  && (s'.anchor.pendingSlugTs == s.anchor.pendingSlugTs || s'.anchor.pendingSlugTs == 0))
            && (!step.Rotation? ==> s'.core.market.market == s.core.market.market)
  {
  }

  /** The pending target at state k was set at step t, from the market of that moment; it is still the
      active one exactly when no rotation came since. */
  ghost predicate TargetedAt(states: seq<System>, steps: seq<Step>, t: nat, k: nat)
    requires t < k <= |steps| < |states|
  {
    && steps[t].SetTarget? && (forall j :: t < j < k ==> !steps[j].SetTarget?)
    && states[k].anchor.pendingSlugTs == SlugTsOf(states[t].core.market)
    && (states[k].retarget <==> exists j :: t < j < k && steps[j].Rotation?)
    && (!states[k].retarget <==> states[k].core.market.market == states[t].core.market.market)
  }

  /** A pending target is always some market's, and its origin is known. */
  lemma {:induction false} TargetOrigin(cfg: RuntimeConfig, states: seq<System>, steps: seq<Step>, k: nat)
    returns (t: nat)
    requires IsRun(cfg, states, steps) && k < |states| && states[k].anchor.pendingSlugTs > 0
    ensures t < k && TargetedAt(states, steps, t, k)
  {
    assert k > 0;
    assert IsStep(cfg, states, steps, k - 1);
    TargetStep(cfg, states[k - 1], steps[k - 1]);
    if steps[k - 1].SetTarget? {
      t := k - 1;
    } else {
      t := TargetOrigin(cfg, states, steps, k - 1);
      if states[k].retarget && !steps[k - 1].Rotation? {
        var j :| t < j < k - 1 && steps[j].Rotation?;
        assert t < j < k && steps[j].Rotation?;
      }
    }
  }

  /** The step answered a target from the samples in the buffer. */
  ghost predicate ResolvedFor(s: System, step: Step, slugTs: int) {
    step.AnchorTick? && step.result == Anchor.Outcome(AnchorSamples(s, step), slugTs, step.now)
  }

  /** An answer is given only to a pending target. */
  lemma AnswerNeedsTarget(cfg: RuntimeConfig, s: System, step: Step)
    requires Enabled(cfg, s, step) && AnswerOf(step).Some?
    ensures s.anchor.pendingSlugTs > 0 && ResolvedFor(s, step, s.anchor.pendingSlugTs)
  {
  }

  lemma AnsweredInRun(cfg: RuntimeConfig, states: seq<System>, steps: seq<Step>, i: nat)
    requires IsRun(cfg, states, steps) && i < |steps| && AnswerOf(steps[i]).Some?
    ensures states[i].anchor.pendingSlugTs > 0
    ensures forall slug :: slug == states[i].anchor.pendingSlugTs ==> ResolvedFor(states[i], steps[i], slug)
  {
    assert IsStep(cfg, states, steps, i);
    AnswerNeedsTarget(cfg, states[i], steps[i]);
  }

  /** The samples an anchor tick resolves from. */
  ghost function AnchorSamples(s: System, step: Step): seq<Anchor.Sample>
    requires step.AnchorTick?
  {
    var x := step.sample;
    Anchor.Push(s.anchor, x.ts, Anchor.Book(x.bid, x.ask, x.bidQty, x.askQty)).samples
  }

  lemma {:induction false} SameMarketSince(cfg: RuntimeConfig, states: seq<System>, steps: seq<Step>, i: nat, k: nat)
    requires IsRun(cfg, states, steps) && i <= k < |states|
    requires forall j :: i <= j < k ==> !steps[j].Rotation?
    ensures states[k].core.market.market == states[i].core.market.market
    decreases k - i
  {
    if i < k {
      SameMarketSince(cfg, states, steps, i, k - 1);
      assert IsStep(cfg, states, steps, k - 1);
      TargetStep(cfg, states[k - 1], steps[k - 1]);
    }
  }

  /** Where the strike in force comes from: step t set the target, from the market of that moment, and
      step i resolved it. That market is the one active at k if and only if no rotation fell between t
      and i; otherwise the strike was resolved for the market just left, before the new target was set. */
  lemma StrikeProvenance(cfg: RuntimeConfig, states: seq<System>, steps: seq<Step>, k: nat) returns (t: nat, i: nat)
    requires IsRun(cfg, states, steps) && k < |states| && states[k].core.signal.strike != 0.0
    ensures t < i < k && TargetedAt(states, steps, t, i) && AnchoredAt(states, steps, i, k)
    ensures ResolvedFor(states[i], steps[i], SlugTsOf(states[t].core.market))
    ensures states[k].core.market.market == states[t].core.market.market
            <==> forall j :: t < j < i ==> !steps[j].Rotation?
  {
    i := StrikeComesFromAnchor(cfg, states, steps, k);
    AnsweredInRun(cfg, states, steps, i);
    t := TargetOrigin(cfg, states, steps, i);
    SameMarketSince(cfg, states, steps, i, k);
  }

  // ------------------------------------------------------------------ which market is active

  lemma DueNearEnd(m: MarketContext, now: int)
    ensures RotationDue(m, now) >= (m.endTs - ROTATION_LEAD_S) * 1_000_000
  {
    var q := now / 1_000_000;
    assert now >= q * 1_000_000;
  }

  /** The next rotation is due a lead before the end of the market held, or later. */
  lemma {:induction false} AlwaysDueNearEnd(cfg: RuntimeConfig, states: seq<System>, steps: seq<Step>, k: nat)
    requires IsRun(cfg, states, steps) && k < |states| && states[k].core.market.market.Some?
    ensures states[k].due >= (states[k].core.market.market.value.endTs - ROTATION_LEAD_S) * 1_000_000
  {
    assert k > 0;
    assert IsStep(cfg, states, steps, k - 1);
    TargetStep(cfg, states[k - 1], steps[k - 1]);
    DueStep(cfg, states[k - 1], steps[k - 1]);
    if steps[k - 1].Rotation? {
      DueNearEnd(steps[k - 1].market, steps[k - 1].now);
    } else {
      AlwaysDueNearEnd(cfg, states, steps, k - 1);
    }
  }

  lemma DueStep(cfg: RuntimeConfig, s: System, step: Step)
    ensures Next(cfg, s, step).due == if step.Rotation? then RotationDue(step.market, step.now) else s.due
    ensures step.Rotation? && Enabled(cfg, s, step) && s.core.market.market.Some? ==> step.now >= s.due
  {
  }

  lemma {:induction false} FirstRotation(steps: seq<Step>, t: nat, i: nat) returns (r: nat)
    requires t < i <= |steps| && exists j :: t < j < i && steps[j].Rotation?
    ensures t < r < i && steps[r].Rotation? && forall j :: t < j < r ==> !steps[j].Rotation?
  {
    r :| t < r < i && steps[r].Rotation?;
    if exists j :: t < j < r && steps[j].Rotation? {
      r := FirstRotation(steps, t, r);
    }
  }

  /** An answer is stamped at most a lag before any rotation it follows. */
  ghost predicate ClocksAgree(steps: seq<Step>, lag: int) {
    forall r, i :: 0 <= r < i < |steps| && steps[r].Rotation? && AnswerOf(steps[i]).Some?
                   ==> steps[r].now <= steps[i].now + lag
  }

  /** A market still held, by the clock of the rotation, when its anchor can no longer answer. */
  predicate OutlivesAnchor(m: MarketContext, lag: int) {
    (m.endTs - ROTATION_LEAD_S) * 1_000_000 > Anchor.LatestAnswer(m.slugTs) + lag
  }

  /** The first rotation after a step comes no earlier than a lead before the end of the market held there. */
  lemma LeftOnSchedule(cfg: RuntimeConfig, states: seq<System>, steps: seq<Step>, t: nat, i: nat) returns (r: nat)
    requires IsRun(cfg, states, steps) && t < i <= |steps| && !steps[t].Rotation?
    requires states[t].core.market.market.Some? && exists j :: t < j < i && steps[j].Rotation?
    ensures t < r < i && steps[r].Rotation?
    ensures steps[r].now >= (states[t].core.market.market.value.endTs - ROTATION_LEAD_S) * 1_000_000
  {
    r := FirstRotation(steps, t, i);
    SameMarketSince(cfg, states, steps, t, r);
    AlwaysDueNearEnd(cfg, states, steps, r);
    assert IsStep(cfg, states, steps, r);
    DueStep(cfg, states[r], steps[r]);
  }

  /** The target of a market that outlives its anchor is answered before the market is left. */
  lemma AnsweredBeforeLeft(cfg: RuntimeConfig, states: seq<System>, steps: seq<Step>, t: nat, i: nat, lag: int)
    requires IsRun(cfg, states, steps) && ClocksAgree(steps, lag)
    requires t < i < |steps| && AnswerOf(steps[i]).Some? && TargetedAt(states, steps, t, i)
    requires states[t].core.market.market.Some? && OutlivesAnchor(states[t].core.market.market.value, lag)
    ensures forall j :: t < j < i ==> !steps[j].Rotation?
  {
    AnswerInTime(cfg, states, steps, i);
    if exists j :: t < j < i && steps[j].Rotation? {
      var r := LeftOnSchedule(cfg, states, steps, t, i);
    }
  }

  lemma AnswerInTime(cfg: RuntimeConfig, states: seq<System>, steps: seq<Step>, i: nat)
    requires IsRun(cfg, states, steps) && i < |steps| && AnswerOf(steps[i]).Some?
    ensures steps[i].now <= Anchor.LatestAnswer(states[i].anchor.pendingSlugTs)
  {
    AnsweredInRun(cfg, states, steps, i);
    ResolvedForInTime(states[i], steps[i], states[i].anchor.pendingSlugTs);
  }

  lemma ResolvedForInTime(s: System, step: Step, slugTs: int)
    requires slugTs > 0 && ResolvedFor(s, step, slugTs) && step.result.Resolved?
    ensures step.now <= Anchor.LatestAnswer(slugTs)
  {
    Anchor.ResolvedInTime(AnchorSamples(s, step), slugTs, step.now);
  }

  /** Every market a run holds outlives its anchor. */
  ghost predicate MarketsOutliveAnchors(states: seq<System>, lag: int) {
    forall k :: 0 <= k < |states| && states[k].core.market.market.Some?
                ==> OutlivesAnchor(states[k].core.market.market.value, lag)
  }

  /** When the markets outlive their anchors, the strike in force is always the active market's. */
  lemma StrikeIsOfActiveMarket(cfg: RuntimeConfig, states: seq<System>, steps: seq<Step>, k: nat, lag: int)
    returns (i: nat)
    requires IsRun(cfg, states, steps) && k < |states| && states[k].core.signal.strike != 0.0
    requires ClocksAgree(steps, lag) && MarketsOutliveAnchors(states, lag)
    ensures i < k && AnchoredAt(states, steps, i, k)
    ensures states[k].core.market.market.Some?
    ensures ResolvedFor(states[i], steps[i], states[k].core.market.market.value.slugTs)
  {
    var t;
    t, i := StrikeProvenance(cfg, states, steps, k);
    AnsweredInRun(cfg, states, steps, i);
    AnsweredBeforeLeft(cfg, states, steps, t, i, lag);
  }

  // ------------------------------------------------------------------ at the moment of a claim

  /** What a claiming tick had: a positive strike, an acceptable sample, and the engine's decision. */
  lemma ClaimingTick(cfg: RuntimeConfig, c: CoreState, sample: Signal.BinanceSample, now: int, model: Option<real>)
    requires Claims(cfg, c, sample, now, model)
    ensures c.signal.strike > 0.0 && Signal.Acceptable(cfg.signal, c.signal, sample)
    ensures SignalAfter(cfg, c, sample, now) == Signal.PushReceived(cfg.signal, c.signal, sample, now)
    ensures var m := c.market.market.value;
            Signal.Decide(cfg.signal, SignalAfter(cfg, c, sample, now), m, QuoteForSide(c.market, Yes).value,
                          QuoteForSide(c.market, No).value, now, TimeToExpiry(m, now), model)
            == OnBinanceSample(cfg, c, sample, now, model)
  {
  }

  /** No claim without an anchored strike: between the last rotation and any claim the anchor resolved. */
  lemma ClaimNeedsAnchor(cfg: RuntimeConfig, states: seq<System>, steps: seq<Step>, j: nat) returns (i: nat)
    requires IsRun(cfg, states, steps) && j < |steps| && ClaimsBy(cfg, steps[j])
    ensures i < j && AnchoredAt(states, steps, i, j) && states[j].core.signal.strike > 0.0
    ensures forall r :: 0 <= r < j && steps[r].Rotation? ==> r < i
  {
    assert IsStep(cfg, states, steps, j);
    ClaimStrike(cfg, states[j], steps[j]);
    i := StrikeComesFromAnchor(cfg, states, steps, j);
    AnchoredAfterRotations(states, steps, i, j);
  }

  lemma ClaimStrike(cfg: RuntimeConfig, s: System, step: Step)
    requires ClaimsBy(cfg, step) && Enabled(cfg, s, step)
    ensures s.core.signal.strike > 0.0
  {
    ClaimingTick(cfg, s.core, step.sample, step.now, step.model);
  }

  lemma AnchoredAfterRotations(states: seq<System>, steps: seq<Step>, i: nat, k: nat)
    requires i < k <= |steps| < |states| && AnchoredAt(states, steps, i, k)
    ensures forall r :: 0 <= r < k && steps[r].Rotation? ==> r < i
  {
    assert steps[i].AnchorTick?;
  }

  /** Whatever the model, tracker, bid and hold time, a pass now does not sell the side for its value. */
  ghost predicate NoValueExit(cfg: RuntimeConfig, c: CoreState, side: OutcomeSide, now: int) {
    forall tr, bid, hold, model :: !SellsForValue(cfg, c, side, now, tr, bid, hold, model)
  }

  predicate SellsForValue(cfg: RuntimeConfig, c: CoreState, side: OutcomeSide, now: int,
                          tr: ExitTracker, bid: int, hold: int, model: Option<real>) {
    var reason := ReasonToSell(cfg, tr, bid, ReadSide(cfg, c, side, now, model), hold);
    reason == Some(Value) || reason == Some(Drop)
  }

  /** No claim against its own exit pressure: right after a claiming tick of any run, at the same
      moment, the window opposes the other side and not the side bought, so no planning pass could
      give the reasons Value or Drop to sell it. */
  lemma ClaimIsNotOpposed(cfg: RuntimeConfig, states: seq<System>, steps: seq<Step>, j: nat)
    requires IsRun(cfg, states, steps) && j < |steps| && ClaimsBy(cfg, steps[j])
    requires cfg.signal.minMove > 0.0
    ensures var (side, v) := (steps[j].intent.value.side, states[j + 1].core.signal);
            && Signal.OpposesSide(cfg.signal, v, Signal.OtherSide(side), steps[j].now) == Some(true)
            && Signal.OpposesSide(cfg.signal, v, side, steps[j].now) == Some(false)
    ensures NoValueExit(cfg, states[j + 1].core, steps[j].intent.value.side, steps[j].now)
  {
    assert IsStep(cfg, states, steps, j);
    var (c, step) := (states[j].core, steps[j]);
    ClaimingTick(cfg, c, step.sample, step.now, step.model);
    var m := c.market.market.value;
    Signal.EntryAgreesWithPressure(cfg.signal, c.signal, step.sample, m, QuoteForSide(c.market, Yes).value,
                                   QuoteForSide(c.market, No).value, step.now, TimeToExpiry(m, step.now), step.model);
    assert states[j + 1].core.signal == SignalAfter(cfg, c, step.sample, step.now);
    UnopposedKeepsValue(cfg, states[j + 1].core, steps[j].intent.value.side, step.now);
  }

  lemma UnopposedKeepsValue(cfg: RuntimeConfig, c: CoreState, side: OutcomeSide, now: int)
    requires Signal.OpposesSide(cfg.signal, c.signal, side, now) == Some(false)
    ensures NoValueExit(cfg, c, side, now)
  {
    forall tr: ExitTracker, bid: int, hold: int, model: Option<real>
      ensures !SellsForValue(cfg, c, side, now, tr, bid, hold, model)
    {
      assert ReadSide(cfg, c, side, now, model).opposes != Some(true);
    }
  }
}
