/** Each part of the shared state, over every interleaving, is what its own inputs alone make of it: the
    market of the market data and rotations, the engine of samples, answers and rotations, and the anchor of
    samples and targets. What is proved of these parts over their own histories so holds in every run. */
module Projections {
  import opened Wrappers
  import opened VenueTypes
  import opened InventorySpec
  import opened MarketState
  import opened RuntimeSpec
  import opened Protocol
  import Anchor
  import Signal

  // ------------------------------------------------------------------------ the market

  function FeedPart(step: Step): Feed {
    match step
    case MarketData(e, ts) => [Data(e, ts)]
    case Rotation(m, _) => [Rotated(m)]
    case _ => []
  }

  function FeedOf(steps: seq<Step>): Feed {
    if steps == [] then [] else FeedOf(steps[..|steps| - 1]) + FeedPart(steps[|steps| - 1])
  }

  lemma MarketStep(cfg: RuntimeConfig, s: System, step: Step, feed: Feed)
    requires s.core.market == RunFeed(feed)
    ensures Next(cfg, s, step).core.market == RunFeed(feed + FeedPart(step))
  {
    if FeedPart(step) == [] {
      assert feed + [] == feed;
      MarketUntouched(cfg, s, step);
    } else {
      assert (feed + FeedPart(step))[..|feed + FeedPart(step)| - 1] == feed;
    }
  }

  lemma MarketUntouched(cfg: RuntimeConfig, s: System, step: Step)
    requires !step.MarketData? && !step.Rotation?
    ensures Next(cfg, s, step).core.market == s.core.market
  {
  }

  lemma FeedPrefix(steps: seq<Step>, k: nat)
    requires 0 < k <= |steps|
    ensures FeedOf(steps[..k]) == FeedOf(steps[..k - 1]) + FeedPart(steps[k - 1])
  {
    assert steps[..k][..k - 1] == steps[..k - 1];
  }

  /** In every state of every run the market view is that of the market data and rotations so far. */
  lemma {:induction false} MarketIsOfFeed(cfg: RuntimeConfig, states: seq<System>, steps: seq<Step>, k: nat)
    requires IsRun(cfg, states, steps) && k <= |steps|
    ensures states[k].core.market == RunFeed(FeedOf(steps[..k]))
  {
    if k > 0 {
      MarketIsOfFeed(cfg, states, steps, k - 1);
      FeedPrefix(steps, k);
      assert IsStep(cfg, states, steps, k - 1);
      MarketStep(cfg, states[k - 1], steps[k - 1], FeedOf(steps[..k - 1]));
    }
  }

  // ------------------------------------------------------------------------ the engine

  /** What a step feeds the engine: a sample, stamped as received in a quoted market and with its own time
      elsewhere, an answer of the anchor, or a rotation's empty strike. */
  function EnginePart(s: System, step: Step): seq<Signal.Step> {
    match step
    case BinanceTick(x, now, _, _) => [Signal.Received(x, if Quoted(s.core.market) then now else x.ts)]
    case AnchorTick(_, _, result) => if result.Resolved? then [Signal.Restrike(result.strike, true)] else []
    case Rotation(_, _) => [Signal.Restrike(0.0, true)]
    case _ => []
  }

  function EngineSteps(states: seq<System>, steps: seq<Step>): seq<Signal.Step>
    requires |states| > |steps|
  {
    if steps == [] then []
    else
      EngineSteps(states, steps[..|steps| - 1]) + EnginePart(states[|steps| - 1], steps[|steps| - 1])
  }

  lemma EngineStep(cfg: RuntimeConfig, s: System, step: Step, fed: seq<Signal.Step>)
    requires s.core.signal == Signal.Run(cfg.signal, fed)
    ensures Next(cfg, s, step).core.signal == Signal.Run(cfg.signal, fed + EnginePart(s, step))
  {
    if EnginePart(s, step) == [] {
      assert fed + [] == fed;
      EngineUntouched(cfg, s, step);
    } else {
      assert (fed + EnginePart(s, step))[..|fed + EnginePart(s, step)| - 1] == fed;
    }
  }

  lemma EngineUntouched(cfg: RuntimeConfig, s: System, step: Step)
    requires EnginePart(s, step) == []
    ensures Next(cfg, s, step).core.signal == s.core.signal
  {
  }

  lemma EnginePrefix(states: seq<System>, steps: seq<Step>, k: nat)
    requires 0 < k <= |steps| < |states|
    ensures EngineSteps(states, steps[..k])
            == EngineSteps(states, steps[..k - 1]) + EnginePart(states[k - 1], steps[k - 1])
  {
    assert steps[..k][..k - 1] == steps[..k - 1];
  }

  /** In every state of every run the engine is that of the samples, answers and rotations so far. */
  lemma {:induction false} EngineIsOfInputs(cfg: RuntimeConfig, states: seq<System>, steps: seq<Step>, k: nat)
    requires IsRun(cfg, states, steps) && k <= |steps|
    ensures states[k].core.signal == Signal.Run(cfg.signal, EngineSteps(states, steps[..k]))
  {
    if k > 0 {
      EngineIsOfInputs(cfg, states, steps, k - 1);
      EnginePrefix(states, steps, k);
      assert IsStep(cfg, states, steps, k - 1);
      EngineStep(cfg, states[k - 1], steps[k - 1], EngineSteps(states, steps[..k - 1]));
    }
  }

  // ------------------------------------------------------------------------ the anchor

  /** A sample is pushed and then an answer is tried; a target is the start of the market held. */
  function AnchorPart(s: System, step: Step): seq<Anchor.Step> {
    match step
    case AnchorTick(x, now, _) =>
      [Anchor.Tick(x.ts, Anchor.Book(x.bid, x.ask, x.bidQty, x.askQty)), Anchor.Attempt(now)]
    case SetTarget => [Anchor.NewTarget(SlugTsOf(s.core.market))]
    case _ => []
  }

  function AnchorSteps(states: seq<System>, steps: seq<Step>): seq<Anchor.Step>
    requires |states| > |steps|
  {
    if steps == [] then []
    else
      AnchorSteps(states, steps[..|steps| - 1]) + AnchorPart(states[|steps| - 1], steps[|steps| - 1])
  }

  lemma RunOneMore(fed: seq<Anchor.Step>, step: Anchor.Step)
    ensures Anchor.Run(fed + [step]) == Anchor.Next(Anchor.Run(fed), step)
  {
    assert (fed + [step])[..|fed + [step]| - 1] == fed;
  }

  lemma AnchorStep(cfg: RuntimeConfig, s: System, step: Step, fed: seq<Anchor.Step>)
    requires s.anchor == Anchor.Run(fed)
    ensures Next(cfg, s, step).anchor == Anchor.Run(fed + AnchorPart(s, step))
  {
    var part := AnchorPart(s, step);
    if step.AnchorTick? {
      PushAndAttempt(cfg, s, step);
      RunOneMore(fed, part[0]);
      RunOneMore(fed + [part[0]], part[1]);
      assert fed + part == fed + [part[0]] + [part[1]];
    } else if step.SetTarget? {
      RunOneMore(fed, part[0]);
      assert fed + part == fed + [part[0]];
    } else {
      assert fed + part == fed;
      AnchorUntouched(cfg, s, step);
    }
  }

  lemma PushAndAttempt(cfg: RuntimeConfig, s: System, step: Step)
    requires step.AnchorTick?
    ensures var part := AnchorPart(s, step);
            Next(cfg, s, step).anchor == Anchor.Next(Anchor.Next(s.anchor, part[0]), part[1])
  {
  }

  lemma AnchorUntouched(cfg: RuntimeConfig, s: System, step: Step)
    requires !step.AnchorTick? && !step.SetTarget?
    ensures Next(cfg, s, step).anchor == s.anchor
  {
  }

  lemma AnchorPrefix(states: seq<System>, steps: seq<Step>, k: nat)
    requires 0 < k <= |steps| < |states|
    ensures AnchorSteps(states, steps[..k])
            == AnchorSteps(states, steps[..k - 1]) + AnchorPart(states[k - 1], steps[k - 1])
  {
    assert steps[..k][..k - 1] == steps[..k - 1];
  }

  /** In every state of every run the anchor is that of the samples and targets so far. */
  lemma {:induction false} AnchorIsOfInputs(cfg: RuntimeConfig, states: seq<System>, steps: seq<Step>, k: nat)
    requires IsRun(cfg, states, steps) && k <= |steps|
    ensures states[k].anchor == Anchor.Run(AnchorSteps(states, steps[..k]))
  {
    if k > 0 {
      AnchorIsOfInputs(cfg, states, steps, k - 1);
      AnchorPrefix(states, steps, k);
      assert IsStep(cfg, states, steps, k - 1);
      AnchorStep(cfg, states[k - 1], steps[k - 1], AnchorSteps(states, steps[..k - 1]));
    }
  }

  // -------------------------------------------------------------------- the submit tasks

  /** What a step does to the tasks of an id: a claim spawns one, a failed preparation or an outcome ends one. */
  function TaskPart(cfg: RuntimeConfig, s: System, step: Step, id: SubmitId): int {
    if ClaimsBy(cfg, step) && id == NextClaimId(s.core.inv) then 1
    else if (step.PrepareFailed? || step.HttpOutcome?) && step.id == id then -1
    else 0
  }

  function TasksLeft(cfg: RuntimeConfig, states: seq<System>, steps: seq<Step>, id: SubmitId): int
    requires |states| > |steps|
  {
    if steps == [] then 0
    else
      TasksLeft(cfg, states, steps[..|steps| - 1], id) + TaskPart(cfg, states[|steps| - 1], steps[|steps| - 1], id)
  }

  lemma TaskStep(cfg: RuntimeConfig, s: System, step: Step, id: SubmitId)
    requires Enabled(cfg, s, step)
    ensures Next(cfg, s, step).tasks[id] == s.tasks[id] + TaskPart(cfg, s, step, id)
  {
  }

  /** In every state of every run the open tasks of an id are the claims made under it less the reports made
      on it: every claim is reported on at most once. */
  lemma {:induction false} TasksAccounted(cfg: RuntimeConfig, states: seq<System>, steps: seq<Step>, k: nat, id: SubmitId)
    requires IsRun(cfg, states, steps) && k <= |steps|
    ensures states[k].tasks[id] == TasksLeft(cfg, states, steps[..k], id) >= 0
  {
    if k > 0 {
      TasksAccounted(cfg, states, steps, k - 1, id);
      assert IsStep(cfg, states, steps, k - 1);
      assert steps[..k][..k - 1] == steps[..k - 1];
      TaskStep(cfg, states[k - 1], steps[k - 1], id);
    }
  }
}
