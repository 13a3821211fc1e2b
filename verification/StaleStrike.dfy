/** Exactly which markets can leave a strike behind: those whose anchor may still answer when the next
    market is due. */
module StaleStrike {
  import opened Wrappers
  import opened MachineInt
  import opened MarketState
  import opened RuntimeSpec
  import opened Protocol
  import opened StrikeSafety
  import Anchor
  import Signal

  /** Step i of a run resolves a strike for the market m after m has been left. */
  ghost predicate AnswersLeft(cfg: RuntimeConfig, m: MarketContext, lag: int,
                              states: seq<System>, steps: seq<Step>, i: nat) {
    && IsRun(cfg, states, steps) && ClocksAgree(steps, lag)
    && i < |steps| && AnswerOf(steps[i]).Some?
    && (exists t :: 0 <= t < i && TargetedAt(states, steps, t, i) && states[t].core.market.market == Some(m))
    && states[i].core.market.market != Some(m)
  }

  /** A market that has not ended when its window starts, at a time that fits the clock. */
  predicate Plausible(m: MarketContext) {
    0 < m.slugTs < m.endTs && FitsI64((m.slugTs + 60) * 1_000_000)
  }

  /** Some run resolves a strike for a market already left, if and only if the market does not outlive its
      anchor: its end, less the rotation's lead, comes within the anchor's late limit. */
  lemma StaleAnswerExactlyWhen(cfg: RuntimeConfig, m: MarketContext, lag: int)
    requires Plausible(m) && lag >= 0
    ensures (exists states, steps, i :: AnswersLeft(cfg, m, lag, states, steps, i)) <==> !OutlivesAnchor(m, lag)
  {
    if !OutlivesAnchor(m, lag) {
      var states, steps := RunThatAnswersLate(cfg, m, lag);
      assert AnswersLeft(cfg, m, lag, states, steps, 7);
    }
    forall states, steps, i | AnswersLeft(cfg, m, lag, states, steps, i)
      ensures !OutlivesAnchor(m, lag)
    {
      LeftInTime(cfg, m, lag, states, steps, i);
    }
  }

  lemma LeftInTime(cfg: RuntimeConfig, m: MarketContext, lag: int, states: seq<System>, steps: seq<Step>, i: nat)
    requires AnswersLeft(cfg, m, lag, states, steps, i)
    ensures !OutlivesAnchor(m, lag)
  {
    var t :| 0 <= t < i && TargetedAt(states, steps, t, i) && states[t].core.market.market == Some(m);
    if OutlivesAnchor(m, lag) {
      AnsweredBeforeLeft(cfg, states, steps, t, i, lag);
    }
  }

  // ------------------------------------------------------- the run of a market that does not

  /** The market is found late: six seconds before its end, or at its start when it is shorter. */
  function FoundAt(m: MarketContext): int {
    Max(m.slugTs, m.endTs - 6) * 1_000_000
  }

  /** The next rotation is due a second later. */
  function LeftAt(m: MarketContext): int {
    FoundAt(m) + 1_000_000
  }

  /** When the late answer comes: with the rotation if that is in time, and past the discovery threshold. */
  function LateAnswerAt(m: MarketContext): int {
    if LeftAt(m) <= Anchor.LatestAnswer(m.slugTs) then Max(LeftAt(m), (m.slugTs + 2) * 1_000_000)
    else Anchor.LatestAnswer(m.slugTs)
  }

  function Flat(ts: int, id: nat): Signal.BinanceSample {
    Signal.BinanceSample(ts, id, 99.0, 101.0, 1.0, 1.0, 100.0)
  }

  function LastSampleAt(m: MarketContext): int {
    Max(LateAnswerAt(m), FoundAt(m) + 2)
  }

  /** The market whose window starts where this one ends. */
  function Following(m: MarketContext): MarketContext {
    MarketContext(m.slug + "+", m.conditionId, m.yesToken, m.noToken, m.endTs + 300, m.endTs)
  }

  /** Two messages, the rotation and its target, the next rotation, and a third message before the new target. */
  ghost function LateSteps(m: MarketContext): seq<Step> {
    var (f, a) := (FoundAt(m), LateAnswerAt(m));
    [ AnchorTick(Flat(f, 1), f, Anchor.Pending), BinanceTick(Flat(f, 1), f, None, None),
      AnchorTick(Flat(f + 1, 2), f, Anchor.Pending), BinanceTick(Flat(f + 1, 2), f, None, None),
      Rotation(m, f), SetTarget, Rotation(Following(m), LeftAt(m)),
      AnchorTick(Flat(LastSampleAt(m), 3), a, Anchor.Resolved(Anchor.Median([100.0, 100.0, 100.0]))) ]
  }

  /** The times of the run: rotations on their deadlines, the answer within the late limit. */
  lemma LateTimes(m: MarketContext, lag: int)
    requires Plausible(m) && !OutlivesAnchor(m, lag) && lag >= 0
    ensures RotationDue(m, FoundAt(m)) == LeftAt(m)
    ensures LeftAt(m) <= LateAnswerAt(m) + lag
    ensures m.slugTs * 1_000_000 + 1_300_000 < LateAnswerAt(m) <= Anchor.LatestAnswer(m.slugTs)
    ensures m.slugTs * 1_000_000 <= FoundAt(m) && FoundAt(m) + 1 < LastSampleAt(m) <= FoundAt(m) + 10_000_000
  {
    var s := Max(m.slugTs, m.endTs - 6);
    assert s * 1_000_000 / 1_000_000 == s;
  }

  function Buffer(m: MarketContext, n: nat): seq<Anchor.Sample>
    requires n <= 3
  {
    var (x1, x2, x3) :=
      (Anchor.Sample(FoundAt(m), 100.0), Anchor.Sample(FoundAt(m) + 1, 100.0), Anchor.Sample(LastSampleAt(m), 100.0));
    if n == 0 then [] else if n == 1 then [x1] else if n == 2 then [x1, x2] else [x1, x2, x3]
  }

  function AnchorView(m: MarketContext, n: nat, pending: int): Anchor.AnchorView
    requires n <= 2
  {
    Anchor.AnchorView(Buffer(m, n), pending, if n == 0 then 0 else FoundAt(m) + n - 1)
  }

  function SampleTime(m: MarketContext, n: nat): int {
    if n == 3 then LastSampleAt(m) else FoundAt(m) + n - 1
  }

  lemma LatePush(m: MarketContext, n: nat, pending: int, lag: int)
    requires Plausible(m) && !OutlivesAnchor(m, lag) && lag >= 0 && n < 3
    ensures Anchor.Push(AnchorView(m, n, pending), SampleTime(m, n + 1), Anchor.Book(99.0, 101.0, 1.0, 1.0))
            == Anchor.AnchorView(Buffer(m, n + 1), pending, SampleTime(m, n + 1))
  {
    LateTimes(m, lag);
    assert Anchor.Weighted(Anchor.Book(99.0, 101.0, 1.0, 1.0)) == 100.0;
    var all := Buffer(m, n) + [Anchor.Sample(SampleTime(m, n + 1), 100.0)];
    assert all == Buffer(m, n + 1) && all[0].ts == FoundAt(m);
    assert FoundAt(m) >= SatSub(SampleTime(m, n + 1), Anchor.ANCHOR_BUFFER_HORIZON_US);
  }

  /** After the late limit's threshold every sample since the window's start counts. */
  lemma LateCounts(slugTs: int, now: int, ts: int)
    requires 0 < slugTs && FitsI64((slugTs + 60) * 1_000_000)
    requires slugTs * 1_000_000 + 1_300_000 < now <= Anchor.LatestAnswer(slugTs) && ts >= slugTs * 1_000_000
    ensures Anchor.Counts(slugTs, now, ts)
  {
  }

  lemma LateSelect(m: MarketContext, lag: int)
    requires Plausible(m) && !OutlivesAnchor(m, lag) && lag >= 0
    ensures Anchor.Select(Buffer(m, 3), m.slugTs, LateAnswerAt(m)) == [100.0, 100.0, 100.0]
  {
    LateTimes(m, lag);
    var s := Buffer(m, 3);
    forall x | x in s
      ensures Anchor.Counts(m.slugTs, LateAnswerAt(m), x.ts)
    {
      LateCounts(m.slugTs, LateAnswerAt(m), x.ts);
    }
    SelectThree(s[0], s[1], s[2], m.slugTs, LateAnswerAt(m));
    assert s == [s[0], s[1], s[2]];
  }

  lemma SelectThree(a: Anchor.Sample, b: Anchor.Sample, c: Anchor.Sample, slugTs: int, now: int)
    requires forall x :: x in [a, b, c] ==> Anchor.Counts(slugTs, now, x.ts)
    ensures Anchor.Select([a, b, c], slugTs, now) == [a.micro, b.micro, c.micro]
  {
    var s := [a, b, c];
    assert s[0] in s && s[1] in s && s[2] in s;
    assert Anchor.Select(s[1..][1..], slugTs, now) == [c.micro] + Anchor.Select(s[1..][1..][1..], slugTs, now);
    assert Anchor.Select(s[1..], slugTs, now) == [b.micro] + Anchor.Select(s[1..][1..], slugTs, now);
  }

  /** What of a state the run depends on: the engine and the ledger are left open. */
  ghost predicate At(s: System, market: Option<MarketContext>, anchor: Anchor.AnchorView, retarget: bool, due: int,
                     inHand: Option<Message>) {
    s.core.market.market == market && s.anchor == anchor && s.retarget == retarget && s.due == due && s.inHand == inHand
  }

  /** A message before any market is found. */
  lemma EarlyMessage(cfg: RuntimeConfig, m: MarketContext, n: nat, s: System, lag: int)
    requires Plausible(m) && !OutlivesAnchor(m, lag) && lag >= 0 && n < 2
    requires At(s, None, AnchorView(m, n, 0), false, 0, None)
    ensures var (x, now) := (Flat(SampleTime(m, n + 1), n + 1), FoundAt(m));
            var (a, b) := (AnchorTick(x, now, Anchor.Pending), BinanceTick(x, now, None, None));
            var between := Next(cfg, s, a);
            && Enabled(cfg, s, a) && Enabled(cfg, between, b)
            && At(Next(cfg, between, b), None, AnchorView(m, n + 1, 0), false, 0, None)
  {
    LatePush(m, n, 0, lag);
  }

  lemma RotateAndTarget(cfg: RuntimeConfig, m: MarketContext, s: System, lag: int)
    requires Plausible(m) && !OutlivesAnchor(m, lag) && lag >= 0
    requires At(s, None, AnchorView(m, 2, 0), false, 0, None)
    ensures var rotated := Next(cfg, s, Rotation(m, FoundAt(m)));
            && Enabled(cfg, s, Rotation(m, FoundAt(m))) && Enabled(cfg, rotated, SetTarget)
            && At(Next(cfg, rotated, SetTarget), Some(m), AnchorView(m, 2, m.slugTs), false, LeftAt(m), None)
  {
    LateTimes(m, lag);
  }

  lemma LeaveIt(cfg: RuntimeConfig, m: MarketContext, s: System)
    requires At(s, Some(m), AnchorView(m, 2, m.slugTs), false, LeftAt(m), None)
    ensures var next := Rotation(Following(m), LeftAt(m));
            && Enabled(cfg, s, next)
            && Next(cfg, s, next).core.market.market == Some(Following(m)) != Some(m)
            && Next(cfg, s, next).anchor == s.anchor && Next(cfg, s, next).inHand.None? && Next(cfg, s, next).retarget
  {
    assert |m.slug + "+"| != |m.slug|;
  }

  lemma LateAnswer(cfg: RuntimeConfig, m: MarketContext, s: System, lag: int)
    requires Plausible(m) && !OutlivesAnchor(m, lag) && lag >= 0
    requires s.anchor == AnchorView(m, 2, m.slugTs) && s.inHand.None?
    ensures Enabled(cfg, s, LateSteps(m)[7])
  {
    LatePush(m, 2, m.slugTs, lag);
    LateSelect(m, lag);
  }

  /** A run made of the first steps. */
  ghost predicate RunOf(cfg: RuntimeConfig, states: seq<System>, steps: seq<Step>, n: nat)
    requires n <= |steps|
  {
    IsRun(cfg, states, steps[..n])
  }

  lemma OneMore(cfg: RuntimeConfig, states: seq<System>, steps: seq<Step>, n: nat) returns (longer: seq<System>)
    requires n < |steps| && RunOf(cfg, states, steps, n) && Enabled(cfg, states[n], steps[n])
    ensures RunOf(cfg, longer, steps, n + 1) && |longer| == n + 2
    ensures forall k :: 0 <= k <= n ==> longer[k] == states[k]
    ensures longer[n + 1] == Next(cfg, states[n], steps[n])
  {
    var next := Next(cfg, states[n], steps[n]);
    RunExtends(cfg, states, steps[..n], steps[n], next);
    longer := states + [next];
    assert steps[..n] + [steps[n]] == steps[..n + 1];
  }

  lemma EarlySteps(m: MarketContext, n: nat)
    requires n < 2
    ensures |LateSteps(m)| == 8
    ensures LateSteps(m)[2 * n] == AnchorTick(Flat(SampleTime(m, n + 1), n + 1), FoundAt(m), Anchor.Pending)
    ensures LateSteps(m)[2 * n + 1] == BinanceTick(Flat(SampleTime(m, n + 1), n + 1), FoundAt(m), None, None)
  {
  }

  lemma OneMessage(cfg: RuntimeConfig, m: MarketContext, lag: int, n: nat, states: seq<System>)
    returns (longer: seq<System>)
    requires Plausible(m) && !OutlivesAnchor(m, lag) && lag >= 0 && n < 2
    requires RunOf(cfg, states, LateSteps(m), 2 * n) && At(states[2 * n], None, AnchorView(m, n, 0), false, 0, None)
    ensures RunOf(cfg, longer, LateSteps(m), 2 * n + 2)
    ensures At(longer[2 * n + 2], None, AnchorView(m, n + 1, 0), false, 0, None)
  {
    var steps, k := LateSteps(m), 2 * n;
    EarlySteps(m, n);
    EarlyMessage(cfg, m, n, states[k], lag);
    longer := OneMore(cfg, states, steps, k);
    longer := OneMore(cfg, longer, steps, k + 1);
  }

  lemma EarlyRun(cfg: RuntimeConfig, m: MarketContext, lag: int) returns (states: seq<System>)
    requires Plausible(m) && !OutlivesAnchor(m, lag) && lag >= 0
    ensures RunOf(cfg, states, LateSteps(m), 4) && At(states[4], None, AnchorView(m, 2, 0), false, 0, None)
  {
    states := [BOOT];
    states := OneMessage(cfg, m, lag, 0, states);
    states := OneMessage(cfg, m, lag, 1, states);
  }

  lemma TargetedRun(cfg: RuntimeConfig, m: MarketContext, lag: int) returns (states: seq<System>)
    requires Plausible(m) && !OutlivesAnchor(m, lag) && lag >= 0
    ensures RunOf(cfg, states, LateSteps(m), 6) && states[5].core.market.market == Some(m)
    ensures At(states[6], Some(m), AnchorView(m, 2, m.slugTs), false, LeftAt(m), None)
  {
    states := EarlyRun(cfg, m, lag);
    RotateAndTarget(cfg, m, states[4], lag);
    states := OneMore(cfg, states, LateSteps(m), 4);
    states := OneMore(cfg, states, LateSteps(m), 5);
  }

  /** The run: found late, left on the deadline, answered before the new target is set. */
  lemma RunThatAnswersLate(cfg: RuntimeConfig, m: MarketContext, lag: int)
    returns (states: seq<System>, steps: seq<Step>)
    requires Plausible(m) && !OutlivesAnchor(m, lag) && lag >= 0
    ensures AnswersLeft(cfg, m, lag, states, steps, 7)
  {
    steps := LateSteps(m);
    states := TargetedRun(cfg, m, lag);
    LeaveIt(cfg, m, states[6]);
    states := OneMore(cfg, states, steps, 6);
    LateAnswer(cfg, m, states[7], lag);
    states := OneMore(cfg, states, steps, 7);
    assert steps[..8] == steps;
    LateClocks(m, lag);
    LateTarget(cfg, m, states, steps);
  }

  lemma LateClocks(m: MarketContext, lag: int)
    requires Plausible(m) && !OutlivesAnchor(m, lag) && lag >= 0
    ensures ClocksAgree(LateSteps(m), lag)
  {
    LateTimes(m, lag);
  }

  lemma LateTarget(cfg: RuntimeConfig, m: MarketContext, states: seq<System>, steps: seq<Step>)
    requires IsRun(cfg, states, steps) && steps == LateSteps(m)
    requires states[5].core.market.market == Some(m) && states[7].core.market.market != Some(m)
    requires states[7].anchor.pendingSlugTs == m.slugTs && states[7].retarget
    ensures TargetedAt(states, steps, 5, 7)
  {
    assert steps[6].Rotation?;
  }
}
