/** The round-trip average over whole runs: what it is made of, and that no claim is made above its
    ceiling. */
module RunLatency {
  import opened Wrappers
  import opened VenueTypes
  import opened InventorySpec
  import opened RuntimeSpec
  import opened Protocol
  import opened Latency
  import MachineInt

  /** The round trips the submit tasks reported, in order. */
  function RoundTrips(steps: seq<Step>): seq<int> {
    if steps == [] then []
    else
      var last := steps[|steps| - 1];
      RoundTrips(steps[..|steps| - 1]) + if last.HttpOutcome? then [last.rtt] else []
  }

  lemma AverageStep(cfg: RuntimeConfig, s: System, step: Step)
    ensures Next(cfg, s, step).core.rttEwmaUs
            == if step.HttpOutcome? then FoldRtt(s.core.rttEwmaUs, step.rtt) else s.core.rttEwmaUs
  {
  }

  lemma RunRttAppend(samples: seq<int>, more: seq<int>)
    requires |more| <= 1
    ensures RunRtt(samples + more) == if more == [] then RunRtt(samples) else FoldRtt(RunRtt(samples), more[0])
  {
    if more == [] {
      assert samples + more == samples;
    } else {
      assert (samples + more)[..|samples + more| - 1] == samples;
    }
  }

  /** In every state of every run the average is the fold of exactly the round trips reported so far. */
  lemma {:induction false} AverageIsOfReports(cfg: RuntimeConfig, states: seq<System>, steps: seq<Step>, k: nat)
    requires IsRun(cfg, states, steps) && k <= |steps|
    ensures states[k].core.rttEwmaUs == RunRtt(RoundTrips(steps[..k]))
  {
    if k > 0 {
      AverageIsOfReports(cfg, states, steps, k - 1);
      assert IsStep(cfg, states, steps, k - 1);
      AverageStep(cfg, states[k - 1], steps[k - 1]);
      assert steps[..k][..k - 1] == steps[..k - 1];
      var more := if steps[k - 1].HttpOutcome? then [steps[k - 1].rtt] else [];
      RunRttAppend(RoundTrips(steps[..k - 1]), more);
    }
  }

  lemma ClaimBelowCeiling(cfg: RuntimeConfig, s: System, step: Step)
    requires ClaimsBy(cfg, step) && Enabled(cfg, s, step) && cfg.gates.rttCeilingUs > 0
    ensures s.core.rttEwmaUs <= cfg.gates.rttCeilingUs
  {
  }

  /** No claim is made while the average of the round trips reported so far is over a positive ceiling. */
  lemma NoClaimAboveCeiling(cfg: RuntimeConfig, states: seq<System>, steps: seq<Step>, j: nat)
    requires IsRun(cfg, states, steps) && j < |steps| && ClaimsBy(cfg, steps[j])
    requires cfg.gates.rttCeilingUs > 0
    ensures RunRtt(RoundTrips(steps[..j])) <= cfg.gates.rttCeilingUs
  {
    assert IsStep(cfg, states, steps, j);
    AverageIsOfReports(cfg, states, steps, j);
    ClaimBelowCeiling(cfg, states[j], steps[j]);
  }

  /** So while every report has been over the ceiling, and there has been one, the entry is closed. */
  lemma SlowStartBlocks(cfg: RuntimeConfig, states: seq<System>, steps: seq<Step>, j: nat)
    requires IsRun(cfg, states, steps) && j < |steps|
    requires 0 < cfg.gates.rttCeilingUs && RoundTrips(steps[..j]) != []
    requires forall r :: r in RoundTrips(steps[..j]) ==> cfg.gates.rttCeilingUs < r <= MachineInt.I64_MAX
    ensures !ClaimsBy(cfg, steps[j])
  {
    if ClaimsBy(cfg, steps[j]) {
      var trips := RoundTrips(steps[..j]);
      assert trips[0] in trips && cfg.gates.rttCeilingUs < trips[0] <= MachineInt.I64_MAX;
      NoClaimAboveCeiling(cfg, states, steps, j);
      AverageWithinSamples(trips, cfg.gates.rttCeilingUs + 1, MachineInt.I64_MAX);
    }
  }
}
