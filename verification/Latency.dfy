/** The round-trip average and the entry gate that turns it into a required edge. */
module Latency {
  import opened Wrappers
  import opened MachineInt
  import opened VenueTypes
  import opened MarketState
  import opened RuntimeSpec

  // -------------------------------------------------------------------------- EWMA

  /** The average after a sequence of samples, from a fresh start. */
  function RunRtt(samples: seq<int>): int {
    if samples == [] then 0 else FoldRtt(RunRtt(samples[..|samples| - 1]), samples[|samples| - 1])
  }

  /** One step moves the average between its old value and the sample, never past either. */
  lemma FoldBetween(ewma: int, rtt: int)
    requires 0 < ewma <= I64_MAX && 0 < rtt <= I64_MAX
    ensures Min(ewma, rtt) <= FoldRtt(ewma, rtt) <= Max(ewma, rtt)
    ensures FoldRtt(ewma, rtt) == ewma <==> 0 <= rtt - ewma < 8
    ensures ewma > rtt ==> FoldRtt(ewma, rtt) < ewma
    ensures rtt - ewma >= 8 ==> ewma < FoldRtt(ewma, rtt) <= rtt - 7
  {
  }

  /** The average is zero exactly until the first positive sample, and from then on lies between
      the least and the greatest positive sample seen. */
  lemma {:induction false} AverageWithinSamples(samples: seq<int>, lo: int, hi: int)
    requires 0 < lo <= hi <= I64_MAX
    requires forall r :: r in samples && r > 0 ==> lo <= r <= hi
    ensures RunRtt(samples) == 0 <==> forall r :: r in samples ==> r <= 0
    ensures RunRtt(samples) != 0 ==> lo <= RunRtt(samples) <= hi
  {
    if samples != [] {
      var init, last := samples[..|samples| - 1], samples[|samples| - 1];
      assert samples == init + [last];
      assert last in samples && forall r :: r in samples <==> r in init || r == last;
      AverageWithinSamples(init, lo, hi);
      if last > 0 && RunRtt(init) != 0 {
        FoldBetween(RunRtt(init), last);
      }
    }
  }

  /** n equal samples in a row. */
  function Repeat(ewma: int, rtt: int, n: nat): int
    decreases n
  {
    if n == 0 then ewma else Repeat(FoldRtt(ewma, rtt), rtt, n - 1)
  }

  /** Where the average settles under a constant sample: on it from above, up to seven short of it
      from below, and not at all inside that dead band. */
  function Settled(ewma: int, rtt: int): int {
    if ewma >= rtt then rtt else if ewma >= rtt - 7 then ewma else rtt - 7
  }

  /** Under a constant sample the average reaches its settled value and stays there for good. */
  lemma {:induction false} ConstantInputSettles(ewma: int, rtt: int, n: nat)
    requires 0 < ewma <= I64_MAX && 0 < rtt <= I64_MAX
    requires n >= Abs(ewma - Settled(ewma, rtt))
    ensures Repeat(ewma, rtt, n) == Settled(ewma, rtt)
    ensures rtt - 7 <= Repeat(ewma, rtt, n) <= rtt
    decreases n
  {
    FoldBetween(ewma, rtt);
    if n > 0 {
      var next := FoldRtt(ewma, rtt);
      assert Settled(next, rtt) == Settled(ewma, rtt);
      ConstantInputSettles(next, rtt, n - 1);
    }
  }

  // -------------------------------------------------------------------- edge check

  lemma CeilingExceeds(n: int, d: int, x: int)
    requires d > 0 && n >= 0
    ensures (n + d - 1) / d > x <==> n > x * d
  {
    var q := (n + d - 1) / d;
    assert n + d - 1 == d * q + (n + d - 1) % d;
    OrderScales(x + 1, q, d);
    OrderScales(q, x, d);
  }

  lemma OrderScales(a: int, b: int, d: int)
    requires d > 0
    ensures a <= b ==> d * a <= d * b
    ensures d * (a + 1) == d * a + d
  {
    assert d * (b - a) == d * b - d * a;
    assert a <= b ==> d * (b - a) >= 0;
  }

  /** The check blocks exactly when the edge beyond the clean floor, over the measured span, is less
      than the safety-scaled drift over one round trip; an edge of i32::MAX is never blocked. */
  lemma EdgeCheckExact(g: GateConfig, ewma: int, edge: int, drift: int, dt: int)
    requires g.driftSafetyBps > 0 && ewma > 0 && dt > 0
    requires 0 <= g.driftMinCleanEdgeTicks <= I32_MAX && FitsI32(edge)
    requires Abs(drift) * ewma * g.driftSafetyBps + dt * 10_000 <= I64_MAX
    ensures EdgeInsufficient(g, ewma, edge, drift, dt)
            <==> (edge < I32_MAX
                  && (edge - g.driftMinCleanEdgeTicks) * (dt * 10_000) < Abs(drift) * ewma * g.driftSafetyBps)
  {
    var p := Abs(drift) * ewma;
    var n, d := p * g.driftSafetyBps, dt * 10_000;
    assert 0 <= p <= n by { ProductGrows(p, g.driftSafetyBps); assert Abs(drift) * ewma >= 0; }
    assert SatMul(Abs(drift), ewma) == p && SatMul(p, g.driftSafetyBps) == n && SatMul(dt, 10_000) == d;
    CeilingExceeds(n, d, edge - g.driftMinCleanEdgeTicks);
    CeilingExceeds(n, d, -1);
    RequiredEdge((n + d - 1) / d, g.driftMinCleanEdgeTicks, edge);
  }

  lemma ProductGrows(p: int, k: int)
    requires p >= 0 && k > 0
    ensures p * k >= p
  {
    assert p * k == p + p * (k - 1);
    assert p * (k - 1) >= 0;
  }

  /** Clamping the required drift and its sum to 32 bits only matters for an edge of i32::MAX. */
  lemma RequiredEdge(ceiling: int, clean: int, edge: int)
    requires ceiling >= 0 && 0 <= clean <= I32_MAX && edge <= I32_MAX
    ensures edge < SatAdd32(Min(ceiling, I32_MAX), clean) <==> (edge < I32_MAX && ceiling > edge - clean)
  {
  }

  // ------------------------------------------------------------------- what is measured

  /** The drift the gate uses is a fact about the quote history: the newest sample's ask against the
      ask of the oldest sample inside the window, among the newest 64 taken for the token. */
  lemma DriftIsOverHistory(feed: Feed, token: TokenId, window: int, now: int) returns (i: nat)
    requires MeasuredDrift(RunFeed(feed), token, window, now).Some?
    ensures var taken := Newest(TakenSince(feed, token), QUOTE_HISTORY_CAP);
            var (drift, dt) := MeasuredDrift(RunFeed(feed), token, window, now).value;
            && i < |taken| && now - taken[i].ts == dt <= window
            && (forall j :: 0 <= j < i ==> taken[j].ts < now - window)
            && taken[i].askTicks.Some? && taken[|taken| - 1].askTicks.Some?
            && drift == taken[|taken| - 1].askTicks.value - taken[i].askTicks.value
  {
    var v := RunFeed(feed);
    RingIsNewestHistory(feed, token);
    var ring := RingOf(v, token);
    var past := OldestSince(ring, now - window);
    i :| 0 <= i < |ring| && ring[i] == past.value && past.value.ts >= now - window
         && forall j :: 0 <= j < i ==> ring[j].ts < now - window;
  }

  /** A drift is measured exactly when the newest sample and the oldest one in the window have an ask. */
  lemma DriftMeasuredExactlyWhen(feed: Feed, token: TokenId, window: int, now: int)
    ensures var taken := Newest(TakenSince(feed, token), QUOTE_HISTORY_CAP);
            MeasuredDrift(RunFeed(feed), token, window, now).Some?
            <==> && taken != [] && taken[|taken| - 1].askTicks.Some?
                 && exists i :: 0 <= i < |taken| && OldestIn(taken, i, now - window) && taken[i].askTicks.Some?
  {
    MeasuredFromRing(feed, token, window, now);
    OldestHasAsk(Newest(TakenSince(feed, token), QUOTE_HISTORY_CAP), now - window);
  }

  lemma MeasuredFromRing(feed: Feed, token: TokenId, window: int, now: int)
    ensures var taken := Newest(TakenSince(feed, token), QUOTE_HISTORY_CAP);
            var past := OldestSince(taken, now - window);
            MeasuredDrift(RunFeed(feed), token, window, now).Some?
            <==> taken != [] && taken[|taken| - 1].askTicks.Some? && past.Some? && past.value.askTicks.Some?
  {
    RingIsNewestHistory(feed, token);
  }

  lemma OldestHasAsk(ring: seq<QuoteSample>, cutoff: int)
    ensures var past := OldestSince(ring, cutoff);
            past.Some? && past.value.askTicks.Some?
            <==> exists i :: 0 <= i < |ring| && OldestIn(ring, i, cutoff) && ring[i].askTicks.Some?
  {
    var past := OldestSince(ring, cutoff);
    if past.Some? {
      var k :| 0 <= k < |ring| && ring[k] == past.value && past.value.ts >= cutoff
               && forall j :: 0 <= j < k ==> ring[j].ts < cutoff;
      assert OldestIn(ring, k, cutoff);
      if i :| 0 <= i < |ring| && OldestIn(ring, i, cutoff) && ring[i].askTicks.Some? {
        OneOldest(ring, cutoff, i, k);
      }
    }
  }

  lemma OneOldest(ring: seq<QuoteSample>, cutoff: int, i: int, k: int)
    requires 0 <= i < |ring| && 0 <= k < |ring| && OldestIn(ring, i, cutoff) && OldestIn(ring, k, cutoff)
    ensures i == k
  {
  }

  ghost predicate OldestIn(ring: seq<QuoteSample>, i: int, cutoff: int)
    requires 0 <= i < |ring|
  {
    ring[i].ts >= cutoff && forall j :: 0 <= j < i ==> ring[j].ts < cutoff
  }

  /** What each gate reason certifies; with every threshold at zero nothing is ever blocked. */
  lemma GateReasonMeans(g: GateConfig, c: CoreState, intent: BuyIntent, now: int)
    ensures var r := EntryGateBlock(g, c, intent, now);
            var measured := MeasuredDrift(c.market, intent.token, g.driftWindowUs, now);
            && (r == Some(RttEwmaHigh) <==> 0 < g.rttCeilingUs < c.rttEwmaUs)
            && (r.Some? && r != Some(RttEwmaHigh) ==> measured.Some? && g.driftWindowUs > 0)
            && (r == Some(PolyDriftUp) ==> measured.value.0 >= g.driftBlockUpTicks > 0)
            && (r == Some(PolyDriftDown) ==> measured.value.0 <= -g.driftBlockDownTicks < 0)
            && (r == Some(EdgeInsufficientForDrift) ==>
                  EdgeInsufficient(g, c.rttEwmaUs, intent.edgeTicks, measured.value.0, measured.value.1))
            && (r.None? && measured.Some? && g.driftWindowUs > 0 ==>
                  && (g.driftBlockUpTicks > 0 ==> measured.value.0 < g.driftBlockUpTicks)
                  && (g.driftBlockDownTicks > 0 ==> -g.driftBlockDownTicks < measured.value.0)
                  && !EdgeInsufficient(g, c.rttEwmaUs, intent.edgeTicks, measured.value.0, measured.value.1))
    ensures g == GateConfig(0, 0, 0, 0, 0, 0) ==> EntryGateBlock(g, c, intent, now).None?
  {
  }
}
