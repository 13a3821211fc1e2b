/** Strike resolution from a trimmed buffer of microprice samples, prices idealised to reals. */
module Anchor {
  import opened Wrappers
  import opened MachineInt

  const ANCHOR_WINDOW_END_US: int := 300_000
  const ANCHOR_BUFFER_HORIZON_US: int := 10_000_000
  const MIN_ANCHOR_SAMPLES: nat := 3
  const LATE_DISCOVERY_THRESHOLD_US: int := 1_000_000
  const MAX_LATE_WINDOW_US: int := 30_000_000

  datatype Sample = Sample(ts: int, micro: real)

  datatype AnchorResult = Pending | Failed | Resolved(strike: real)

  datatype AnchorView = AnchorView(samples: seq<Sample>, pendingSlugTs: int, maxTsSeen: int)

  const EMPTY_BUFFER: AnchorView := AnchorView([], 0, 0)

  datatype Book = Book(bid: real, ask: real, bidQty: real, askQty: real)

  function Weighted(b: Book): real
    requires b.bidQty + b.askQty > 0.0
  {
    (b.bid * b.askQty + b.ask * b.bidQty) / (b.bidQty + b.askQty)
  }

  /** Size-weighted mid, when the sizes and the price are positive. */
  function Microprice(b: Book): Option<real> {
    if b.bidQty + b.askQty <= 0.0 || Weighted(b) <= 0.0 then None else Some(Weighted(b))
  }

  /** On an uncrossed book with sizes on both sides the microprice lies between the quotes, and on
      the ask's half exactly when the bid is the larger: size pushes the price away from itself. */
  lemma MicropriceLeans(b: Book)
    requires 0.0 < b.bid < b.ask && b.bidQty > 0.0 && b.askQty > 0.0
    ensures Microprice(b).Some?
    ensures b.bid < Microprice(b).value < b.ask
    ensures b.bid + b.ask < 2.0 * Microprice(b).value <==> b.bidQty > b.askQty
  {
    WeightedMid(b.bid, b.ask, b.bidQty, b.askQty, b.bidQty + b.askQty, Weighted(b));
  }

  /** The weighted mean of two prices, each weighted with the other's size. */
  lemma WeightedMid(bid: real, ask: real, bidQty: real, askQty: real, denom: real, micro: real)
    requires bid < ask && bidQty > 0.0 && askQty > 0.0 && denom == bidQty + askQty
    requires micro * denom == bid * askQty + ask * bidQty
    ensures bid < micro < ask
    ensures bid + ask < 2.0 * micro <==> bidQty > askQty
  {
    assert denom * (micro - bid) == (ask - bid) * bidQty;
    assert denom * (ask - micro) == (ask - bid) * askQty;
    assert denom * (2.0 * micro - bid - ask) == (ask - bid) * (bidQty - askQty);
    SameSign(denom, micro - bid, ask - bid, bidQty);
    SameSign(denom, ask - micro, ask - bid, askQty);
    SameSign(denom, 2.0 * micro - bid - ask, ask - bid, bidQty - askQty);
  }

  lemma SameSign(d: real, x: real, e: real, y: real)
    requires d > 0.0 && e > 0.0 && d * x == e * y
    ensures x > 0.0 <==> y > 0.0
  {
    SignOfProduct(d, x);
    SignOfProduct(e, y);
  }

  lemma SignOfProduct(d: real, x: real)
    requires d > 0.0
    ensures d * x > 0.0 <==> x > 0.0
  {
  }

  predicate Accepts(v: AnchorView, ts: int, b: Book) {
    Microprice(b).Some? && ts > v.maxTsSeen
  }

  /** A tick changes nothing exactly without size, without a positive price, or when it is not newer than
      what was seen. */
  lemma IgnoredExactlyWhen(v: AnchorView, ts: int, b: Book)
    ensures Push(v, ts, b) == v
            <==> b.bidQty + b.askQty <= 0.0 || b.bid * b.askQty + b.ask * b.bidQty <= 0.0 || ts <= v.maxTsSeen
  {
    if b.bidQty + b.askQty > 0.0 {
      SignOfQuotient(b.bid * b.askQty + b.ask * b.bidQty, b.bidQty + b.askQty);
    }
    assert Accepts(v, ts, b) ==> Push(v, ts, b).maxTsSeen == ts;
  }

  lemma SignOfQuotient(n: real, d: real)
    requires d > 0.0
    ensures n / d <= 0.0 <==> n <= 0.0
  {
  }

  /** Drops samples from the front while they are older than the cutoff. */
  function TrimFront(samples: seq<Sample>, cutoff: int): seq<Sample> {
    if samples != [] && samples[0].ts < cutoff then TrimFront(samples[1..], cutoff) else samples
  }

  function Push(v: AnchorView, ts: int, b: Book): AnchorView {
    if !Accepts(v, ts, b) then v
    else AnchorView(TrimFront(v.samples + [Sample(ts, Microprice(b).value)], SatSub(ts, ANCHOR_BUFFER_HORIZON_US)),
                    v.pendingSlugTs, ts)
  }

  function WindowStart(slugTs: int): int {
    SatMul(slugTs, 1_000_000)
  }

  function WindowEnd(slugTs: int): int {
    SatAdd(WindowStart(slugTs), ANCHOR_WINDOW_END_US)
  }

  predicate LateDiscovery(slugTs: int, now: int) {
    now > SatAdd(WindowEnd(slugTs), LATE_DISCOVERY_THRESHOLD_US)
  }

  predicate TooLate(slugTs: int, now: int) {
    LateDiscovery(slugTs, now) && now > SatAdd(WindowEnd(slugTs), MAX_LATE_WINDOW_US)
  }

  /** Which samples count: none when too late, all from the window start on late discovery, else
      those inside the 300 ms window. */
  predicate Counts(slugTs: int, now: int, ts: int) {
    !TooLate(slugTs, now) && ts >= WindowStart(slugTs) && (LateDiscovery(slugTs, now) || ts <= WindowEnd(slugTs))
  }

  function Select(samples: seq<Sample>, slugTs: int, now: int): seq<real> {
    if samples == [] then []
    else (if Counts(slugTs, now, samples[0].ts) then [samples[0].micro] else []) + Select(samples[1..], slugTs, now)
  }

  function Outcome(samples: seq<Sample>, slugTs: int, now: int): AnchorResult {
    if slugTs <= 0 then Pending
    else
      var chosen := Select(samples, slugTs, now);
      if |chosen| < MIN_ANCHOR_SAMPLES then
        (if LateDiscovery(slugTs, now) || now > WindowEnd(slugTs) then Failed else Pending)
      else Resolved(Median(chosen))
  }

  function TryResolve(v: AnchorView, now: int): (AnchorView, AnchorResult) {
    var r := Outcome(v.samples, v.pendingSlugTs, now);
    (if r.Pending? then v else v.(pendingSlugTs := 0), r)
  }

  /** With the clock inside 64 bits: nothing counts past 30.3 s after the window's start; until 1.3 s after
      it only the samples of its first 300 ms do, and from then on all since its start. */
  lemma CountsExactlyWhen(slugTs: int, now: int, ts: int)
    requires slugTs > 0 && FitsI64((slugTs + 60) * 1_000_000)
    ensures var start := slugTs * 1_000_000;
            Counts(slugTs, now, ts)
            <==> start <= ts && now <= start + 30_300_000 && (ts <= start + 300_000 || now > start + 1_300_000)
  {
  }

  lemma Regroup(a: seq<real>, b: seq<real>, c: seq<real>)
    ensures a + (b + c) == (a + b) + c
  {
  }

  /** The price of a sample, if it counts. */
  function Chosen(x: Sample, slugTs: int, now: int): seq<real> {
    if Counts(slugTs, now, x.ts) then [x.micro] else []
  }

  /** The selected prices are those of the samples that count, in order. */
  lemma {:induction false} SelectAppend(samples: seq<Sample>, x: Sample, slugTs: int, now: int)
    ensures Select(samples + [x], slugTs, now) == Select(samples, slugTs, now) + Chosen(x, slugTs, now)
  {
    if samples == [] {
      assert (samples + [x])[1..] == [] && Select([], slugTs, now) == [];
      Regroup([], Chosen(x, slugTs, now), []);
    } else {
      assert (samples + [x])[1..] == samples[1..] + [x];
      SelectAppend(samples[1..], x, slugTs, now);
      Regroup(Chosen(samples[0], slugTs, now), Select(samples[1..], slugTs, now), Chosen(x, slugTs, now));
    }
  }

  /** A target is resolved exactly when three samples count; short of that it is pending while its 300 ms
      window is open and failed once the window has closed. */
  lemma OutcomeExactlyWhen(samples: seq<Sample>, slugTs: int, now: int)
    requires slugTs > 0 && FitsI64((slugTs + 60) * 1_000_000)
    ensures var (r, n) := (Outcome(samples, slugTs, now), |Select(samples, slugTs, now)|);
            && (r.Resolved? <==> n >= 3)
            && (r.Pending? <==> n < 3 && now <= slugTs * 1_000_000 + 300_000)
            && (r.Failed? <==> n < 3 && now > slugTs * 1_000_000 + 300_000)
  {
  }

  /** Without a sample that counts nothing is selected. */
  lemma {:induction false} NothingCounts(samples: seq<Sample>, slugTs: int, now: int)
    requires forall x :: x in samples ==> !Counts(slugTs, now, x.ts)
    ensures Select(samples, slugTs, now) == []
  {
    if samples != [] {
      assert samples[0] in samples;
      assert forall x :: x in samples[1..] ==> x in samples;
      NothingCounts(samples[1..], slugTs, now);
    }
  }

  /** The latest time of an answer. */
  function LatestAnswer(slugTs: int): int {
    slugTs * 1_000_000 + ANCHOR_WINDOW_END_US + MAX_LATE_WINDOW_US
  }

  /** A strike is resolved no later than the late limit after its window. */
  lemma ResolvedInTime(samples: seq<Sample>, slugTs: int, now: int)
    requires slugTs > 0 && Outcome(samples, slugTs, now).Resolved?
    ensures now <= LatestAnswer(slugTs)
  {
    if TooLate(slugTs, now) {
      NothingCounts(samples, slugTs, now);
    }
  }

  class AnchorBuffer {
    var samples: seq<Sample>
    var pendingSlugTs: int
    var maxTsSeen: int

    ghost function View(): AnchorView
      reads this
    {
      AnchorView(samples, pendingSlugTs, maxTsSeen)
    }

    constructor ()
      ensures View() == EMPTY_BUFFER
    {
      samples, pendingSlugTs, maxTsSeen := [], 0, 0;
    }

    method PushTick(ts: int, b: Book)
      modifies this
      ensures View() == Push(old(View()), ts, b)
    {
      var microprice := Microprice(b);
      if microprice.None? {
        return;
      }
      if ts <= maxTsSeen {
        return;
      }
      maxTsSeen := ts;
      samples := samples + [Sample(ts, microprice.value)];
      Trim();
    }

    method Trim()
      modifies this`samples
      ensures samples == TrimFront(old(samples), SatSub(maxTsSeen, ANCHOR_BUFFER_HORIZON_US))
    {
      var cutoff := SatSub(maxTsSeen, ANCHOR_BUFFER_HORIZON_US);
      while samples != [] && samples[0].ts < cutoff
        invariant TrimFront(samples, cutoff) == TrimFront(old(samples), cutoff)
        decreases |samples|
      {
        samples := samples[1..];
      }
    }

    method SetPending(slugTs: int)
      modifies this
      ensures View() == old(View()).(pendingSlugTs := slugTs)
    {
      pendingSlugTs := slugTs;
    }

    method TryResolveNow(now: int) returns (r: AnchorResult)
      modifies this
      ensures View() == TryResolve(old(View()), now).0 && r == TryResolve(old(View()), now).1
    {
      if pendingSlugTs <= 0 {
        return Pending;
      }
      var windowEnd := WindowEnd(pendingSlugTs);
      var late := LateDiscovery(pendingSlugTs, now);
      var chosen := Select(samples, pendingSlugTs, now);
      if |chosen| < MIN_ANCHOR_SAMPLES {
        if late || now > windowEnd {
          pendingSlugTs := 0;
          return Failed;
        }
        return Pending;
      }
      var strike := Median(chosen);
      pendingSlugTs := 0;
      r := Resolved(strike);
    }
  }

  // ---------------------------------------------------------------------- the median

  ghost predicate Ascending(s: seq<real>) {
    forall i, j :: 0 <= i < j < |s| ==> s[i] <= s[j]
  }

  function InsertSorted(x: real, s: seq<real>): seq<real> {
    if s == [] || x <= s[0] then [x] + s else [s[0]] + InsertSorted(x, s[1..])
  }

  function SortedCopy(s: seq<real>): seq<real> {
    if s == [] then [] else InsertSorted(s[0], SortedCopy(s[1..]))
  }

  lemma {:induction false} InsertMembers(x: real, s: seq<real>)
    ensures multiset(InsertSorted(x, s)) == multiset(s) + multiset{x}
  {
    if s != [] && x > s[0] {
      InsertMembers(x, s[1..]);
      assert s == [s[0]] + s[1..];
    }
  }

  lemma {:induction false} InsertKeeps(x: real, s: seq<real>)
    requires Ascending(s)
    ensures Ascending(InsertSorted(x, s))
  {
    if s == [] {
    } else if x <= s[0] {
      ConsAscending(x, s);
    } else {
      InsertKeeps(x, s[1..]);
      assert forall y :: y in s[1..] ==> s[0] <= y;
      InsertedAtLeast(x, s[1..], s[0]);
      ConsAscending(s[0], InsertSorted(x, s[1..]));
    }
  }

  lemma {:induction false} InsertedAtLeast(x: real, s: seq<real>, low: real)
    requires low <= x && forall y :: y in s ==> low <= y
    ensures forall y :: y in InsertSorted(x, s) ==> low <= y
  {
    if s != [] && x > s[0] {
      assert s[0] in s && forall y :: y in s[1..] ==> y in s;
      InsertedAtLeast(x, s[1..], low);
    }
  }

  lemma ConsAscending(x: real, s: seq<real>)
    requires Ascending(s) && forall y :: y in s ==> x <= y
    ensures Ascending([x] + s)
  {
    forall i, j | 0 <= i < j < |s| + 1
      ensures ([x] + s)[i] <= ([x] + s)[j]
    {
      assert ([x] + s)[j] == s[j - 1] && s[j - 1] in s;
    }
  }

  lemma {:induction false} SortedCopySorts(s: seq<real>)
    ensures Ascending(SortedCopy(s)) && multiset(SortedCopy(s)) == multiset(s) && |SortedCopy(s)| == |s|
  {
    if s != [] {
      var rest := SortedCopy(s[1..]);
      SortedCopySorts(s[1..]);
      InsertKeeps(s[0], rest);
      InsertMembers(s[0], rest);
      HeadAndTail(s);
    }
    SameLength(SortedCopy(s), s);
  }

  lemma HeadAndTail(s: seq<real>)
    requires s != []
    ensures multiset(s) == multiset(s[1..]) + multiset{s[0]}
  {
    assert s == [s[0]] + s[1..];
  }

  /** Middle of the sorted copy, or the mean of the two middles. */
  function Median(s: seq<real>): real
    requires s != []
  {
    SortedCopySorts(s);
    var sorted, n := SortedCopy(s), |s|;
    if n % 2 == 1 then sorted[n / 2] else (sorted[n / 2 - 1] + sorted[n / 2]) / 2.0
  }

  lemma HeadLeast(a: seq<real>, b: seq<real>)
    requires Ascending(a) && a != [] && b != [] && multiset(a) == multiset(b)
    ensures a[0] <= b[0]
  {
    assert b[0] in multiset(b);
    assert b[0] in a;
  }

  /** Equal multisets with the same head have tails of equal multisets. */
  lemma SameTails(a: seq<real>, b: seq<real>)
    requires a != [] && b != [] && a[0] == b[0] && multiset(a) == multiset(b)
    ensures multiset(a[1..]) == multiset(b[1..])
  {
    assert a == [a[0]] + a[1..] && b == [b[0]] + b[1..];
    assert multiset(a[1..]) == multiset(a) - multiset{a[0]};
    assert multiset(b[1..]) == multiset(b) - multiset{b[0]};
  }

  lemma {:induction false} SameMultisetSameSort(a: seq<real>, b: seq<real>)
    requires Ascending(a) && Ascending(b) && multiset(a) == multiset(b)
    ensures a == b
  {
    SameLength(a, b);
    if a != [] {
      HeadLeast(a, b);
      HeadLeast(b, a);
      SameTails(a, b);
      SameMultisetSameSort(a[1..], b[1..]);
      assert a == [a[0]] + a[1..] && b == [b[0]] + b[1..];
    }
  }

  lemma SameLength(a: seq<real>, b: seq<real>)
    requires multiset(a) == multiset(b)
    ensures |a| == |b|
  {
    assert |a| == |multiset(a)| == |multiset(b)| == |b|;
  }

  /** The order of the samples does not matter. */
  lemma MedianOrderIndependent(a: seq<real>, b: seq<real>)
    requires a != [] && multiset(a) == multiset(b)
    ensures b != [] && Median(a) == Median(b)
  {
    SameLength(a, b);
    SortedCopySorts(a);
    SortedCopySorts(b);
    SameMultisetSameSort(SortedCopy(a), SortedCopy(b));
  }

  function AtMost(s: seq<real>, x: real): nat {
    if s == [] then 0 else (if s[0] <= x then 1 else 0) + AtMost(s[1..], x)
  }

  function AtLeast(s: seq<real>, x: real): nat {
    if s == [] then 0 else (if s[0] >= x then 1 else 0) + AtLeast(s[1..], x)
  }

  lemma {:induction false} InsertCounts(y: real, s: seq<real>, x: real)
    ensures AtMost(InsertSorted(y, s), x) == AtMost(s, x) + if y <= x then 1 else 0
    ensures AtLeast(InsertSorted(y, s), x) == AtLeast(s, x) + if y >= x then 1 else 0
  {
    if s != [] && y > s[0] {
      InsertCounts(y, s[1..], x);
      assert InsertSorted(y, s)[1..] == InsertSorted(y, s[1..]);
    } else {
      assert InsertSorted(y, s)[1..] == s;
    }
  }

  lemma {:induction false} SortCounts(s: seq<real>, x: real)
    ensures AtMost(SortedCopy(s), x) == AtMost(s, x) && AtLeast(SortedCopy(s), x) == AtLeast(s, x)
  {
    if s != [] {
      SortCounts(s[1..], x);
      InsertCounts(s[0], SortedCopy(s[1..]), x);
    }
  }

  lemma {:induction false} SortedCounts(s: seq<real>, k: nat, x: real)
    requires Ascending(s) && k < |s|
    ensures s[k] <= x ==> AtMost(s, x) >= k + 1
    ensures s[k] >= x ==> AtLeast(s, x) >= |s| - k
  {
    if k > 0 {
      SortedCounts(s[1..], k - 1, x);
    } else {
      AllAtLeast(s, x);
    }
  }

  lemma {:induction false} AllAtLeast(s: seq<real>, x: real)
    ensures (forall i :: 0 <= i < |s| ==> s[i] >= x) ==> AtLeast(s, x) == |s|
  {
    if s != [] {
      AllAtLeast(s[1..], x);
    }
  }

  /** A true median: at least half the samples on each side of it. */
  lemma MedianSplitsInHalf(s: seq<real>)
    requires s != []
    ensures 2 * AtMost(s, Median(s)) >= |s| && 2 * AtLeast(s, Median(s)) >= |s|
  {
    SortedCopySorts(s);
    var sorted, n, m := SortedCopy(s), |s|, Median(s);
    SortCounts(s, m);
    SortedCounts(sorted, n / 2, m);
    if n % 2 == 0 {
      assert sorted[n / 2 - 1] <= sorted[n / 2];
      SortedCounts(sorted, n / 2 - 1, m);
    }
  }

  /** The k-th smallest, counted from one: at least k samples are no greater, and at least as many as follow
      it in order no smaller. */
  ghost predicate IsRanked(s: seq<real>, x: real, k: nat) {
    x in s && AtMost(s, x) >= k && AtLeast(s, x) + k >= |s| + 1
  }

  lemma RankedAt(s: seq<real>, k: nat)
    requires k < |s|
    ensures |SortedCopy(s)| == |s| && IsRanked(s, SortedCopy(s)[k], k + 1)
  {
    SortedCopySorts(s);
    var x := SortedCopy(s)[k];
    SortCounts(s, x);
    SortedCounts(SortedCopy(s), k, x);
    assert x in multiset(SortedCopy(s));
  }

  /** The median is the mean of the two middle samples, which are one for an odd number. */
  lemma MedianIsMiddle(s: seq<real>) returns (low: real, high: real)
    requires s != []
    ensures IsRanked(s, low, (|s| + 1) / 2) && IsRanked(s, high, |s| / 2 + 1)
    ensures Median(s) == (low + high) / 2.0 && (|s| % 2 == 1 ==> low == high)
  {
    RankedAt(s, (|s| - 1) / 2);
    RankedAt(s, |s| / 2);
    low, high := SortedCopy(s)[(|s| - 1) / 2], SortedCopy(s)[|s| / 2];
  }

  // ------------------------------------------------------------------- whole runs

  datatype Step = Tick(ts: int, book: Book) | NewTarget(slugTs: int) | Attempt(now: int)

  function Next(v: AnchorView, step: Step): AnchorView {
    match step
    case Tick(ts, b) => Push(v, ts, b)
    case NewTarget(slugTs) => v.(pendingSlugTs := slugTs)
    case Attempt(now) => TryResolve(v, now).0
  }

  function Run(steps: seq<Step>): AnchorView {
    if steps == [] then EMPTY_BUFFER else Next(Run(steps[..|steps| - 1]), steps[|steps| - 1])
  }

  /** Every sample ever accepted, untrimmed. */
  function Accepted(steps: seq<Step>): seq<Sample> {
    if steps == [] then []
    else
      var init, last := steps[..|steps| - 1], steps[|steps| - 1];
      if last.Tick? && Accepts(Run(init), last.ts, last.book)
      then Accepted(init) + [Sample(last.ts, Microprice(last.book).value)]
      else Accepted(init)
  }

  ghost predicate Chronological(s: seq<Sample>) {
    forall i, j :: 0 <= i < j < |s| ==> s[i].ts < s[j].ts
  }

  lemma {:induction false} TrimComposes(s: seq<Sample>, last: Sample, c1: int, c2: int)
    requires c1 <= c2
    ensures TrimFront(TrimFront(s, c1) + [last], c2) == TrimFront(s + [last], c2)
  {
    if s != [] && s[0].ts < c1 {
      assert (s + [last])[1..] == s[1..] + [last];
      TrimComposes(s[1..], last, c1, c2);
    }
  }

  lemma {:induction false} TrimIsSuffix(s: seq<Sample>, cutoff: int)
    requires Chronological(s)
    ensures Chronological(TrimFront(s, cutoff))
    ensures forall x :: x in TrimFront(s, cutoff) <==> x in s && x.ts >= cutoff
  {
    if s != [] && s[0].ts < cutoff {
      TrimIsSuffix(s[1..], cutoff);
      assert s == [s[0]] + s[1..];
    } else if s != [] {
      forall x | x in s
        ensures x.ts >= cutoff
      {
        var i :| 0 <= i < |s| && s[i] == x;
        assert i > 0 ==> s[0].ts < s[i].ts;
      }
    }
  }

  function Cutoff(v: AnchorView): int {
    SatSub(v.maxTsSeen, ANCHOR_BUFFER_HORIZON_US)
  }

  /** In every reachable state the history is strictly increasing, its newest time is the high-water
      mark, and the buffer is exactly the history within ten seconds of it. */
  lemma {:induction false} BufferIsRecentHistory(steps: seq<Step>)
    ensures Chronological(Accepted(steps))
    ensures Run(steps).maxTsSeen >= 0 && forall x :: x in Accepted(steps) ==> 0 < x.ts <= Run(steps).maxTsSeen
    ensures Run(steps).samples == TrimFront(Accepted(steps), Cutoff(Run(steps)))
    ensures Chronological(Run(steps).samples)
    ensures forall x :: x in Run(steps).samples <==> x in Accepted(steps) && x.ts >= Cutoff(Run(steps))
  {
    if steps != [] {
      var init, last := steps[..|steps| - 1], steps[|steps| - 1];
      BufferIsRecentHistory(init);
      if last.Tick? && Accepts(Run(init), last.ts, last.book) {
        var x := Sample(last.ts, Microprice(last.book).value);
        TrimComposes(Accepted(init), x, Cutoff(Run(init)), Cutoff(Run(steps)));
        Extends(Accepted(init), x, Run(init).maxTsSeen);
      }
    }
    TrimIsSuffix(Accepted(steps), Cutoff(Run(steps)));
  }

  lemma Extends(s: seq<Sample>, x: Sample, newest: int)
    requires Chronological(s) && 0 <= newest < x.ts && forall y :: y in s ==> 0 < y.ts <= newest
    ensures Chronological(s + [x]) && forall y :: y in s + [x] ==> 0 < y.ts <= x.ts
  {
    forall i | 0 <= i < |s|
      ensures s[i].ts < x.ts
    {
      assert s[i] in s;
    }
  }

  lemma {:induction false} SelectShorter(s: seq<Sample>, cutoff: int, slugTs: int, now: int)
    ensures |Select(TrimFront(s, cutoff), slugTs, now)| <= |Select(s, slugTs, now)|
  {
    if s != [] && s[0].ts < cutoff {
      SelectShorter(s[1..], cutoff, slugTs, now);
    }
  }

  ghost predicate NoneCutCounts(s: seq<Sample>, cutoff: int, slugTs: int, now: int) {
    forall x :: x in s && Counts(slugTs, now, x.ts) ==> x.ts >= cutoff
  }

  lemma CutTail(s: seq<Sample>, cutoff: int, slugTs: int, now: int)
    requires s != []
    ensures NoneCutCounts(s, cutoff, slugTs, now)
            <==> NoneCutCounts(s[1..], cutoff, slugTs, now) && (Counts(slugTs, now, s[0].ts) ==> s[0].ts >= cutoff)
  {
    assert s == [s[0]] + s[1..];
  }

  /** Selecting from a trimmed history loses exactly the counted samples that were trimmed. */
  lemma {:induction false} SelectTrimmed(s: seq<Sample>, cutoff: int, slugTs: int, now: int)
    requires Chronological(s)
    ensures Select(TrimFront(s, cutoff), slugTs, now) == Select(s, slugTs, now)
            <==> NoneCutCounts(s, cutoff, slugTs, now)
  {
    if s != [] && s[0].ts < cutoff {
      SelectTrimmed(s[1..], cutoff, slugTs, now);
      SelectShorter(s[1..], cutoff, slugTs, now);
      CutTail(s, cutoff, slugTs, now);
    } else if s != [] {
      TrimIsSuffix(s, cutoff);
      assert TrimFront(s, cutoff) == s;
    }
  }

  /** The trimmed buffer selects what the whole history would exactly when no counted sample is
      more than ten seconds older than the newest. */
  lemma TrimmingHarmlessExactlyWhen(steps: seq<Step>, now: int)
    ensures var v := Run(steps);
            Select(v.samples, v.pendingSlugTs, now) == Select(Accepted(steps), v.pendingSlugTs, now)
            <==> NoneCutCounts(Accepted(steps), Cutoff(v), v.pendingSlugTs, now)
  {
    BufferIsRecentHistory(steps);
    SelectTrimmed(Accepted(steps), Cutoff(Run(steps)), Run(steps).pendingSlugTs, now);
  }

  /** When the newest sample is within ten seconds of the window start, the answer is the one the
      whole untrimmed history gives. */
  lemma ResolvesAsUntrimmed(steps: seq<Step>, now: int)
    requires Run(steps).maxTsSeen <= WindowStart(Run(steps).pendingSlugTs) + ANCHOR_BUFFER_HORIZON_US
    requires Run(steps).maxTsSeen <= I64_MAX
    ensures TryResolve(Run(steps), now).1 == Outcome(Accepted(steps), Run(steps).pendingSlugTs, now)
  {
    TrimmingHarmlessExactlyWhen(steps, now);
    BufferIsRecentHistory(steps);
  }

  ghost predicate Answers(steps: seq<Step>, i: nat)
    requires i < |steps|
  {
    steps[i].Attempt? && !TryResolve(Run(steps[..i]), steps[i].now).1.Pending?
  }

  /** A target is pending only from when it is set until it is answered. */
  lemma PendingAfterStep(steps: seq<Step>, k: nat)
    requires k < |steps|
    ensures Answers(steps, k) ==> Run(steps[..k]).pendingSlugTs > 0 && Run(steps[..k + 1]).pendingSlugTs == 0
    ensures Run(steps[..k]).pendingSlugTs <= 0 < Run(steps[..k + 1]).pendingSlugTs
            ==> steps[k].NewTarget? && steps[k].slugTs > 0
  {
    assert steps[..k + 1][..k] == steps[..k];
  }

  /** p traces the pending target: it only becomes positive when a target is set. */
  ghost predicate Traces(p: seq<int>, steps: seq<Step>) {
    && |p| == |steps| + 1
    && forall k :: 0 <= k < |steps| ==> p[k] <= 0 < p[k + 1] ==> steps[k].NewTarget? && steps[k].slugTs > 0
  }

  lemma PendingTrace(steps: seq<Step>) returns (p: seq<int>)
    ensures Traces(p, steps)
    ensures forall k :: 0 <= k < |p| ==> p[k] == Run(steps[..k]).pendingSlugTs
  {
    p := seq(|steps| + 1, k requires 0 <= k <= |steps| => Run(steps[..k]).pendingSlugTs);
    forall k | 0 <= k < |steps|
      ensures p[k] <= 0 < p[k + 1] ==> steps[k].NewTarget? && steps[k].slugTs > 0
    {
      PendingAfterStep(steps, k);
    }
  }

  lemma {:induction false} TargetWasSet(p: seq<int>, steps: seq<Step>, i: nat, j: nat) returns (k: nat)
    requires Traces(p, steps) && i <= j <= |steps| && p[i] <= 0 < p[j]
    ensures i <= k < j && steps[k].NewTarget? && steps[k].slugTs > 0
    decreases j - i
  {
    if p[i + 1] > 0 {
      k := i;
    } else {
      k := TargetWasSet(p, steps, i + 1, j);
    }
  }

  /** At most one Resolved or Failed per target: between two answers a new target was set. */
  lemma OneAnswerPerTarget(steps: seq<Step>, i: nat, j: nat) returns (k: nat)
    requires i < j < |steps| && Answers(steps, i) && Answers(steps, j)
    ensures i < k < j && steps[k].NewTarget? && steps[k].slugTs > 0
  {
    PendingAfterStep(steps, i);
    PendingAfterStep(steps, j);
    var p := PendingTrace(steps);
    k := TargetWasSet(p, steps, i + 1, j);
  }
}
