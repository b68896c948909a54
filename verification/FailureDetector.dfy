/** The phi accrual failure detector (chitchat/src/failure_detector.rs), over reals.

`Window` and `Detector` are the values; `BoundedArrayStats` is the ring buffer with its running sum and
`SamplingWindow` the window around it, updated in place and proved to follow those values. */
module FailureDetectors {
  import opened ChitchatTypes

  const PRIOR_WEIGHT := 5.0

  datatype Config = Config(
    phiThreshold: real,
    samplingWindowSize: nat,
    maxInterval: Duration,
    initialInterval: Duration,
    deadNodeGracePeriod: Duration)
  {
    predicate Valid() {
      phiThreshold >= 0.0 && samplingWindowSize >= 1 && maxInterval >= 0.0 && initialInterval > 0.0
      && deadNodeGracePeriod >= 0.0
    }

    /** No smoothed mean can be above this. */
    function Ceiling(): Duration { if maxInterval < initialInterval then initialInterval else maxInterval }
  }

  /** `duration_since` and `elapsed` saturate at zero. */
  function Elapsed(since: Instant, now: Instant): Duration {
    if now < since then 0.0 else now - since
  }

  function Sum(xs: seq<real>): real {
    if xs == [] then 0.0 else Sum(xs[..|xs| - 1]) + xs[|xs| - 1]
  }

  lemma {:induction false} SumConcat(xs: seq<real>, ys: seq<real>)
    ensures Sum(xs + ys) == Sum(xs) + Sum(ys)
  {
    if ys == [] {
      assert xs + ys == xs;
    } else {
      SumConcat(xs, ys[..|ys| - 1]);
      assert (xs + ys)[..|xs + ys| - 1] == xs + ys[..|ys| - 1];
    }
  }

  // ----- the ring buffer -----

  /** The most recent `capacity` values after one more arrives. */
  function Recent(xs: seq<real>, capacity: nat, x: real): seq<real> {
    if |xs| < capacity || xs == [] then xs + [x] else xs[1..] + [x]
  }

  function RecentAll(capacity: nat, xs: seq<real>): seq<real> {
    if xs == [] then [] else Recent(RecentAll(capacity, xs[..|xs| - 1]), capacity, xs[|xs| - 1])
  }

  function Last(capacity: nat, xs: seq<real>): seq<real> {
    if |xs| <= capacity then xs else xs[|xs| - capacity..]
  }

  lemma RecentOfLast(capacity: nat, xs: seq<real>, x: real)
    requires capacity >= 1
    ensures Recent(Last(capacity, xs), capacity, x) == Last(capacity, xs + [x])
  {
    var n := |xs|;
    if n >= capacity {
      var kept := xs[n - capacity..];
      assert Last(capacity, xs) == kept;
      assert kept[1..] == xs[n - capacity + 1..];
      assert (xs + [x])[n + 1 - capacity..] == xs[n - capacity + 1..] + [x];
    }
  }

  /** Starting empty, what is retained of any stream of values is its last `min(n, capacity)` values. */
  lemma {:induction false} RecentAreTheLast(capacity: nat, xs: seq<real>)
    requires capacity >= 1
    ensures RecentAll(capacity, xs) == Last(capacity, xs)
  {
    hide Recent, Last;
    if xs == [] {
      NothingIsLast(capacity);
    } else {
      var n := |xs| - 1;
      RecentAreTheLast(capacity, xs[..n]);
      RecentOfLast(capacity, xs[..n], xs[n]);
      assert xs == xs[..n] + [xs[n]];
    }
  }

  lemma NothingIsLast(capacity: nat)
    ensures Last(capacity, []) == []
  {
  }

  /** The retained values, oldest first, of a ring that is written next at `index`. */
  ghost function InOrder(ring: seq<real>, isFilled: bool, index: nat): seq<real>
    requires index <= |ring|
  {
    if isFilled then ring[index..] + ring[..index] else ring[..index]
  }

  lemma WriteRing(ring: seq<real>, isFilled: bool, index: nat, x: real)
    requires index < |ring|
    ensures var last := index == |ring| - 1;
            InOrder(ring[index := x], isFilled || last, if last then 0 else index + 1)
            == Recent(InOrder(ring, isFilled, index), |ring|, x)
  {
    var after := ring[index := x];
    assert after[..index] == ring[..index] && after[index + 1..] == ring[index + 1..];
    assert after[..index + 1] == ring[..index] + [x];
    if isFilled {
      assert InOrder(ring, true, index)[1..] == ring[index + 1..] + ring[..index];
    }
  }

  lemma SumOfRecent(xs: seq<real>, capacity: nat, x: real)
    requires 1 <= capacity
    ensures Sum(Recent(xs, capacity, x)) == Sum(xs) + x - (if |xs| < capacity then 0.0 else xs[0])
  {
    if |xs| >= capacity {
      assert xs == [xs[0]] + xs[1..];
      SumConcat([xs[0]], xs[1..]);
      SumConcat(xs[1..], [x]);
    } else {
      SumConcat(xs, [x]);
    }
  }

  class BoundedArrayStats {
    const values: array<real>
    var isFilled: bool
    var index: nat
    var sum: real

    /** The retained values, oldest first. */
    ghost function Contents(): seq<real>
      requires index <= values.Length
      reads this, values
    {
      InOrder(values[..], isFilled, index)
    }

    ghost predicate Valid()
      reads this, values
    {
      && (values.Length == 0 ==> index == 0 && !isFilled)
      && (values.Length > 0 ==> index < values.Length)
      && sum == Sum(Contents())
    }

    constructor (capacity: nat)
      ensures Valid() && Contents() == [] && values.Length == capacity && fresh(values)
    {
      values := new real[capacity](_ => 0.0);
      isFilled, index, sum := false, 0, 0.0;
    }

    method Len() returns (n: nat)
      requires Valid()
      ensures n == |Contents()|
    {
      if isFilled {
        return values.Length;
      }
      return index;
    }

    method Append(interval: real)
      requires Valid() && values.Length > 0
      modifies this, values
      ensures Valid() && Contents() == Recent(old(Contents()), values.Length, interval)
    {
      WriteRing(values[..], isFilled, index, interval);
      SumOfRecent(Contents(), values.Length, interval);
      hide Recent, Sum;
      if isFilled {
        sum := sum - values[index];
      }
      ghost var ring := values[..];
      values[index] := interval;
      assert values[..] == ring[index := interval];
      sum := sum + interval;
      if index == values.Length - 1 {
        isFilled := true;
        index := 0;
      } else {
        index := index + 1;
      }
    }

    method Clear()
      requires Valid()
      modifies this
      ensures Valid() && Contents() == []
    {
      index, isFilled, sum := 0, false, 0.0;
    }
  }

  // ----- one node's sampling window -----

  datatype Window = Window(intervals: seq<real>, lastHeartbeat: Option<Instant>)

  const NEW_WINDOW := Window([], None)

  function Heard(cfg: Config, w: Window, now: Instant): Window {
    if w.lastHeartbeat.Some? && Elapsed(w.lastHeartbeat.value, now) <= cfg.maxInterval then
      Window(Recent(w.intervals, cfg.samplingWindowSize, Elapsed(w.lastHeartbeat.value, now)), Some(now))
    else
      Window(w.intervals, Some(now))
  }

  function Mean(cfg: Config, n: nat, sum: real): real {
    (sum + PRIOR_WEIGHT * cfg.initialInterval) / (n as real + PRIOR_WEIGHT)
  }

  function Phi(cfg: Config, w: Window, now: Instant): Option<real>
    requires cfg.Valid() && Sampled(cfg, w)
  {
    if w.intervals == [] || w.lastHeartbeat.None? then None
    else
      MeanBounds(cfg, w.intervals);
      Some(Elapsed(w.lastHeartbeat.value, now) / Mean(cfg, |w.intervals|, Sum(w.intervals)))
  }

  class SamplingWindow {
    const cfg: Config
    const intervals: BoundedArrayStats
    var lastHeartbeat: Option<Instant>

    ghost function Abs(): Window
      requires intervals.index <= intervals.values.Length
      reads this, intervals, intervals.values
    {
      Window(intervals.Contents(), lastHeartbeat)
    }

    ghost predicate Valid()
      reads this, intervals, intervals.values
    {
      intervals.Valid() && cfg.Valid() && intervals.values.Length == cfg.samplingWindowSize
    }

    constructor (cfg: Config)
      requires cfg.Valid()
      ensures Valid() && Abs() == NEW_WINDOW && this.cfg == cfg && fresh(intervals) && fresh(intervals.values)
    {
      this.cfg := cfg;
      intervals := new BoundedArrayStats(cfg.samplingWindowSize);
      lastHeartbeat := None;
    }

    method ReportHeartbeat(now: Instant)
      requires Valid()
      modifies this, intervals, intervals.values
      ensures Valid() && Abs() == Heard(cfg, old(Abs()), now)
    {
      if lastHeartbeat.Some? {
        var interval := Elapsed(lastHeartbeat.value, now);
        if interval <= cfg.maxInterval {
          intervals.Append(interval);
        }
      }
      lastHeartbeat := Some(now);
    }

    method Reset()
      requires Valid()
      modifies intervals
      ensures Valid() && Abs() == old(Abs()).(intervals := [])
    {
      intervals.Clear();
    }

    method ComputePhi(now: Instant) returns (phi: Option<real>)
      requires Valid() && Sampled(cfg, Abs())
      ensures phi == Phi(cfg, Abs(), now)
    {
      MeanBounds(cfg, Abs().intervals);
      var n := intervals.Len();
      if n == 0 || lastHeartbeat.None? {
        return None;
      }
      return Some(Elapsed(lastHeartbeat.value, now) / Mean(cfg, n, intervals.sum));
    }
  }

  // ----- bounds on the smoothed mean -----

  /** Only intervals of at most `max_interval` are retained, at most `sampling_window_size` of them. */
  ghost predicate Sampled(cfg: Config, w: Window) {
    && |w.intervals| <= cfg.samplingWindowSize
    && (forall i :: 0 <= i < |w.intervals| ==> 0.0 <= w.intervals[i] <= cfg.maxInterval)
  }

  lemma HeardKeepsSampled(cfg: Config, w: Window, now: Instant)
    requires cfg.Valid() && Sampled(cfg, w)
    ensures Sampled(cfg, Heard(cfg, w, now))
  {
  }

  lemma {:induction false} SumAtMost(xs: seq<real>, top: real)
    requires forall i :: 0 <= i < |xs| ==> 0.0 <= xs[i] <= top
    ensures 0.0 <= Sum(xs) <= |xs| as real * top
  {
    if xs != [] {
      SumAtMost(xs[..|xs| - 1], top);
      assert |xs| as real * top == (|xs| - 1) as real * top + top;
    }
  }

  lemma {:induction false} SumAtLeast(xs: seq<real>, floor: real)
    requires forall i :: 0 <= i < |xs| ==> floor <= xs[i]
    ensures |xs| as real * floor <= Sum(xs)
  {
    if xs != [] {
      SumAtLeast(xs[..|xs| - 1], floor);
      assert |xs| as real * floor == (|xs| - 1) as real * floor + floor;
    }
  }

  lemma MulMonotone(a: real, b: real, c: real)
    requires a <= b && 0.0 <= c
    ensures c * a <= c * b
  {
  }

  lemma QuotientCompare(x: real, y: real, t: real)
    requires 0.0 < y
    ensures x / y <= t <==> x <= t * y
    ensures t <= x / y <==> t * y <= x
  {
    var q := x / y;
    assert q * y == x;
    assert (q - t) * y == x - t * y;
    if q < t {
      assert (t - q) * y > 0.0;
    } else if t < q {
      assert (q - t) * y > 0.0;
    }
  }

  lemma QuotientWithin(x: real, y: real, floor: real, t: real)
    requires 0.0 < floor <= y && 0.0 <= t && x <= t * floor
    ensures x / y <= t
  {
    MulMonotone(floor, y, t);
    QuotientCompare(x, y, t);
  }

  lemma QuotientBeyond(x: real, y: real, top: real, t: real)
    requires 0.0 < y <= top && 0.0 <= t && t * top < x
    ensures t < x / y
  {
    MulMonotone(y, top, t);
    QuotientCompare(x, y, t);
  }

  lemma MeanBounds(cfg: Config, intervals: seq<real>)
    requires cfg.Valid() && Sampled(cfg, Window(intervals, None))
    ensures 0.0 < Mean(cfg, |intervals|, Sum(intervals)) <= cfg.Ceiling()
  {
    var n := |intervals| as real;
    var top := cfg.Ceiling();
    SumAtMost(intervals, top);
    var total := Sum(intervals) + PRIOR_WEIGHT * cfg.initialInterval;
    assert total <= n * top + PRIOR_WEIGHT * top;
    assert total <= top * (n + PRIOR_WEIGHT);
    QuotientCompare(total, n + PRIOR_WEIGHT, top);
    QuotientCompare(total, n + PRIOR_WEIGHT, 0.0);
  }

  lemma MeanAbove(cfg: Config, intervals: seq<real>, floor: real)
    requires floor <= cfg.initialInterval
    requires forall i :: 0 <= i < |intervals| ==> floor <= intervals[i]
    ensures floor <= Mean(cfg, |intervals|, Sum(intervals))
  {
    var n := |intervals| as real;
    SumAtLeast(intervals, floor);
    var total := Sum(intervals) + PRIOR_WEIGHT * cfg.initialInterval;
    assert floor * (n + PRIOR_WEIGHT) == n * floor + PRIOR_WEIGHT * floor;
    QuotientCompare(total, n + PRIOR_WEIGHT, floor);
  }

  // ----- the detector -----

  datatype Detector = Detector(
    samples: map<ChitchatId, Window>,
    live: set<ChitchatId>,
    dead: map<ChitchatId, Instant>)

  const NEW_DETECTOR := Detector(map[], {}, map[])

  ghost predicate AllSampled(cfg: Config, d: Detector) {
    forall id :: id in d.samples ==> Sampled(cfg, d.samples[id])
  }

  function WindowOf(d: Detector, id: ChitchatId): Window {
    if id in d.samples then d.samples[id] else NEW_WINDOW
  }

  function ReportHeartbeat(cfg: Config, d: Detector, id: ChitchatId, now: Instant): Detector {
    d.(samples := d.samples[id := Heard(cfg, WindowOf(d, id), now)])
  }

  predicate IsAlive(cfg: Config, d: Detector, id: ChitchatId, now: Instant)
    requires cfg.Valid() && AllSampled(cfg, d)
  {
    id in d.samples && var phi := Phi(cfg, d.samples[id], now); phi.Some? && phi.value <= cfg.phiThreshold
  }

  function UpdateLiveness(cfg: Config, d: Detector, id: ChitchatId, now: Instant): Detector
    requires cfg.Valid() && AllSampled(cfg, d)
  {
    if IsAlive(cfg, d, id, now) then d.(live := d.live + {id}, dead := d.dead - {id})
    else
      Detector(
        if id in d.samples then d.samples[id := d.samples[id].(intervals := [])] else d.samples,
        d.live - {id},
        if id in d.dead then d.dead else d.dead[id := now])
  }

  function Collectible(cfg: Config, d: Detector, now: Instant): set<ChitchatId> {
    set id | id in d.dead && now >= d.dead[id] + cfg.deadNodeGracePeriod
  }

  function GarbageCollect(cfg: Config, d: Detector, now: Instant): Detector {
    var gone := Collectible(cfg, d, now);
    Detector(d.samples - gone, d.live, d.dead - gone)
  }

  /** Nodes that have been dead for more than half the grace period are no longer gossiped about. */
  function ScheduledForDeletion(cfg: Config, d: Detector, now: Instant): set<ChitchatId> {
    set id | id in d.dead && d.dead[id] + cfg.deadNodeGracePeriod / 2.0 < now
  }

  class FailureDetector {
    const cfg: Config
    var samples: map<ChitchatId, Window>
    var live: set<ChitchatId>
    var dead: map<ChitchatId, Instant>

    function Abs(): Detector
      reads this
    {
      Detector(samples, live, dead)
    }

    ghost predicate Valid()
      reads this
    {
      cfg.Valid() && AllSampled(cfg, Abs())
    }

    constructor (cfg: Config)
      requires cfg.Valid()
      ensures Valid() && Abs() == NEW_DETECTOR && this.cfg == cfg
    {
      this.cfg := cfg;
      samples, live, dead := map[], {}, map[];
    }

    method Report(id: ChitchatId, now: Instant)
      requires Valid()
      modifies this
      ensures Valid() && Abs() == ReportHeartbeat(cfg, old(Abs()), id, now)
    {
      if id !in samples {
        samples := samples[id := NEW_WINDOW];
      }
      HeardKeepsSampled(cfg, samples[id], now);
      samples := samples[id := Heard(cfg, samples[id], now)];
    }

    method UpdateNodeLiveness(id: ChitchatId, now: Instant)
      requires Valid()
      modifies this
      ensures Valid() && Abs() == UpdateLiveness(cfg, old(Abs()), id, now)
    {
      var isAlive := false;
      if id in samples {
        var phi := Phi(cfg, samples[id], now);
        isAlive := phi.Some? && phi.value <= cfg.phiThreshold;
      }
      if isAlive {
        live := live + {id};
        dead := dead - {id};
      } else {
        live := live - {id};
        if id !in dead {
          dead := dead[id := now];
        }
        if id in samples {
          samples := samples[id := samples[id].(intervals := [])];
        }
      }
    }

    method CollectGarbage(now: Instant) returns (collected: seq<ChitchatId>)
      requires Valid()
      modifies this
      ensures Valid() && Abs() == GarbageCollect(cfg, old(Abs()), now)
      ensures forall id :: id in collected <==> id in Collectible(cfg, old(Abs()), now)
    {
      collected := [];
      var pending := dead.Keys;
      while pending != {}
        invariant pending <= dead.Keys
        invariant forall id :: id in collected <==> id in Collectible(cfg, Abs(), now) - pending
        decreases pending
      {
        var id :| id in pending;
        pending := pending - {id};
        if now >= dead[id] + cfg.deadNodeGracePeriod {
          collected := collected + [id];
        }
      }
      assert Abs() == old(Abs());
      assert forall id :: id in collected <==> id in Collectible(cfg, old(Abs()), now);
      for i := 0 to |collected|
        invariant live == old(live)
        invariant samples == old(samples) - (set id | id in collected[..i])
        invariant dead == old(dead) - (set id | id in collected[..i])
      {
        dead := dead - {collected[i]};
        samples := samples - {collected[i]};
      }
      assert collected[..|collected|] == collected;
      assert (set id | id in collected) == Collectible(cfg, old(Abs()), now);
    }
  }

  // ----- completeness and accuracy -----

  /** A node not heard of for more than `phi_threshold` times the largest possible mean interval is dead
      and not live after the next update, and it stays dead since the same instant if it already was. */
  lemma SilentNodeIsDeclaredDead(cfg: Config, d: Detector, id: ChitchatId, now: Instant)
    requires cfg.Valid() && AllSampled(cfg, d)
    requires id in d.samples && d.samples[id].lastHeartbeat.Some? ==>
               Elapsed(d.samples[id].lastHeartbeat.value, now) > cfg.phiThreshold * cfg.Ceiling()
    ensures var e := UpdateLiveness(cfg, d, id, now);
            && id !in e.live && id in e.dead
            && e.dead[id] == (if id in d.dead then d.dead[id] else now)
  {
    if id in d.samples && d.samples[id].lastHeartbeat.Some? {
      var w := d.samples[id];
      MeanBounds(cfg, w.intervals);
      var mean := Mean(cfg, |w.intervals|, Sum(w.intervals));
      QuotientBeyond(Elapsed(w.lastHeartbeat.value, now), mean, cfg.Ceiling(), cfg.phiThreshold);
    }
  }

  /** A node heard of twice, with no retained interval and no prior below `floor`, is not declared dead before
      `phi_threshold` times `floor` has passed since its last heartbeat. */
  lemma RecentNodeIsAlive(cfg: Config, d: Detector, id: ChitchatId, now: Instant, floor: Duration)
    requires cfg.Valid() && AllSampled(cfg, d)
    requires id in d.samples && d.samples[id].lastHeartbeat.Some? && d.samples[id].intervals != []
    requires 0.0 < floor <= cfg.initialInterval
    requires forall i :: 0 <= i < |d.samples[id].intervals| ==> floor <= d.samples[id].intervals[i]
    requires Elapsed(d.samples[id].lastHeartbeat.value, now) <= cfg.phiThreshold * floor
    ensures var e := UpdateLiveness(cfg, d, id, now);
            id in e.live && id !in e.dead && e.samples == d.samples
  {
    var w := d.samples[id];
    MeanBounds(cfg, w.intervals);
    MeanAbove(cfg, w.intervals, floor);
    var mean := Mean(cfg, |w.intervals|, Sum(w.intervals));
    QuotientWithin(Elapsed(w.lastHeartbeat.value, now), mean, floor, cfg.phiThreshold);
    assert Phi(cfg, w, now) == Some(Elapsed(w.lastHeartbeat.value, now) / mean);
  }

  // ----- the judgement written out -----

  /** The node was heard of twice, and the time since its last heartbeat is at most `phi_threshold` times the mean of
      its intervals, among which the initial interval counts five times. */
  predicate IsTimely(cfg: Config, w: Window, now: Instant) {
    && w.intervals != [] && w.lastHeartbeat.Some?
    && var elapsed := if w.lastHeartbeat.value <= now then now - w.lastHeartbeat.value else 0.0;
       elapsed * (|w.intervals| as real + 5.0) <= cfg.phiThreshold * (Sum(w.intervals) + 5.0 * cfg.initialInterval)
  }

  lemma TimelyExactly(cfg: Config, w: Window, now: Instant)
    requires cfg.Valid() && Sampled(cfg, w)
    ensures IsTimely(cfg, w, now) <==> Phi(cfg, w, now).Some? && Phi(cfg, w, now).value <= cfg.phiThreshold
  {
    if w.intervals != [] && w.lastHeartbeat.Some? {
      MeanBounds(cfg, w.intervals);
      PhiCompare(Elapsed(w.lastHeartbeat.value, now), Sum(w.intervals) + 5.0 * cfg.initialInterval,
                 |w.intervals| as real + 5.0, cfg.phiThreshold);
    }
  }

  /** A node is live after an update exactly then. */
  lemma JudgedExactly(cfg: Config, d: Detector, id: ChitchatId, now: Instant)
    requires cfg.Valid() && AllSampled(cfg, d)
    ensures IsAlive(cfg, d, id, now) <==> id in d.samples && IsTimely(cfg, d.samples[id], now)
    ensures id in UpdateLiveness(cfg, d, id, now).live <==> id in d.samples && IsTimely(cfg, d.samples[id], now)
  {
    hide Phi, IsTimely, Sampled;
    if id in d.samples {
      TimelyExactly(cfg, d.samples[id], now);
    }
  }

  lemma PhiCompare(elapsed: real, total: real, weight: real, phi: real)
    requires 0.0 < weight && 0.0 < total / weight
    ensures elapsed / (total / weight) <= phi <==> elapsed * weight <= phi * total
  {
    var mean := total / weight;
    QuotientCompare(elapsed, mean, phi);
    assert mean * weight == total;
    assert (phi * mean) * weight == phi * total;
    assert (phi * mean - elapsed) * weight == phi * total - elapsed * weight;
    if elapsed <= phi * mean {
      assert (phi * mean - elapsed) * weight >= 0.0;
    } else {
      assert (elapsed - phi * mean) * weight > 0.0;
    }
  }

  /** With intervals of at most `x`, a node is declared dead as soon as `phi_threshold` times the mean of as many
      intervals of `x` and of the prior has passed. */
  lemma DeadAfterShortIntervals(cfg: Config, d: Detector, id: ChitchatId, now: Instant, x: Duration)
    requires cfg.Valid() && AllSampled(cfg, d) && id in d.samples && d.samples[id].lastHeartbeat.Some?
    requires forall i :: 0 <= i < |d.samples[id].intervals| ==> d.samples[id].intervals[i] <= x
    requires var n := |d.samples[id].intervals| as real;
             && d.samples[id].lastHeartbeat.value <= now
             && cfg.phiThreshold * (n * x + 5.0 * cfg.initialInterval)
                < (now - d.samples[id].lastHeartbeat.value) * (n + 5.0)
    ensures id !in UpdateLiveness(cfg, d, id, now).live && id in UpdateLiveness(cfg, d, id, now).dead
  {
    var w := d.samples[id];
    SumAtMost(w.intervals, x);
    MulMonotone(Sum(w.intervals) + 5.0 * cfg.initialInterval, |w.intervals| as real * x + 5.0 * cfg.initialInterval,
                cfg.phiThreshold);
    JudgedExactly(cfg, d, id, now);
  }

  // ----- heartbeats one after the other -----

  /** The intervals between heartbeats, without those longer than `longest`. */
  function Gaps(times: seq<Instant>, longest: Duration): seq<real> {
    var n := |times| - 1;
    if n < 1 then []
    else Gaps(times[..n], longest) + if times[n] - times[n - 1] <= longest then [times[n] - times[n - 1]] else []
  }

  function HeardAll(cfg: Config, times: seq<Instant>): Window {
    if times == [] then NEW_WINDOW
    else Heard(cfg, HeardAll(cfg, times[..|times| - 1]), times[|times| - 1])
  }

  /** Of heartbeats in order, a window retains the last `sampling_window_size` intervals that are short enough. */
  lemma {:induction false} HeardAllExactly(cfg: Config, times: seq<Instant>)
    requires cfg.Valid() && forall i :: 0 <= i < |times| - 1 ==> times[i] <= times[i + 1]
    ensures HeardAll(cfg, times).intervals == Last(cfg.samplingWindowSize, Gaps(times, cfg.maxInterval))
    ensures HeardAll(cfg, times).lastHeartbeat == if times == [] then None else Some(times[|times| - 1])
  {
    hide Last, Recent;
    if times == [] {
      NothingIsLast(cfg.samplingWindowSize);
    } else {
      var n := |times| - 1;
      HeardAllExactly(cfg, times[..n]);
      if n > 0 {
        assert times[..n][n - 1] <= times[n];
        RecentOfLast(cfg.samplingWindowSize, Gaps(times[..n], cfg.maxInterval), times[n] - times[n - 1]);
        assert Gaps(times[..n], cfg.maxInterval) + [] == Gaps(times[..n], cfg.maxInterval);
      } else {
        NothingIsLast(cfg.samplingWindowSize);
      }
    }
  }
}
