/** The clock filter: four-timestamp exchanges, an outlier gate on the RTT and
    exponential averages. Floating point is modelled by exact reals. */
module ClockFilter {
  import opened Medians

  const RTT_WINDOW: nat := 16
  const RTT_OUTLIER_MADS: real := 5.0
  const MAD_TO_SIGMA: real := 1.4826
  const RTT_OUTLIER_FLOOR_NS: real := 1000000.0
  const BOOTSTRAP_COUNT: nat := 10
  const ALPHA: real := 0.125

  /** What one exchange measures. */
  datatype Sample = Sample(offset: real, rtt: real)

  function Measure(t1: nat, t2: nat, t3: nat, t4: nat): Sample {
    var rtt := (t4 - t1) - (t3 - t2);
    Sample(((t2 - t1) + (t3 - t4)) as real / 2.0, (if rtt < 0 then 0 else rtt) as real)
  }

  datatype Clock = Clock(
    offset: real,
    rtt: real,
    samples: nat,
    jitterMean: real,
    jitterVar: real,
    window: seq<real>,
    rejected: nat)

  const NEW_CLOCK := Clock(0.0, 0.0, 0, 0.0, 0.0, [], 0)

  function Max(a: real, b: real): real { if a >= b then a else b }

  function Mad(window: seq<real>): real
    requires window != []
  {
    SortFacts(window);
    Median(Deviations(Sort(window), Median(window)))
  }

  function Threshold(window: seq<real>): real
    requires window != []
  {
    Median(window) + Max(RTT_OUTLIER_MADS * MAD_TO_SIGMA * Mad(window), RTT_OUTLIER_FLOOR_NS)
  }

  predicate Bootstrapped(c: Clock) { c.samples >= BOOTSTRAP_COUNT }

  predicate Rejects(c: Clock, rtt: real) {
    Bootstrapped(c) && c.window != [] && rtt > Threshold(c.window)
  }

  /** The last 16 measurements, accepted or not. */
  function LastN(s: seq<real>): (r: seq<real>)
    ensures |r| == if |s| <= RTT_WINDOW then |s| else RTT_WINDOW
  {
    if |s| <= RTT_WINDOW then s else s[|s| - RTT_WINDOW..]
  }

  function Weight(samples: nat): real { if samples < BOOTSTRAP_COUNT then 0.5 else ALPHA }

  function Blend(old_: real, new_: real, w: real): real { old_ * (1.0 - w) + new_ * w }

  /** Exponentially weighted variance: the mean moves by `ALPHA * diff`. */
  function Spread(v: real, diff: real): real { (1.0 - ALPHA) * (v + diff * (ALPHA * diff)) }

  /** An accepted sample. */
  function Accept(c: Clock, m: Sample): Clock {
    var first := c.samples == 0;
    var mean := if first then m.offset else c.jitterMean;
    var diff := m.offset - mean;
    c.(offset := if first then m.offset else Blend(c.offset, m.offset, Weight(c.samples)),
       rtt := if first then m.rtt else Blend(c.rtt, m.rtt, Weight(c.samples)),
       samples := c.samples + 1,
       jitterMean := mean + ALPHA * diff,
       jitterVar := Spread(c.jitterVar, diff))
  }

  function Update(c: Clock, m: Sample): Clock {
    var pushed := LastN(c.window + [m.rtt]);
    if Rejects(c, m.rtt) then c.(window := pushed, rejected := c.rejected + 1)
    else Accept(c, m).(window := pushed)
  }

  class ClockState {
    var offsetNs: real
    var rttNs: real
    var samples: nat
    var jitterMean: real
    var jitterVar: real
    var rttWindow: seq<real>
    var rejected: nat

    function State(): Clock
      reads this
    {
      Clock(offsetNs, rttNs, samples, jitterMean, jitterVar, rttWindow, rejected)
    }

    constructor ()
      ensures State() == NEW_CLOCK
    {
      offsetNs, rttNs, samples, jitterMean, jitterVar, rttWindow, rejected := 0.0, 0.0, 0, 0.0, 0.0, [], 0;
    }

    /** Feeds one exchange. The window never exceeds its capacity between calls. */
    method UpdateWith(t1: nat, t2: nat, t3: nat, t4: nat)
      requires |rttWindow| <= RTT_WINDOW
      modifies this
      ensures |rttWindow| <= RTT_WINDOW
      ensures State() == Update(old(State()), Measure(t1, t2, t3, t4))
    {
      hide Threshold, Measure;
      var m := Measure(t1, t2, t3, t4);
      ghost var before := State();
      var offset, rtt := m.offset, m.rtt;
      var outlier := false;
      if samples >= BOOTSTRAP_COUNT {
        outlier := IsRttOutlier(rtt);
      }
      ghost var was := rttWindow;
      if |rttWindow| == RTT_WINDOW {
        rttWindow := rttWindow[1..];
      }
      rttWindow := rttWindow + [rtt];
      assert rttWindow == LastN(was + [rtt]);
      if outlier {
        rejected := rejected + 1;
        return;
      }
      if samples == 0 {
        offsetNs, rttNs, jitterMean := offset, rtt, offset;
      } else {
        var alpha := if samples < BOOTSTRAP_COUNT then 0.5 else ALPHA;
        offsetNs := offsetNs * (1.0 - alpha) + offset * alpha;
        rttNs := rttNs * (1.0 - alpha) + rtt * alpha;
      }
      samples := samples + 1;
      var diff := offset - jitterMean;
      var incr := ALPHA * diff;
      jitterMean := jitterMean + incr;
      jitterVar := (1.0 - ALPHA) * (jitterVar + diff * incr);
      assert jitterVar == Spread(before.jitterVar, diff);
    }

    method IsRttOutlier(rtt: real) returns (outlier: bool)
      ensures outlier == (rttWindow != [] && rtt > Threshold(rttWindow))
    {
      hide Median, Sort, Deviations;
      if rttWindow == [] {
        return false;
      }
      SortFacts(rttWindow);
      var sorted, median := SortedAndMedian(rttWindow);
      var deviations, mad := SortedAndMedian(Deviations(sorted, median));
      var margin := Max(RTT_OUTLIER_MADS * MAD_TO_SIGMA * mad, RTT_OUTLIER_FLOOR_NS);
      outlier := rtt > median + margin;
    }
  }

  // ----- The gate -----

  /** How far above a band of width `w` an exchange must be to be a spike. */
  function Reach(w: real): real { Max(RTT_OUTLIER_MADS * MAD_TO_SIGMA * w, RTT_OUTLIER_FLOOR_NS) }

  ghost predicate Normal(rtt: real, a: real, w: real) { a <= rtt <= a + w }

  ghost predicate Spike(rtt: real, a: real, w: real) { rtt > a + w + Reach(w) }

  ghost predicate Majority(window: seq<real>, a: real, w: real) {
    2 * CountIn(window, a, a + w) > |window|
  }

  /** Median and MAD ignore a minority: the threshold is set by the majority band. */
  lemma ThresholdInBand(window: seq<real>, a: real, w: real)
    requires w >= 0.0 && Majority(window, a, w)
    ensures window != []
    ensures a + RTT_OUTLIER_FLOOR_NS <= Threshold(window) <= a + w + Reach(w)
  {
    var m := Median(window);
    MajorityMedian(window, a, a + w);
    var sorted := Sort(window);
    SortFacts(window);
    CountSort(window, a, a + w);
    CountDeviations(sorted, a, a + w, m);
    MajorityMedian(Deviations(sorted, m), 0.0, w);
  }

  lemma GateAccepts(c: Clock, rtt: real, a: real, w: real)
    requires 0.0 <= w <= RTT_OUTLIER_FLOOR_NS && Majority(c.window, a, w) && Normal(rtt, a, w)
    ensures !Rejects(c, rtt)
  {
    ThresholdInBand(c.window, a, w);
  }

  lemma GateRejects(c: Clock, rtt: real, a: real, w: real)
    requires 0.0 <= w && Majority(c.window, a, w) && Spike(rtt, a, w) && Bootstrapped(c)
    ensures Rejects(c, rtt)
  {
    ThresholdInBand(c.window, a, w);
  }

  // ----- Runs -----

  function Run(c: Clock, ms: seq<Sample>): Clock {
    if ms == [] then c else Update(Run(c, ms[..|ms| - 1]), ms[|ms| - 1])
  }

  function Rtts(ms: seq<Sample>): (r: seq<real>)
    ensures |r| == |ms|
  {
    seq(|ms|, i requires 0 <= i < |ms| => ms[i].rtt)
  }

  lemma LastNSnoc(s: seq<real>, x: real)
    ensures LastN(LastN(s) + [x]) == LastN(s + [x])
  {
  }

  /** The window is the last 16 RTTs measured, whatever the gate did. */
  lemma LastSixteen(c: Clock, ms: seq<Sample>)
    requires |c.window| <= 16
    ensures var all := c.window + Rtts(ms);
            Run(c, ms).window == if |all| <= 16 then all else all[|all| - 16..]
  {
    hide Run, Rtts;
    RunWindow(c, ms);
  }

  lemma {:induction false} RunWindow(c: Clock, ms: seq<Sample>)
    requires |c.window| <= 16
    ensures Run(c, ms).window == LastN(c.window + Rtts(ms))
  {
    hide Rejects;
    if ms == [] {
      assert c.window + Rtts(ms) == c.window;
    } else {
      hide LastN;
      var k := |ms| - 1;
      RunWindow(c, ms[..k]);
      LastNSnoc(c.window + Rtts(ms[..k]), ms[k].rtt);
      assert c.window + Rtts(ms) == (c.window + Rtts(ms[..k])) + [ms[k].rtt];
    }
  }

  /** What the filter tells its readers. */
  function Estimates(c: Clock): (real, real, nat, real, real) {
    (c.offset, c.rtt, c.samples, c.jitterMean, c.jitterVar)
  }

  ghost predicate IsNormal(m: Sample, a: real, w: real) { Normal(m.rtt, a, w) }

  /** The run with its spikes deleted. */
  ghost function Normals(ms: seq<Sample>, a: real, w: real): seq<Sample> {
    if ms == [] then []
    else Normals(ms[..|ms| - 1], a, w) + if IsNormal(ms[|ms| - 1], a, w) then [ms[|ms| - 1]] else []
  }

  /** Every exchange is in the band or a spike, and at each one the band holds a
      strict majority of the 16 measurements before it. */
  ghost predicate Mixed(c: Clock, ms: seq<Sample>, a: real, w: real) {
    && (forall k :: 0 <= k < |ms| ==> Normal(ms[k].rtt, a, w) || Spike(ms[k].rtt, a, w))
    && forall k :: 0 <= k < |ms| ==> Majority(LastN(c.window + Rtts(ms[..k])), a, w)
  }

  /** A window in the band stays so while only in-band values enter it. */
  lemma PushNormal(window: seq<real>, x: real, a: real, w: real)
    requires |window| <= RTT_WINDOW && Majority(window, a, w) && Normal(x, a, w)
    ensures Majority(LastN(window + [x]), a, w)
  {
    CountConcat(window, [x], a, a + w);
    assert [x][1..] == [];
    if |window| == RTT_WINDOW {
      assert window + [x] == [window[0]] + LastN(window + [x]);
      CountConcat([window[0]], LastN(window + [x]), a, a + w);
      assert [window[0]][1..] == [];
    }
  }

  lemma AcceptSame(c: Clock, d: Clock, m: Sample)
    requires Estimates(c) == Estimates(d) && !Rejects(c, m.rtt) && !Rejects(d, m.rtt)
    ensures Estimates(Update(c, m)) == Estimates(Update(d, m))
  {
    hide Rejects, Blend, Weight, Spread;
    assert c.offset == d.offset && c.rtt == d.rtt && c.samples == d.samples;
    assert c.jitterMean == d.jitterMean && c.jitterVar == d.jitterVar;
  }

  /** Delay spikes are invisible: however large they are, a run whose windows
      keep a majority in the band ends with the same offset, RTT, sample count
      and jitter as the run with the spikes deleted, and rejects exactly them. */
  lemma {:induction false} SpikesInvisible(c: Clock, ms: seq<Sample>, a: real, w: real)
    requires Bootstrapped(c) && |c.window| <= RTT_WINDOW && 0.0 <= w <= RTT_OUTLIER_FLOOR_NS
    requires Mixed(c, ms, a, w) && Majority(c.window, a, w)
    ensures var full, clean := Run(c, ms), Run(c, Normals(ms, a, w));
            && Estimates(full) == Estimates(clean)
            && full.rejected == c.rejected + |ms| - |Normals(ms, a, w)|
            && clean.rejected == c.rejected
            && Majority(clean.window, a, w) && |clean.window| <= RTT_WINDOW && Bootstrapped(clean)
  {
    hide Rejects, Majority, Accept;
    if ms != [] {
      var k := |ms| - 1;
      var front, m := ms[..k], ms[k];
      MixedPrefix(c, ms, a, w);
      SpikesInvisible(c, front, a, w);
      RunWindow(c, front);
      var full, clean := Run(c, front), Run(c, Normals(front, a, w));
      if Normal(m.rtt, a, w) {
        BothAccept(full, clean, m, a, w);
        var ns := Normals(ms, a, w);
        assert ns[..|ns| - 1] == Normals(front, a, w);
      } else {
        GateRejects(full, m.rtt, a, w);
        assert Normals(ms, a, w) == Normals(front, a, w);
      }
    }
  }

  /** One in-band exchange moves the spiked and the clean run alike. */
  lemma BothAccept(full: Clock, clean: Clock, m: Sample, a: real, w: real)
    requires Estimates(full) == Estimates(clean) && 0.0 <= w <= RTT_OUTLIER_FLOOR_NS && Normal(m.rtt, a, w)
    requires Majority(full.window, a, w) && Majority(clean.window, a, w) && |clean.window| <= RTT_WINDOW
    ensures Estimates(Update(full, m)) == Estimates(Update(clean, m))
    ensures Update(full, m).rejected == full.rejected && Update(clean, m).rejected == clean.rejected
    ensures Update(clean, m).samples == clean.samples + 1
    ensures var next := Update(clean, m).window; Majority(next, a, w) && |next| <= RTT_WINDOW
  {
    hide Rejects, Majority;
    GateAccepts(full, m.rtt, a, w);
    GateAccepts(clean, m.rtt, a, w);
    AcceptSame(full, clean, m);
    PushNormal(clean.window, m.rtt, a, w);
  }

  lemma MixedPrefix(c: Clock, ms: seq<Sample>, a: real, w: real)
    requires Mixed(c, ms, a, w) && ms != []
    ensures Mixed(c, ms[..|ms| - 1], a, w)
    ensures Majority(LastN(c.window + Rtts(ms[..|ms| - 1])), a, w)
    ensures Normal(ms[|ms| - 1].rtt, a, w) || Spike(ms[|ms| - 1].rtt, a, w)
  {
    hide Majority;
    var front := ms[..|ms| - 1];
    forall k | 0 <= k < |front| ensures Majority(LastN(c.window + Rtts(front[..k])), a, w) {
      assert front[..k] == ms[..k];
    }
  }
}
