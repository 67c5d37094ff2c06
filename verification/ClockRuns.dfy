/** What the clock filter guarantees over whole runs. */
module ClockRuns {
  import opened Medians
  import opened ClockFilter

  // ----- Durable path changes -----

  ghost predicate AllNormal(ms: seq<Sample>, a: real, w: real) {
    forall k :: 0 <= k < |ms| ==> Normal(ms[k].rtt, a, w)
  }

  ghost predicate AllSpikes(ms: seq<Sample>, a: real, w: real) {
    forall k :: 0 <= k < |ms| ==> Spike(ms[k].rtt, a, w)
  }

  /** Nine in-band measurements own a window of at most sixteen. */
  lemma TailMajority(window: seq<real>, rs: seq<real>, a: real, w: real)
    requires |rs| >= RTT_WINDOW / 2 + 1
    requires forall k :: 0 <= k < |rs| ==> Normal(rs[k], a, w)
    ensures Majority(LastN(window + rs), a, w)
  {
    var last := LastN(window + rs);
    if |rs| >= RTT_WINDOW {
      CountAll(last, a, a + w);
    } else {
      var head := last[..|last| - |rs|];
      assert last == head + rs;
      CountConcat(head, rs, a, a + w);
      CountAll(rs, a, a + w);
    }
  }

  /** No lock-out: after nine exchanges on a new path every
      further one on that path is accepted, whatever the window held before. */
  lemma Readmitted(c: Clock, ms: seq<Sample>, m: Sample, a: real, w: real)
    requires |c.window| <= 16 && 0.0 <= w <= 1000000.0
    requires AllNormal(ms, a, w) && Normal(m.rtt, a, w) && |ms| >= 9
    ensures !Rejects(Run(c, ms), m.rtt)
  {
    hide Rejects, Update;
    RunWindow(c, ms);
    TailMajority(c.window, Rtts(ms), a, w);
    GateAccepts(Run(c, ms), m.rtt, a, w);
  }

  /** A durable change of path costs at most nine rejections in any run. */
  lemma {:induction false} PathChangeCost(c: Clock, ms: seq<Sample>, a: real, w: real)
    requires |c.window| <= 16 && 0.0 <= w <= 1000000.0 && AllNormal(ms, a, w)
    ensures Run(c, ms).rejected - c.rejected <= if |ms| < 9 then |ms| else 9
  {
    hide Rejects, Accept;
    if ms != [] {
      var k := |ms| - 1;
      PathChangeCost(c, ms[..k], a, w);
      if k >= 9 {
        Readmitted(c, ms[..k], ms[k], a, w);
      }
      RejectedStep(Run(c, ms[..k]), ms[k]);
    }
  }

  lemma RejectedStep(c: Clock, m: Sample)
    ensures Update(c, m).rejected == c.rejected + if Rejects(c, m.rtt) then 1 else 0
    ensures Rejects(c, m.rtt) ==> Estimates(Update(c, m)) == Estimates(c)
    ensures !Rejects(c, m.rtt) ==> Update(c, m).samples == c.samples + 1
  {
    hide Rejects;
  }

  /** And at least eight: a full window of the old path outvotes the new one
      until half of it has gone, so nothing before that moves the estimates. */
  lemma {:induction false} PathChangeDelay(c: Clock, ms: seq<Sample>, a: real, w: real)
    requires Bootstrapped(c) && |c.window| == 16 && w >= 0.0
    requires forall k :: 0 <= k < |c.window| ==> Normal(c.window[k], a, w)
    requires |ms| <= 8 && AllSpikes(ms, a, w)
    ensures Run(c, ms).rejected == c.rejected + |ms| && Estimates(Run(c, ms)) == Estimates(c)
  {
    hide Rejects, Accept, Spike;
    if ms != [] {
      var k := |ms| - 1;
      PathChangeDelay(c, ms[..k], a, w);
      RunWindow(c, ms[..k]);
      OldMajority(c.window, Rtts(ms[..k]), a, w);
      GateRejects(Run(c, ms[..k]), ms[k].rtt, a, w);
      RejectedStep(Run(c, ms[..k]), ms[k]);
    }
  }

  lemma OldMajority(window: seq<real>, rs: seq<real>, a: real, w: real)
    requires |window| == RTT_WINDOW && |rs| < RTT_WINDOW / 2
    requires forall k :: 0 <= k < |window| ==> Normal(window[k], a, w)
    ensures Majority(LastN(window + rs), a, w)
  {
    assert LastN(window + rs) == window[|rs|..] + rs;
    CountConcat(window[|rs|..], rs, a, a + w);
    CountAll(window[|rs|..], a, a + w);
  }

  // ----- Accuracy -----

  /** The samples a run lets through the gate. */
  function Accepted(c: Clock, ms: seq<Sample>): seq<Sample> {
    if ms == [] then []
    else
      var front, m := ms[..|ms| - 1], ms[|ms| - 1];
      Accepted(c, front) + if Rejects(Run(c, front), m.rtt) then [] else [m]
  }

  ghost predicate OffsetsIn(ms: seq<Sample>, lo: real, hi: real) {
    forall k :: 0 <= k < |ms| ==> lo <= ms[k].offset <= hi
  }

  /** The offset never leaves the hull of the accepted measurements. */
  lemma {:induction false} OffsetHull(c: Clock, ms: seq<Sample>, lo: real, hi: real)
    requires c.samples > 0 ==> lo <= c.offset <= hi
    requires OffsetsIn(Accepted(c, ms), lo, hi)
    ensures Run(c, ms).samples > 0 ==> lo <= Run(c, ms).offset <= hi
  {
    hide Rejects, Accept;
    if ms != [] {
      var k := |ms| - 1;
      var acc := Accepted(c, ms);
      var before := Accepted(c, ms[..k]);
      assert forall i :: 0 <= i < |before| ==> before[i] == acc[i];
      OffsetHull(c, ms[..k], lo, hi);
      if !Rejects(Run(c, ms[..k]), ms[k].rtt) {
        assert acc[|before|] == ms[k];
        StepHull(Run(c, ms[..k]), ms[k], lo, hi);
      }
    }
  }

  /** Nor the RTT estimate that of the accepted RTTs. */
  lemma {:induction false} RttHull(c: Clock, ms: seq<Sample>, lo: real, hi: real)
    requires c.samples > 0 ==> lo <= c.rtt <= hi
    requires forall k :: 0 <= k < |Accepted(c, ms)| ==> lo <= Accepted(c, ms)[k].rtt <= hi
    ensures Run(c, ms).samples > 0 ==> lo <= Run(c, ms).rtt <= hi
  {
    hide Rejects, Accept;
    if ms != [] {
      var k := |ms| - 1;
      var acc, before := Accepted(c, ms), Accepted(c, ms[..k]);
      assert forall i :: 0 <= i < |before| ==> before[i] == acc[i];
      RttHull(c, ms[..k], lo, hi);
      if !Rejects(Run(c, ms[..k]), ms[k].rtt) {
        assert acc[|before|] == ms[k];
        StepRttHull(Run(c, ms[..k]), ms[k], lo, hi);
      }
    }
  }

  lemma StepRttHull(c: Clock, m: Sample, lo: real, hi: real)
    requires c.samples > 0 ==> lo <= c.rtt <= hi
    requires lo <= m.rtt <= hi
    ensures lo <= Accept(c, m).rtt <= hi
  {
  }

  lemma StepHull(c: Clock, m: Sample, lo: real, hi: real)
    requires c.samples > 0 ==> lo <= c.offset <= hi
    requires lo <= m.offset <= hi
    ensures lo <= Accept(c, m).offset <= hi
  {
  }

  /** The jitter estimate forgets: however long the run, its mean stays in the
      hull of the accepted offsets and its variance below 7/8 of the hull's
      squared width, so slow drift cannot inflate it for ever. */
  lemma {:induction false} JitterForgets(c: Clock, ms: seq<Sample>, lo: real, hi: real)
    requires lo <= hi && JitterIn(c, lo, hi)
    requires OffsetsIn(Accepted(c, ms), lo, hi)
    ensures JitterIn(Run(c, ms), lo, hi)
  {
    hide Rejects, JitterIn, Accept;
    if ms != [] {
      var k := |ms| - 1;
      var acc, before := Accepted(c, ms), Accepted(c, ms[..k]);
      assert forall i :: 0 <= i < |before| ==> before[i] == acc[i];
      JitterForgets(c, ms[..k], lo, hi);
      var r := Run(c, ms[..k]);
      if Rejects(r, ms[k].rtt) {
        JitterSame(r, Update(r, ms[k]), lo, hi);
      } else {
        assert acc[|before|] == ms[k];
        StepJitter(r, ms[k], lo, hi);
        JitterSame(Accept(r, ms[k]), Update(r, ms[k]), lo, hi);
      }
    }
  }

  ghost predicate JitterIn(c: Clock, lo: real, hi: real) {
    && (c.samples > 0 ==> lo <= c.jitterMean <= hi)
    && 0.0 <= c.jitterVar <= (1.0 - ALPHA) * ((hi - lo) * (hi - lo))
  }

  lemma JitterSame(c: Clock, d: Clock, lo: real, hi: real)
    requires JitterIn(c, lo, hi) && c.samples == d.samples && c.jitterMean == d.jitterMean && c.jitterVar == d.jitterVar
    ensures JitterIn(d, lo, hi)
  {
  }

  lemma StepJitter(c: Clock, m: Sample, lo: real, hi: real)
    requires JitterIn(c, lo, hi) && lo <= m.offset <= hi
    ensures JitterIn(Accept(c, m), lo, hi)
  {
    hide Blend;
    var mean := if c.samples == 0 then m.offset else c.jitterMean;
    SquareBound(m.offset - mean, hi - lo);
  }

  lemma SquareBound(d: real, w: real)
    requires -w <= d <= w
    ensures 0.0 <= d * (ALPHA * d) <= ALPHA * (w * w)
  {
    assert d * (ALPHA * d) == ALPHA * (d * d);
    assert 0.0 <= d * d <= w * w by {
      assert w * w - d * d == (w - d) * (w + d);
    }
  }

  /** A measurement of the true offset `theta` is off by at most half its RTT. */
  ghost predicate Honest(m: Sample, theta: real) {
    -m.rtt / 2.0 <= m.offset - theta <= m.rtt / 2.0
  }

  /** Nonnegative path delays make honest measurements: the error is half the
      asymmetry, and the RTT is the sum of the delays. */
  lemma ExchangeIsHonest(t1: nat, t2: nat, t3: nat, t4: nat, theta: int, forth: nat, back: nat)
    requires t2 == t1 + forth + theta && t4 == t3 - theta + back
    ensures var m := Measure(t1, t2, t3, t4);
            && m.rtt == (forth + back) as real
            && m.offset - theta as real == (forth - back) as real / 2.0
            && Honest(m, theta as real)
  {
  }

  /** The filtered offset stays within half the largest accepted RTT of the truth. */
  lemma ErrorBound(c: Clock, ms: seq<Sample>, theta: real, maxRtt: real)
    requires forall k :: 0 <= k < |ms| ==> Honest(ms[k], theta)
    requires forall k :: 0 <= k < |Accepted(c, ms)| ==> Accepted(c, ms)[k].rtt <= maxRtt
    requires c.samples > 0 ==> -maxRtt / 2.0 <= c.offset - theta <= maxRtt / 2.0
    ensures Run(c, ms).samples > 0 ==> -maxRtt / 2.0 <= Run(c, ms).offset - theta <= maxRtt / 2.0
  {
    hide Rejects, Update;
    var acc := Accepted(c, ms);
    forall k | 0 <= k < |acc| ensures Honest(acc[k], theta) { AcceptedFrom(c, ms, k); }
    OffsetHull(c, ms, theta - maxRtt / 2.0, theta + maxRtt / 2.0);
  }

  lemma {:induction false} AcceptedFrom(c: Clock, ms: seq<Sample>, k: nat)
    requires k < |Accepted(c, ms)|
    ensures Accepted(c, ms)[k] in ms
  {
    hide Rejects, Update;
    var front := ms[..|ms| - 1];
    if k < |Accepted(c, front)| {
      AcceptedFrom(c, front, k);
    }
  }

  lemma {:induction false} BootstrapAccepts(ms: seq<Sample>)
    requires |ms| <= 10
    ensures var c := Run(NEW_CLOCK, ms);
            c.samples == |ms| && c.rejected == 0 && c.window == Rtts(ms)
  {
    hide Threshold;
    if ms != [] {
      var k := |ms| - 1;
      BootstrapAccepts(ms[..k]);
      assert Rtts(ms) == Rtts(ms[..k]) + [ms[k].rtt];
    }
  }

  lemma {:induction false} RunConcat(c: Clock, a: seq<Sample>, b: seq<Sample>)
    ensures Run(c, a + b) == Run(Run(c, a), b)
  {
    hide Update;
    if b == [] {
      assert a + b == a;
    } else {
      RunConcat(c, a, b[..|b| - 1]);
      assert (a + b)[..|a + b| - 1] == a + b[..|b| - 1];
    }
  }

  lemma {:induction false} NormalsAre(ms: seq<Sample>, a: real, w: real)
    ensures AllNormal(Normals(ms, a, w), a, w)
    ensures forall m :: m in Normals(ms, a, w) ==> m in ms
  {
    if ms != [] { NormalsAre(ms[..|ms| - 1], a, w); }
  }

  /** Spike-proof accuracy: ten in-band exchanges to bootstrap, then any mixture
      of in-band exchanges and spikes, of any size, that never takes the
      majority of the window. Measuring a constant true offset honestly, the
      filter then ends within half the band's largest RTT of it. */
  lemma {:induction false} SpikeProofError(boot: seq<Sample>, ms: seq<Sample>, theta: real, a: real, w: real)
    requires |boot| == 10 && AllNormal(boot, a, w) && 0.0 <= w <= 1000000.0
    requires Mixed(Run(NEW_CLOCK, boot), ms, a, w)
    requires forall m :: m in boot || m in ms ==> Honest(m, theta)
    ensures var c := Run(NEW_CLOCK, boot + ms);
            && -(a + w) / 2.0 <= c.offset - theta <= (a + w) / 2.0
            && c.rejected == |ms| - |Normals(ms, a, w)|
  {
    hide Update, Rejects, Mixed, Honest, Majority;
    var start := Run(NEW_CLOCK, boot);
    BootstrapAccepts(boot);
    BootMajority(Rtts(boot), a, w);
    SpikesInvisible(start, ms, a, w);
    RunConcat(NEW_CLOCK, boot, ms);
    NormalsAre(ms, a, w);
    AllNormalError(NEW_CLOCK, boot, theta, a, w);
    AllNormalError(start, Normals(ms, a, w), theta, a, w);
  }

  lemma BootMajority(rs: seq<real>, a: real, w: real)
    requires rs != [] && forall k :: 0 <= k < |rs| ==> Normal(rs[k], a, w)
    ensures Majority(rs, a, w)
  {
    CountAll(rs, a, a + w);
  }

  lemma AllNormalError(c: Clock, ms: seq<Sample>, theta: real, a: real, w: real)
    requires AllNormal(ms, a, w) && forall m :: m in ms ==> Honest(m, theta)
    requires c.samples > 0 ==> -(a + w) / 2.0 <= c.offset - theta <= (a + w) / 2.0
    ensures Run(c, ms).samples > 0 ==> -(a + w) / 2.0 <= Run(c, ms).offset - theta <= (a + w) / 2.0
  {
    hide Update, Rejects;
    forall k | 0 <= k < |Accepted(c, ms)| ensures Accepted(c, ms)[k].rtt <= a + w { AcceptedFrom(c, ms, k); }
    ErrorBound(c, ms, theta, a + w);
  }

  // ----- Speed of convergence -----

  /** What is left of an initial error after `k` accepted samples, the first of
      them being sample number `n`. */
  function Decay(n: nat, k: nat): real {
    if k == 0 then 1.0 else Decay(n, k - 1) * (1.0 - Weight(n + k - 1))
  }

  function Power(b: real, k: nat): real {
    if k == 0 then 1.0 else Power(b, k - 1) * b
  }

  /** One half per bootstrap sample, seven eighths per later one. */
  lemma {:induction false} DecayRates(n: nat, k: nat)
    requires n <= 10
    ensures var fast := if k <= 10 - n then k else 10 - n;
            Decay(n, k) == Power(0.5, fast) * Power(0.875, k - fast)
  {
    if k > 0 {
      hide Power;
      DecayRates(n, k - 1);
      var slow := 10 - n;
      if k <= slow {
        OneMore(1.0, 0.5, k - 1);
        PowerZero(0.875);
      } else {
        OneMore(Power(0.5, slow), 0.875, k - 1 - slow);
      }
    }
  }

  lemma PowerZero(b: real)
    ensures Power(b, 0) == 1.0
  {
  }

  lemma OneMore(a: real, b: real, k: nat)
    ensures (a * Power(b, k)) * b == a * Power(b, k + 1)
  {
    Regroup(a, Power(b, k), b);
  }

  lemma Regroup(a: real, b: real, c: real)
    ensures (a * b) * c == a * (b * c)
  {
  }

  /** A constant measurement is approached at exactly that rate. */
  lemma {:induction false} Convergence(c: Clock, ms: seq<Sample>, mu: real)
    requires c.samples >= 1 && forall k :: 0 <= k < |ms| ==> ms[k].offset == mu
    ensures var r := Run(c, ms);
            && r.samples == c.samples + |Accepted(c, ms)|
            && r.offset - mu == Decay(c.samples, |Accepted(c, ms)|) * (c.offset - mu)
  {
    hide Rejects, Update, Decay;
    if ms == [] {
      assert Decay(c.samples, 0) == 1.0 by { DecayZero(c.samples); }
    } else {
      var k := |ms| - 1;
      Convergence(c, ms[..k], mu);
      var before := Run(c, ms[..k]);
      RejectedStep(before, ms[k]);
      if !Rejects(before, ms[k].rtt) {
        StepShrinks(before, ms[k], mu, c.samples, |Accepted(c, ms[..k])|, c.offset - mu);
      }
    }
  }

  lemma DecayZero(n: nat)
    ensures Decay(n, 0) == 1.0
  {
  }

  lemma StepShrinks(c: Clock, m: Sample, mu: real, n: nat, k: nat, error: real)
    requires c.samples == n + k >= 1 && m.offset == mu && !Rejects(c, m.rtt)
    requires c.offset - mu == Decay(n, k) * error
    ensures Update(c, m).offset - mu == Decay(n, k + 1) * error
  {
    hide Rejects, Blend, Weight, Spread, Decay;
    var w := Weight(c.samples);
    assert Update(c, m).offset == Blend(c.offset, mu, w);
    BlendShrinks(c.offset, mu, w);
    DecayNext(n, k);
    Shrink(Decay(n, k), error, 1.0 - w);
  }

  lemma DecayNext(n: nat, k: nat)
    ensures Decay(n, k + 1) == Decay(n, k) * (1.0 - Weight(n + k))
  {
  }

  lemma BlendShrinks(x: real, mu: real, w: real)
    ensures Blend(x, mu, w) - mu == (x - mu) * (1.0 - w)
  {
  }

  lemma Shrink(d: real, e: real, f: real)
    ensures (d * e) * f == (d * f) * e
  {
  }

  /** So is a constant round trip. */
  lemma {:induction false} RttConvergence(c: Clock, ms: seq<Sample>, mu: real)
    requires c.samples >= 1 && forall k :: 0 <= k < |ms| ==> ms[k].rtt == mu
    ensures var r := Run(c, ms);
            && r.samples == c.samples + |Accepted(c, ms)|
            && r.rtt - mu == Decay(c.samples, |Accepted(c, ms)|) * (c.rtt - mu)
  {
    hide Rejects, Update, Decay;
    if ms == [] {
      assert Decay(c.samples, 0) == 1.0 by { DecayZero(c.samples); }
    } else {
      var k := |ms| - 1;
      RttConvergence(c, ms[..k], mu);
      var before := Run(c, ms[..k]);
      RejectedStep(before, ms[k]);
      if !Rejects(before, ms[k].rtt) {
        RttShrinks(before, ms[k], mu, c.samples, |Accepted(c, ms[..k])|, c.rtt - mu);
      }
    }
  }

  lemma RttShrinks(c: Clock, m: Sample, mu: real, n: nat, k: nat, error: real)
    requires c.samples == n + k >= 1 && m.rtt == mu && !Rejects(c, m.rtt)
    requires c.rtt - mu == Decay(n, k) * error
    ensures Update(c, m).rtt - mu == Decay(n, k + 1) * error
  {
    hide Rejects, Blend, Weight, Spread, Decay;
    var w := Weight(c.samples);
    assert Update(c, m).rtt == Blend(c.rtt, mu, w);
    BlendShrinks(c.rtt, mu, w);
    DecayNext(n, k);
    Shrink(Decay(n, k), error, 1.0 - w);
  }

  // ----- Jitter -----

  /** Mean of measured offsets, an eighth of the weight on the latest. */
  function RecentMean(ms: seq<Sample>): real {
    if |ms| == 0 then 0.0
    else if |ms| == 1 then ms[0].offset
    else 0.875 * RecentMean(ms[..|ms| - 1]) + 0.125 * ms[|ms| - 1].offset
  }

  /** Mean of their squares, weighted alike. */
  function RecentSquare(ms: seq<Sample>): real {
    if |ms| == 0 then 0.0
    else if |ms| == 1 then ms[0].offset * ms[0].offset
    else 0.875 * RecentSquare(ms[..|ms| - 1]) + 0.125 * (ms[|ms| - 1].offset * ms[|ms| - 1].offset)
  }

  /** What the filter calls jitter is the variance of the accepted offsets under
      those weights: mean square less squared mean. */
  lemma {:induction false} JitterIsVariance(ms: seq<Sample>)
    ensures JitterOf(Run(NEW_CLOCK, ms), Accepted(NEW_CLOCK, ms))
  {
    hide Rejects, Accept, JitterOf;
    if ms == [] {
      JitterAtStart();
    } else {
      var k := |ms| - 1;
      JitterIsVariance(ms[..k]);
      var c, acc := Run(NEW_CLOCK, ms[..k]), Accepted(NEW_CLOCK, ms[..k]);
      assert acc + [] == acc;
      JitterStep(c, ms[k], acc);
      JitterOnly(c, Update(c, ms[k]), acc);
      JitterOnly(Accept(c, ms[k]), Update(c, ms[k]), acc + [ms[k]]);
    }
  }

  ghost predicate JitterOf(c: Clock, acc: seq<Sample>) {
    && c.samples == |acc|
    && c.jitterMean == RecentMean(acc)
    && c.jitterVar == RecentSquare(acc) - RecentMean(acc) * RecentMean(acc)
  }

  lemma JitterAtStart()
    ensures JitterOf(NEW_CLOCK, [])
  {
  }

  lemma JitterOnly(c: Clock, d: Clock, acc: seq<Sample>)
    requires JitterOf(c, acc)
    ensures c.samples == d.samples && c.jitterMean == d.jitterMean && c.jitterVar == d.jitterVar ==> JitterOf(d, acc)
  {
  }

  lemma JitterStep(c: Clock, m: Sample, acc: seq<Sample>)
    requires JitterOf(c, acc)
    ensures JitterOf(Accept(c, m), acc + [m])
  {
    hide Blend, Spread;
    var all := acc + [m];
    assert all[..|acc|] == acc;
    if acc == [] {
      Steiner(m.offset, 0.0, m.offset);
    } else {
      Steiner(c.jitterMean, c.jitterVar, m.offset);
    }
  }

  lemma Steiner(mean: real, v: real, x: real)
    ensures var next := mean + ALPHA * (x - mean);
            && next == 0.875 * mean + 0.125 * x
            && Spread(v, x - mean) == 0.875 * (v + mean * mean) + 0.125 * (x * x) - next * next
  {
    var d := x - mean;
    assert x * x == mean * mean + 2.0 * (mean * d) + d * d;
    var next := mean + 0.125 * d;
    assert next * next == mean * mean + 0.25 * (mean * d) + 0.015625 * (d * d);
    assert d * (ALPHA * d) == 0.125 * (d * d);
  }
}
