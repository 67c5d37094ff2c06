/** Clock-domain conversions, the scheduled start and the drift servo. */
module Sync {
  import opened Bytes
  import opened Arithmetic
  import opened Playback
  import opened PlaybackRuns
  import CF = ClockFilter
  import CR = ClockRuns

  const NS: int := 1_000_000_000

  /** `f64::round`: to the nearest integer, halves away from zero. */
  function Round(x: real): int {
    if x >= 0.0 then (x + 0.5).Floor else -(0.5 - x).Floor
  }

  /** Rounded and cast to u64, which saturates. */
  function ToU64(x: real): nat {
    if Round(x) < 0 then 0 else Min(Round(x), TWO64 - 1)
  }

  function SatSub(a: nat, b: nat): nat { if a >= b then a - b else 0 }

  /** i64 `saturating_add`, then clamped at zero. */
  function SaturateI64(x: int): nat {
    if x < 0 then 0 else if x >= TWO63 then TWO63 - 1 else x
  }

  function AsI64(x: nat): int { if x % TWO64 < TWO63 then x % TWO64 else x % TWO64 - TWO64 }

  function ControllerToLocal(t: nat, offset: int): nat { SaturateI64(AsI64(t) - offset) }

  function LocalToController(t: nat, offset: int): nat { SaturateI64(AsI64(t) + offset) }

  /** The published clock: what the audio path reads after each exchange. */
  class SharedClock {
    const state: CF.ClockState
    var offsetNs: int
    var rttNs: nat
    var bootstrapped: bool

    ghost predicate Valid()
      reads this, state
    {
      && |state.rttWindow| <= CF.RTT_WINDOW
      && offsetNs == Round(state.offsetNs)
      && rttNs == ToU64(state.rttNs)
      && bootstrapped == CF.Bootstrapped(state.State())
    }

    constructor ()
      ensures Valid() && fresh(state) && state.State() == CF.NEW_CLOCK
    {
      state := new CF.ClockState();
      offsetNs, rttNs, bootstrapped := 0, 0, false;
    }

    method Update(t1: nat, t2: nat, t3: nat, t4: nat)
      requires Valid()
      modifies this, state
      ensures Valid()
      ensures state.State() == CF.Update(old(state.State()), CF.Measure(t1, t2, t3, t4))
    {
      state.UpdateWith(t1, t2, t3, t4);
      offsetNs := Round(state.offsetNs);
      rttNs := ToU64(state.rttNs);
      bootstrapped := state.samples >= CF.BOOTSTRAP_COUNT;
    }
  }

  /** Rounding is to the nearest integer, and from halfway to the one farther from
      zero; no other integer does that. */
  lemma RoundExactly(x: real, n: int)
    ensures n == Round(x) <==>
            && -0.5 <= n as real - x <= 0.5
            && (n as real - x == 0.5 ==> x >= 0.0) && (n as real - x == -0.5 ==> x < 0.0)
  {
    var r := Round(x);
    if -0.5 <= n as real - x <= 0.5 && n != r {
      assert n == r + 1 || n == r - 1;
    }
  }

  /** Conversions are exact up to 2^63 ns; past the ends they stop there. */
  lemma ConversionsClamp(t: nat, offset: int)
    requires t < 0x8000_0000_0000_0000
    ensures var last := 0x7FFF_FFFF_FFFF_FFFF;
            && LocalToController(t, offset) == (if t + offset < 0 then 0 else Min(t + offset, last))
            && ControllerToLocal(t, offset) == (if t - offset < 0 then 0 else Min(t - offset, last))
  {
  }

  /** The two conversions undo each other wherever neither clamps. */
  lemma ConversionsInverse(t: nat, offset: int)
    requires t < TWO63 && 0 <= t + offset < TWO63
    ensures ControllerToLocal(LocalToController(t, offset), offset) == t
  {
  }

  // ----- The drift servo -----

  /** Frames behind (positive) or ahead of schedule. */
  function DriftFrames(startNs: nat, rate: nat, now: nat, played: nat): int {
    SatSub(now, startNs) * rate / NS - played
  }

  datatype Servo = Servo(startNs: nat, lastDrift: int)

  function Clamp(x: int, lo: int, hi: int): int { if x < lo then lo else if x > hi then hi else x }

  predicate Stalled(drift: int, lastDrift: int, rate: nat) {
    drift > rate / 2 && lastDrift != 0 && lastDrift - drift < rate / 10
  }

  /** The rebase distance, computed in u64: the product wraps. */
  function ShiftNs(drift: nat, rate: nat): nat {
    drift * NS % TWO64 / (if rate >= 1 then rate else 1)
  }

  /** Below half a millisecond, jitter dominates and nothing is corrected. */
  function Deadband(rate: nat): nat { if rate / 2000 >= 4 then rate / 2000 else 4 }

  /** One tick: the new timeline, and the correction queued. */
  function Tick(s: Servo, rate: nat, now: nat, played: nat): (Servo, int) {
    var drift := DriftFrames(s.startNs, rate, now, played);
    var deadband := Deadband(rate);
    if Stalled(drift, s.lastDrift, rate) then
      (Servo(s.startNs + ShiftNs(drift, rate), 0), 0)
    else if drift > deadband || -drift > deadband then
      (s.(lastDrift := drift), Clamp(drift, -(rate as int), rate))
    else
      (s.(lastDrift := drift), 0)
  }

  lemma DivBounds(x: int, m: int)
    requires m > 0
    ensures (x / m) * m <= x < (x / m) * m + m
  {
  }

  lemma DivAtLeast(x: int, q: int, m: int)
    requires m > 0 && x >= q * m
    ensures x / m >= q
  {
    if x / m < q { MulMono(x / m + 1, q, m); }
  }

  lemma DivBelow(x: int, q: int, m: int)
    requires m > 0 && x < q * m
    ensures x / m < q
  {
    if x / m >= q { MulMono(q, x / m, m); }
  }

  lemma MulCancel(a: int, b: int, m: int)
    requires m > 0 && a * m <= b * m
    ensures a <= b
  {
    if a > b { MulMono(b + 1, a, m); }
  }

  /** How a shift of the start moves the measured drift. */
  lemma ShiftedDrift(start: nat, rate: nat, now: nat, played: nat, shift: nat, d: int)
    requires rate >= 1 && d == DriftFrames(start, rate, now, played) >= 1
    requires shift * rate <= d * NS
    ensures start + shift <= now
    ensures var e := d * NS - shift * rate;
            (e / NS) <= DriftFrames(start + shift, rate, now, played) <= (e + NS - 1) / NS
  {
    var elapsed := SatSub(now, start);
    var total := elapsed * rate;
    DivBounds(total, NS);
    assert d * NS <= total by { MulMono(d, total / NS, NS); }
    MulCancel(shift, elapsed, rate);
    assert elapsed == now - start by { if now < start { assert false; } }
    var left := (elapsed - shift) * rate;
    assert left == total - shift * rate;
    var e := d * NS - shift * rate;
    assert total == (total / NS) * NS + total % NS;
    assert left == played * NS + (e + total % NS) by {
      assert (total / NS) * NS == (d + played) * NS;
      assert (d + played) * NS == d * NS + played * NS;
    }
    DivBounds(e, NS);
    DivBounds(e + NS - 1, NS);
    DivAtLeast(left, played + e / NS, NS);
    DivBelow(left, played + (e + NS - 1) / NS + 1, NS);
  }

  /** Timeline rebase: drift re-measured at the same instant and position is what
      rounding leaves, 0 or 1 frame up to a rate of 10^9, if and only if the
      nanosecond product fits 64 bits. */
  lemma RebaseResidual(s: Servo, rate: nat, now: nat, played: nat)
    requires 1 <= rate < 0x1_0000_0000
    requires Stalled(DriftFrames(s.startNs, rate, now, played), s.lastDrift, rate)
    ensures var d := DriftFrames(s.startNs, rate, now, played);
            var s' := Tick(s, rate, now, played).0;
            var residual := DriftFrames(s'.startNs, rate, now, played);
            && s'.startNs <= now
            && (0 <= residual <= 1 + (rate - 1) / NS <==> d * NS < TWO64)
  {
    hide DriftFrames;
    var d := DriftFrames(s.startNs, rate, now, played);
    var shift := ShiftNs(d, rate);
    ShiftLeaves(d, rate);
    ShiftedDrift(s.startNs, rate, now, played, shift, d);
    ResidualBound(d * NS - shift * rate, rate, d * NS < TWO64);
  }

  /** What the integer division leaves, with and without wrap-around. */
  lemma ShiftLeaves(d: nat, rate: nat)
    requires rate >= 1
    ensures var e := d * NS - ShiftNs(d, rate) * rate;
            && (d * NS < TWO64 ==> 0 <= e <= rate - 1)
            && (d * NS >= TWO64 ==> e >= TWO64)
  {
    var x := d * NS;
    DivBounds(x % TWO64, rate);
    if x < TWO64 { assert x % TWO64 == x; } else { ModDrop(x, TWO64); }
  }

  lemma ResidualBound(e: int, rate: nat, fits: bool)
    requires 1 <= rate < 0x1_0000_0000
    requires if fits then 0 <= e <= rate - 1 else e >= TWO64
    ensures fits ==> 0 <= e / NS && (e + NS - 1) / NS <= 1 + (rate - 1) / NS
    ensures !fits ==> e / NS > 1 + (rate - 1) / NS
  {
    DivBounds(rate - 1, NS);
    if fits {
      DivBelow(e + NS - 1, 2 + (rate - 1) / NS, NS);
    } else {
      DivAtLeast(e, 18_446_744_073, NS);
      DivBelow(rate - 1, 6, NS);
    }
  }

  lemma ModDrop(x: nat, m: nat)
    requires m > 0 && x >= m
    ensures x - x % m >= m
  {
    assert x == (x / m) * m + x % m;
    DivAtLeast(x, 1, m);
    MulMono(1, x / m, m);
  }

  /** The 64-bit limit can be reached: at 48 kHz, 4.6 days behind. */
  lemma RebaseWraps()
    ensures var s, rate, now := Servo(0, 1), 48_000, 400_000_000_000_000;
            && now < TWO64
            && Stalled(DriftFrames(s.startNs, rate, now, 0), s.lastDrift, rate)
            && DriftFrames(Tick(s, rate, now, 0).0.startNs, rate, now, 0) > 1
  {
    var s, now := Servo(0, 1), 400_000_000_000_000;
    var d := 19_200_000_000;
    assert DriftFrames(0, 48_000, now, 0) == d;
    ShiftLeaves(d, 48_000);
    ShiftedDrift(0, 48_000, now, 0, ShiftNs(d, 48_000), d);
    DivAtLeast(d * NS - ShiftNs(d, 48_000) * 48_000, 2, NS);
  }

  // ----- The scheduled start -----

  /** Presentation time of the ring head, given the packet that armed the start
      and the frames queued before it. */
  function HeadPts(ptsNs: nat, buffered: nat, rate: nat): nat {
    SatSub(ptsNs, buffered * NS / (if rate >= 1 then rate else 1))
  }

  function LeadNs(head: nat, offset: int, now: nat): nat { SatSub(ControllerToLocal(head, offset), now) }

  const LEAD_LIMIT: nat := 5 * NS

  predicate Scheduled(bootstrapped: bool, lead: nat) { bootstrapped && 0 < lead < LEAD_LIMIT }

  /** One endpoint's start: its published offset, its local time when the arming
      packet is handled, and the moment later when the timer is set. */
  datatype Arming = Arming(ptsNs: nat, buffered: nat, offset: int, now: nat, gap: nat)

  function LocalStart(a: Arming, rate: nat): int {
    a.now + a.gap + LeadNs(HeadPts(a.ptsNs, a.buffered, rate), a.offset, a.now)
  }

  /** A timestamp is the stream start plus the packet's offset, to within `slack` ns. */
  ghost predicate StampedAt(ptsNs: nat, frames: nat, t0: nat, rate: nat, slack: nat) {
    -(slack * rate) as int <= (ptsNs - t0) * rate - frames * NS <= slack * rate
  }

  /** The ring-head correction recovers the stream start from any packet. */
  lemma HeadIsStart(ptsNs: nat, frames: nat, t0: nat, rate: nat, slack: nat)
    requires rate >= 1 && StampedAt(ptsNs, frames, t0, rate, slack)
    ensures -(slack as int) <= HeadPts(ptsNs, frames, rate) - t0 <= slack
  {
    var q := frames * NS / rate;
    DivBounds(frames * NS, rate);
    var x := ptsNs - q - t0;
    assert x * rate == (ptsNs - t0) * rate - q * rate;
    assert x <= slack by {
      if x >= slack + 1 { MulMono(slack + 1, x, rate); }
    }
    assert x >= -(slack as int) by {
      if x <= -(slack as int) - 1 { MulMono(x, -(slack as int) - 1, rate); }
    }
  }

  /** The head's time, in controller and in local time, fits 63 bits: it does for
      292 years. */
  ghost predicate InRange(a: Arming, rate: nat) {
    var head := HeadPts(a.ptsNs, a.buffered, rate);
    head < TWO63 && head - a.offset < TWO63
  }

  /** On the scheduled branch the local start is the head minus the offset, if and
      only if both fit 63 bits. */
  lemma ScheduledStart(a: Arming, rate: nat)
    requires a.ptsNs < TWO64
    requires Scheduled(true, LeadNs(HeadPts(a.ptsNs, a.buffered, rate), a.offset, a.now))
    ensures LocalStart(a, rate) == HeadPts(a.ptsNs, a.buffered, rate) - a.offset + a.gap <==> InRange(a, rate)
  {
    var head := HeadPts(a.ptsNs, a.buffered, rate);
    assert head <= a.ptsNs;
    hide HeadPts, AsI64;
    AsI64Cases(head);
  }

  lemma AsI64Cases(x: nat)
    requires x < TWO64
    ensures AsI64(x) == if x < TWO63 then x else x - TWO64
  {
  }

  lemma AsI64Small(x: nat)
    requires x < TWO63
    ensures AsI64(x) == x
  {
  }

  /** An endpoint armed by a packet whose offset equals what it had queued. */
  ghost predicate ArmedWell(a: Arming, frames: nat, t0: nat, rate: nat, slack: nat) {
    && a.buffered == frames
    && StampedAt(a.ptsNs, frames, t0, rate, slack)
    && TimerSet(a, rate)
  }

  /** It took the scheduled branch, with times that fit 63 bits. */
  ghost predicate TimerSet(a: Arming, rate: nat) {
    && a.ptsNs < TWO64 && InRange(a, rate)
    && Scheduled(true, LeadNs(HeadPts(a.ptsNs, a.buffered, rate), a.offset, a.now))
  }

  /** Seen from the controller, an endpoint whose true offset is `theta` starts
      within its clock error, stamping slack and timer gap of the stream start. */
  lemma StartError(a: Arming, frames: nat, t0: nat, rate: nat, slack: nat, theta: int)
    requires rate >= 1 && ArmedWell(a, frames, t0, rate, slack)
    ensures var e := LocalStart(a, rate) + theta - t0 - a.gap;
            -(slack + Abs(theta - a.offset)) as int <= e <= slack + Abs(theta - a.offset)
  {
    HeadIsStart(a.ptsNs, frames, t0, rate, slack);
    ScheduledStart(a, rate);
  }

  /** Multi-room start skew: two endpoints of a zone, armed by any packets of the
      stream with any amount queued, start within the sum of their clock errors
      plus the stamping slack and the larger timer gap. */
  lemma StartSkew(a: Arming, b: Arming, fa: nat, fb: nat, t0: nat, rate: nat, slack: nat, thetaA: int, thetaB: int)
    requires rate >= 1 && ArmedWell(a, fa, t0, rate, slack) && ArmedWell(b, fb, t0, rate, slack)
    ensures var skew := (LocalStart(a, rate) + thetaA) - (LocalStart(b, rate) + thetaB);
            Abs(skew) <= Abs(thetaA - a.offset) + Abs(thetaB - b.offset) + 2 * slack +
                            (if a.gap >= b.gap then a.gap else b.gap)
  {
    StartError(a, fa, t0, rate, slack, thetaA);
    StartError(b, fb, t0, rate, slack, thetaB);
  }

  // ----- Composition: ring, clock and start together -----

  /** Before the start: packets are written and callbacks find the output stopped. */
  ghost predicate Stopped(es: seq<Event>) {
    forall k :: 0 <= k < |es| ==> es[k].Arrive? || (es[k].Ask? && !es[k].active)
  }

  ghost function FramesIn(f: Format, es: seq<Event>): nat
    requires Configured(f)
  {
    if es == [] then 0
    else
      var e := es[|es| - 1];
      FramesIn(f, es[..|es| - 1]) + if e.Arrive? then |e.bytes| / FrameBytes(f) else 0
  }

  lemma {:induction false} StoppedTotals(f: Format, es: seq<Event>)
    requires Configured(f) && Stopped(es)
    ensures var b := Run(f, OPENING, es);
            && b.o.samplesPlayed == 0 && b.o.netAdjust == 0 && b.o.correction == 0
            && b.received == FramesIn(f, es)
  {
    hide Write, FrameBytes;
    if es != [] {
      var front, e := es[..|es| - 1], es[|es| - 1];
      StoppedTotals(f, front);
      var b := Run(f, OPENING, front);
      if e.Arrive? {
        WriteShape(f, b.o, e.bytes);
        WriteAdjusts(f, b.o, e.bytes);
        WriteToward(f, b.o, e.bytes);
      }
    }
  }

  /** While stopped and without overflow, the buffer level is exactly the number
      of frames received: the offset of the next packet of the stream. */
  lemma BufferedIsOffset(f: Format, es: seq<Event>)
    requires Configured(f) && Stopped(es) && Run(f, OPENING, es).overflowed == 0
    ensures |Run(f, OPENING, es).o.ring| / FrameBytes(f) == FramesIn(f, es)
  {
    Conservation(f, es);
    StoppedTotals(f, es);
  }

  lemma RoundClose(x: real, theta: int, m: real)
    requires -m <= x - theta as real <= m
    ensures Abs(theta - Round(x)) as real <= m + 0.5
  {
  }

  /** One endpoint of a zone, from the wire to the timer: what it wrote before
      being armed, and every clock exchange it made. */
  datatype Endpoint = Endpoint(format: Format, events: seq<Event>, boot: seq<CF.Sample>, exchanges: seq<CF.Sample>,
                               theta: int, arming: Arming)

  /** It bootstrapped in an RTT band, never lost the band's majority, measured a
      constant true offset honestly, queued the stream from its first packet
      without overflow, and took the scheduled branch on the next one. */
  ghost predicate InSync(e: Endpoint, band: real, width: real, t0: nat, rate: nat, slack: nat) {
    && Configured(e.format) && Stopped(e.events)
    && 0.0 <= width <= CF.RTT_OUTLIER_FLOOR_NS
    && |e.boot| == CF.BOOTSTRAP_COUNT && CR.AllNormal(e.boot, band, width)
    && CF.Mixed(CF.Run(CF.NEW_CLOCK, e.boot), e.exchanges, band, width)
    && (forall m :: m in e.boot || m in e.exchanges ==> CR.Honest(m, e.theta as real))
    && e.arming.offset == Round(CF.Run(CF.NEW_CLOCK, e.boot + e.exchanges).offset)
    && Run(e.format, OPENING, e.events).overflowed == 0
    && e.arming.buffered == |Run(e.format, OPENING, e.events).o.ring| / FrameBytes(e.format)
    && StampedAt(e.arming.ptsNs, FramesIn(e.format, e.events), t0, rate, slack)
    && TimerSet(e.arming, rate)
  }

  lemma OffsetError(e: Endpoint, band: real, width: real, t0: nat, rate: nat, slack: nat)
    requires InSync(e, band, width, t0, rate, slack)
    ensures Abs(e.theta - e.arming.offset) as real <= (band + width) / 2.0 + 0.5
  {
    hide CF.Update, CF.Mixed, CR.Honest, TimerSet, StampedAt;
    CR.SpikeProofError(e.boot, e.exchanges, e.theta as real, band, width);
    RoundClose(CF.Run(CF.NEW_CLOCK, e.boot + e.exchanges).offset, e.theta, (band + width) / 2.0);
  }

  /** The whole chain: two endpoints of a zone start within half of each one's
      band RTT, plus 1 ns of offset rounding, twice the stamping slack and the
      larger timer gap, whatever delay spikes either clock saw, whichever
      packets armed them and however much each had queued. */
  lemma ZoneStartSkew(a: Endpoint, b: Endpoint, bandA: real, bandB: real, width: real, t0: nat, rate: nat, slack: nat)
    requires rate >= 1
    requires InSync(a, bandA, width, t0, rate, slack) && InSync(b, bandB, width, t0, rate, slack)
    ensures var skew := (LocalStart(a.arming, rate) + a.theta) - (LocalStart(b.arming, rate) + b.theta);
            var gap := if a.arming.gap >= b.arming.gap then a.arming.gap else b.arming.gap;
            Abs(skew) as real <= (bandA + bandB) / 2.0 + width + 1.0 + (2 * slack + gap) as real
  {
    OffsetError(a, bandA, width, t0, rate, slack);
    OffsetError(b, bandB, width, t0, rate, slack);
    BufferedIsOffset(a.format, a.events);
    BufferedIsOffset(b.format, b.events);
    StartSkew(a.arming, b.arming, FramesIn(a.format, a.events), FramesIn(b.format, b.events), t0, rate, slack, a.theta, b.theta);
  }

  /** Such endpoints exist for every stopped history of the ring, true offset and
      RTT band: exact measurements, and the next packet stamped to the nanosecond. */
  lemma InSyncEndpoint(f: Format, es: seq<Event>, theta: int, band: real, width: real, t0: nat, rate: nat) returns (e: Endpoint)
    requires Configured(f) && Stopped(es) && Run(f, OPENING, es).overflowed == 0
    requires rate >= 1 && 0.0 <= band && 0.0 <= width <= CF.RTT_OUTLIER_FLOOR_NS
    requires 1 <= t0 - theta < TWO63 && t0 < TWO63 && OffsetPts(t0, FramesIn(f, es), rate) < TWO64
    ensures e.format == f && e.events == es && e.theta == theta
    ensures InSync(e, band, width, t0, rate, 1)
  {
    hide Run, FramesIn, Stopped, FrameBytes, OffsetPts, StampedAt, TimerSet, Round, CF.Run, CF.Mixed, CR.AllNormal, CR.Honest;
    var n := FramesIn(f, es);
    var arming := Arming(OffsetPts(t0, n, rate), n, theta, t0 - theta - 1, 0);
    var boot := ExactBoot(theta, band, width);
    e := Endpoint(f, es, boot, [], theta, arming);
    ExactTimer(arming, t0, rate);
    BufferedIsOffset(f, es);
    assert boot + [] == boot;
  }

  /** Presentation time of the packet `frames` into a stream that starts at `t0`. */
  function OffsetPts(t0: nat, frames: nat, rate: nat): nat
    requires rate >= 1
  {
    t0 + frames * NS / rate
  }

  lemma ExactTimer(a: Arming, t0: nat, rate: nat)
    requires rate >= 1 && a.ptsNs == OffsetPts(t0, a.buffered, rate) && a.ptsNs < TWO64 && t0 < TWO63
    requires 0 <= t0 - a.offset - 1 == a.now < TWO63 - 1
    ensures StampedAt(a.ptsNs, a.buffered, t0, rate, 1) && TimerSet(a, rate)
  {
    var q := a.buffered * NS / rate;
    DivBounds(a.buffered * NS, rate);
    assert HeadPts(a.ptsNs, a.buffered, rate) == t0;
    AsI64Small(t0);
  }

  /** A bootstrap of exact measurements ends on the true offset. */
  lemma ExactBoot(theta: int, band: real, width: real) returns (boot: seq<CF.Sample>)
    requires 0.0 <= band && 0.0 <= width
    ensures |boot| == CF.BOOTSTRAP_COUNT && CR.AllNormal(boot, band, width)
    ensures forall m :: m in boot ==> CR.Honest(m, theta as real)
    ensures CF.Mixed(CF.Run(CF.NEW_CLOCK, boot), [], band, width)
    ensures Round(CF.Run(CF.NEW_CLOCK, boot).offset) == theta
  {
    hide CF.Run, CF.Update;
    boot := seq(CF.BOOTSTRAP_COUNT, _ => CF.Sample(theta as real, band));
    CR.BootstrapAccepts(boot);
    forall k | 0 <= k < |CR.Accepted(CF.NEW_CLOCK, boot)|
      ensures CR.Accepted(CF.NEW_CLOCK, boot)[k].offset == theta as real
    {
      CR.AcceptedFrom(CF.NEW_CLOCK, boot, k);
    }
    CR.OffsetHull(CF.NEW_CLOCK, boot, theta as real, theta as real);
  }
}
