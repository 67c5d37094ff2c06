/** The drift servo and the output as a closed loop: what one tick measures,
    corrects, and the next one measures again. */
module ServoLoop {
  import opened Bytes
  import opened Arithmetic
  import opened Playback
  import opened PlaybackRuns
  import opened Sync

  function FramesPlayed(f: Format, o: Output): nat
    requires Configured(f)
  {
    o.samplesPlayed / f.channels
  }

  /** The content position before it is clamped at zero. */
  function RawPosition(f: Format, o: Output): int
    requires Configured(f)
  {
    FramesPlayed(f, o) + o.netAdjust
  }

  /** A tick at `now` and everything the output does until the next one. */
  ghost function Period(f: Format, b: Books, s: Servo, rate: nat, now: nat, es: seq<Event>): (r: (Books, Servo, int))
    requires Safe(f, b)
    ensures Safe(f, r.0)
  {
    var (s', c) := Sync.Tick(s, rate, now, ContentPosition(f, b.o));
    (PlaybackRuns.Run(f, PlaybackRuns.Step(f, b, Correct(c)), es), s', c)
  }

  /** Frames due by `now`. */
  function Due(startNs: nat, rate: nat, now: nat): int { SatSub(now, startNs) * rate / NS }

  /** What the clock asks for over a period beyond what the output consumes. */
  ghost function Slip(f: Format, b: Books, after: Books, startNs: nat, rate: nat, now: nat, later: nat): int
    requires Configured(f)
  {
    (Due(startNs, rate, later) - Due(startNs, rate, now)) - (FramesPlayed(f, after.o) - FramesPlayed(f, b.o))
  }

  /** An output that consumes at the nominal rate, to within `jitter` frames,
      slips by at most one frame more. */
  lemma NominalSlip(f: Format, b: Books, after: Books, startNs: nat, rate: nat, now: nat, later: nat, jitter: nat)
    requires Configured(f) && startNs <= now <= later
    requires var c := FramesPlayed(f, after.o) - FramesPlayed(f, b.o);
             -(jitter * NS) <= c * NS - (later - now) * rate <= jitter * NS
    ensures Abs(Slip(f, b, after, startNs, rate, now, later)) <= jitter + 1
  {
    hide FramesPlayed;
    var c := FramesPlayed(f, after.o) - FramesPlayed(f, b.o);
    var x, y := (now - startNs) * rate, (later - startNs) * rate;
    assert y - x == (later - now) * rate;
    DivBounds(x, NS);
    DivBounds(y, NS);
  }

  /** One turn of the loop, exactly: the next drift is the last one, less the
      correction applied, plus the slip. Corrections that are still pending have
      not been applied. */
  lemma DriftNext(f: Format, b: Books, s: Servo, rate: nat, now: nat, es: seq<Event>, later: nat)
    requires Safe(f, b) && NoNewCorrection(es) && RawPosition(f, b.o) >= 0
    requires RawPosition(f, Period(f, b, s, rate, now, es).0.o) >= 0
    ensures var (after, s', c) := Period(f, b, s, rate, now, es);
            var d := DriftFrames(s.startNs, rate, now, ContentPosition(f, b.o));
            DriftFrames(s.startNs, rate, later, ContentPosition(f, after.o)) ==
            d - (c - after.o.correction) + Slip(f, b, after, s.startNs, rate, now, later)
  {
    hide Sync.Tick, PlaybackRuns.Run, SatSub;
    var c := Sync.Tick(s, rate, now, ContentPosition(f, b.o)).1;
    CorrectionConserved(f, PlaybackRuns.Step(f, b, Correct(c)), es);
  }

  /** A skip of more than 1200 frames is applied packet by packet: once as many
      frames as asked for have been written, at most 1200 are left. */
  lemma {:induction false} JumpSettles(f: Format, b: Books, es: seq<Event>)
    requires Safe(f, b) && NoNewCorrection(es)
    ensures var left := b.o.correction - FramesIn(f, es);
            PlaybackRuns.Run(f, b, es).o.correction <= if left > JUMP_THRESHOLD_FRAMES then left else JUMP_THRESHOLD_FRAMES
  {
    hide FrameBytes, Write, Callback;
    if es != [] {
      var front, e := es[..|es| - 1], es[|es| - 1];
      JumpSettles(f, b, front);
      var mid := PlaybackRuns.Run(f, b, front).o;
      match e
      case Arrive(bytes) =>
        WriteToward(f, mid, bytes);
        if mid.correction > JUMP_THRESHOLD_FRAMES { WriteJumps(f, mid, bytes); }
      case Ask(k, active) =>
        AskKeeps(f, mid, k * f.channels, active);
    }
  }

  lemma WriteJumps(f: Format, o: Output, bytes: seq<byte>)
    requires Configured(f) && |o.ring| <= f.capacity && o.correction > JUMP_THRESHOLD_FRAMES
    ensures var n := |bytes| / FrameBytes(f);
            Write(f, o, bytes).0.correction == o.correction - Min(o.correction, n)
  {
    hide Corrected, FrameBytes;
  }

  /** The closed loop: a drift beyond the deadband and up to one second is, at the
      next tick, what of its correction is still pending, plus the slip; one inside
      the deadband is left alone; a larger one shrinks by the second, once that is
      applied, and is not mistaken for a stalled catch-up. */
  lemma ServoCloses(f: Format, b: Books, s: Servo, rate: nat, now: nat, es: seq<Event>, later: nat, slack: nat)
    requires Safe(f, b) && NoNewCorrection(es) && RawPosition(f, b.o) >= 0
    requires var d := DriftFrames(s.startNs, rate, now, ContentPosition(f, b.o));
             !Stalled(d, s.lastDrift, rate)
    requires var (after, s', c) := Period(f, b, s, rate, now, es);
             RawPosition(f, after.o) >= 0 && Abs(Slip(f, b, after, s.startNs, rate, now, later)) <= slack
    ensures var (after, s', c) := Period(f, b, s, rate, now, es);
            var d := DriftFrames(s.startNs, rate, now, ContentPosition(f, b.o));
            var d' := DriftFrames(s'.startNs, rate, later, ContentPosition(f, after.o));
            var pending := after.o.correction;
            && s'.startNs == s.startNs && s'.lastDrift == d && Toward(c, pending)
            && (Deadband(rate) < Abs(d) <= rate ==> c == d && Abs(d' - pending) <= slack)
            && (Abs(d) <= Deadband(rate) ==> c == 0 == pending && Abs(d' - d) <= slack)
            && (Abs(d) > rate && Abs(d) > Deadband(rate) && pending == 0 ==>
                  && Abs(d') <= Abs(d) - rate + slack
                  && (slack <= rate / 2 ==> !Stalled(d', s'.lastDrift, rate)))
  {
    hide PlaybackRuns.Run, DriftFrames, Slip, RawPosition;
    DriftNext(f, b, s, rate, now, es, later);
    var c := Sync.Tick(s, rate, now, ContentPosition(f, b.o)).1;
    CorrectionConserved(f, PlaybackRuns.Step(f, b, Correct(c)), es);
  }

  /** In particular, at the nominal rate, with a jitter below the deadband and the
      correction applied in between, the drift measured next is within the
      deadband: the servo comes to rest. Half as many packets as frames to correct
      are enough. */
  lemma ServoRests(f: Format, b: Books, s: Servo, rate: nat, now: nat, es: seq<Event>, later: nat, jitter: nat)
    requires Safe(f, b) && NoNewCorrection(es) && RawPosition(f, b.o) >= 0 && s.startNs <= now <= later
    requires var d := DriftFrames(s.startNs, rate, now, ContentPosition(f, b.o));
             Deadband(rate) < Abs(d) <= rate && !Stalled(d, s.lastDrift, rate)
    requires var (after, s', c) := Period(f, b, s, rate, now, es);
             var consumed := FramesPlayed(f, after.o) - FramesPlayed(f, b.o);
             && RawPosition(f, after.o) >= 0 && (after.o.correction == 0 || 2 * BigWrites(f, es) >= Abs(c))
             && -(jitter * NS) <= consumed * NS - (later - now) * rate <= jitter * NS
    requires jitter < Deadband(rate)
    ensures var (after, s', c) := Period(f, b, s, rate, now, es);
            && Abs(DriftFrames(s'.startNs, rate, later, ContentPosition(f, after.o))) <= Deadband(rate)
            && Sync.Tick(s', rate, later, ContentPosition(f, after.o)).1 == 0
  {
    hide PlaybackRuns.Run, DriftFrames, Slip, RawPosition, FramesPlayed;
    var (after, s', c) := Period(f, b, s, rate, now, es);
    NominalSlip(f, b, after, s.startNs, rate, now, later, jitter);
    CorrectionSettles(f, PlaybackRuns.Step(f, b, Correct(c)), es);
    ServoCloses(f, b, s, rate, now, es, later, jitter + 1);
  }
}
