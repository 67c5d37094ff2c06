/** The output ring: writes with drift correction, the audio callback, and the
    conservation of frames across every interleaving of the two. */
module Playback {
  import opened Bytes
  import opened Arithmetic

  const MAX_CORRECTION_FRAMES_PER_WRITE: int := 2
  const JUMP_THRESHOLD_FRAMES: int := 1200

  /** A configured stream: channels, bytes per sample and ring capacity. */
  datatype Format = Format(channels: nat, bps: nat, capacity: nat)

  ghost predicate Configured(f: Format) { f.channels >= 1 && f.bps >= 1 }

  function FrameBytes(f: Format): (n: nat)
    ensures f.channels >= 1 && f.bps >= 1 ==> n >= 1
  {
    f.channels * f.bps
  }

  datatype Output = Output(ring: seq<byte>, correction: int, netAdjust: int, samplesPlayed: nat)

  const IDLE := Output([], 0, 0, 0)

  function Repeat(s: seq<byte>, n: nat): seq<byte> {
    if n == 0 then [] else Repeat(s, n - 1) + s
  }

  /** Frames dropped (positive) or duplicated (negative) by one write. */
  function Adjustment(pending: int, framesIn: nat): int {
    if pending > JUMP_THRESHOLD_FRAMES && framesIn > 0 then Min(pending, framesIn)
    else if pending > 0 && framesIn > 1 then Min(Min(pending, MAX_CORRECTION_FRAMES_PER_WRITE), framesIn - 1)
    else if pending < 0 && framesIn >= 1 then -Min(-pending, MAX_CORRECTION_FRAMES_PER_WRITE)
    else 0
  }

  /** The payload after correction: leading frames gone, or the first one repeated. */
  function Corrected(bytes: seq<byte>, frame: nat, adjust: int): seq<byte>
    requires frame >= 1 && adjust * frame <= |bytes| && (adjust < 0 ==> |bytes| >= frame)
  {
    if adjust >= 0 then bytes[adjust * frame..] else Repeat(bytes[..frame], -adjust) + bytes
  }

  lemma AdjustmentFits(pending: int, bytes: seq<byte>, frame: nat)
    requires frame >= 1
    ensures var a := Adjustment(pending, |bytes| / frame);
            a <= |bytes| / frame && a * frame <= |bytes| && (a < 0 ==> |bytes| >= frame)
  {
    var n := |bytes| / frame;
    var a := Adjustment(pending, n);
    assert n * frame <= |bytes|;
    if a >= 0 { MulMono(a, n, frame); } else { MulMono(a, 0, frame); }
    if a < 0 { MulMono(1, n, frame); }
  }

  /** One write: the new state, and the bytes that reached the ring. A payload
      whose frames are all dropped leaves nothing, not even a partial frame. */
  function Write(f: Format, o: Output, bytes: seq<byte>): (Output, seq<byte>)
    requires Configured(f) && |o.ring| <= f.capacity
  {
    var frame := FrameBytes(f);
    var framesIn := |bytes| / frame;
    var a := Adjustment(o.correction, framesIn);
    AdjustmentFits(o.correction, bytes, frame);
    var adjusted := o.(correction := o.correction - a, netAdjust := o.netAdjust + a);
    if a > 0 && a == framesIn then (adjusted, [])
    else
      var edited := Corrected(bytes, frame, a);
      var frames := Min((f.capacity - |o.ring|) / frame, |edited| / frame);
      FitsPush(f.capacity - |o.ring|, |edited|, frame);
      (adjusted.(ring := o.ring + edited[..frames * frame]), edited[..frames * frame])
  }

  lemma FitsPush(room: nat, len: nat, frame: nat)
    requires frame >= 1
    ensures var n := Min(room / frame, len / frame); 0 <= n * frame <= len && n * frame <= room
  {
    var n := Min(room / frame, len / frame);
    MulMono(n, room / frame, frame);
    MulMono(n, len / frame, frame);
    MulMono(0, n, frame);
  }

  /** The audio callback asking for `want` samples; silent while stopped or muted. */
  function Callback(f: Format, o: Output, want: nat, active: bool): (Output, seq<byte>)
    requires Configured(f)
  {
    if !active then (o, [])
    else
      var got := Min(want * f.bps, |o.ring|);
      (o.(ring := o.ring[got..], samplesPlayed := o.samplesPlayed + got / f.bps), o.ring[..got])
  }

  class CpalOutput {
    const format: Format
    var ring: seq<byte>
    var correction: int
    var netAdjust: int
    var samplesPlayed: nat

    ghost predicate Valid()
      reads this
    {
      Configured(format) && |ring| <= format.capacity
    }

    function State(): Output
      reads this
    {
      Output(ring, correction, netAdjust, samplesPlayed)
    }

    constructor Configure(f: Format)
      requires Configured(f)
      ensures Valid() && format == f && State() == IDLE
    {
      format := f;
      ring, correction, netAdjust, samplesPlayed := [], 0, 0, 0;
    }

    method WriteAudio(data: seq<byte>) returns (frames: nat)
      requires Valid()
      modifies this
      ensures Valid()
      ensures State() == Write(format, old(State()), data).0
      ensures frames * FrameBytes(format) == |Write(format, old(State()), data).1|
    {
      hide Corrected, Adjustment, FrameBytes;
      var frame := FrameBytes(format);
      AdjustmentFits(correction, data, frame);
      var bytes, gone := ApplyCorrection(data, frame);
      if gone { return 0; }
      var available := format.capacity - |ring|;
      frames := Min(available / frame, |bytes| / frame);
      FitsPush(available, |bytes|, frame);
      ring := ring + bytes[..frames * frame];
    }

    /** Applies what the pending correction allows on this payload; `gone` when
        a jump swallows all of it. */
    method ApplyCorrection(data: seq<byte>, frame: nat) returns (bytes: seq<byte>, gone: bool)
      requires frame >= 1
      requires var a := Adjustment(correction, |data| / frame);
               a * frame <= |data| && (a < 0 ==> |data| >= frame)
      modifies this`correction, this`netAdjust
      ensures var a := Adjustment(old(correction), |data| / frame);
              && correction == old(correction) - a && netAdjust == old(netAdjust) + a
              && gone == (a > 0 && a == |data| / frame)
              && (!gone ==> bytes == Corrected(data, frame, a))
    {
      bytes, gone := data, false;
      var pending := correction;
      var framesIn := |bytes| / frame;
      if pending > JUMP_THRESHOLD_FRAMES && framesIn > 0 {
        var dropFrames := Min(pending, framesIn);
        correction := correction - dropFrames;
        netAdjust := netAdjust + dropFrames;
        if dropFrames == framesIn {
          gone := true;
          return;
        }
        bytes := bytes[dropFrames * frame..];
      } else if pending > 0 && framesIn > 1 {
        var dropFrames := Min(Min(pending, MAX_CORRECTION_FRAMES_PER_WRITE), framesIn - 1);
        if dropFrames > 0 {
          bytes := bytes[dropFrames * frame..];
          correction := correction - dropFrames;
          netAdjust := netAdjust + dropFrames;
        }
      } else if pending < 0 && |bytes| >= frame {
        assert framesIn >= 1;
        var dup := Min(-pending, MAX_CORRECTION_FRAMES_PER_WRITE);
        bytes := Duplicate(data, frame, dup);
        correction := correction + dup;
        netAdjust := netAdjust - dup;
      }
    }

    static method Duplicate(data: seq<byte>, frame: nat, dup: nat) returns (bytes: seq<byte>)
      requires frame <= |data|
      ensures bytes == Repeat(data[..frame], dup) + data
    {
      var duplicated: seq<byte> := [];
      for i := 0 to dup
        invariant duplicated == Repeat(data[..frame], i)
      {
        duplicated := duplicated + data[..frame];
      }
      bytes := duplicated + data;
    }

    method OnCallback(want: nat, active: bool) returns (heard: seq<byte>)
      requires Valid()
      modifies this
      ensures Valid() && (State(), heard) == Callback(format, old(State()), want, active)
    {
      if !active { return []; }
      var got := Min(want * format.bps, |ring|);
      heard := ring[..got];
      ring := ring[got..];
      samplesPlayed := samplesPlayed + got / format.bps;
    }

    method SetCorrection(frames: int)
      modifies this
      ensures State() == old(State()).(correction := frames)
    {
      correction := frames;
    }
  }
}
