/** Conservation of frames over every interleaving of writes, callbacks and
    corrections. */
module PlaybackRuns {
  import opened Bytes
  import opened Arithmetic
  import opened Playback

  /** Callbacks ask for whole frames. */
  datatype Event = Arrive(bytes: seq<byte>) | Ask(frames: nat, active: bool) | Correct(skip: int)

  /** The output with the running totals a listener at each end could keep. */
  datatype Books = Books(o: Output, received: nat, overflowed: nat, pushed: seq<byte>, heard: seq<byte>)

  const OPENING := Books(IDLE, 0, 0, [], [])

  /** Frames a write offers to the ring, and those that do not fit. */
  function Offered(f: Format, o: Output, bytes: seq<byte>): int
    requires Configured(f)
  {
    var n := |bytes| / FrameBytes(f);
    n - Adjustment(o.correction, n)
  }

  function Overflow(f: Format, o: Output, bytes: seq<byte>): (r: nat)
    requires Configured(f) && |o.ring| <= f.capacity
  {
    var vacant := (f.capacity - |o.ring|) / FrameBytes(f);
    var offered := Offered(f, o, bytes);
    if offered > vacant then offered - vacant else 0
  }

  function Step(f: Format, b: Books, e: Event): Books
    requires Configured(f) && |b.o.ring| <= f.capacity
  {
    match e
    case Arrive(bytes) =>
      var (o, p) := Write(f, b.o, bytes);
      b.(o := o, received := b.received + |bytes| / FrameBytes(f),
         overflowed := b.overflowed + Overflow(f, b.o, bytes), pushed := b.pushed + p)
    case Ask(frames, active) =>
      var (o, h) := Callback(f, b.o, frames * f.channels, active);
      b.(o := o, heard := b.heard + h)
    case Correct(skip) =>
      b.(o := b.o.(correction := skip))
  }

  /** Whole frames only in the ring and out of it; every frame received is
      played, skipped, still queued or overflowed; nothing is reordered. */
  ghost predicate Balanced(f: Format, b: Books) {
    var frame := FrameBytes(f);
    && Configured(f)
    && |b.o.ring| <= f.capacity
    && |b.o.ring| % frame == 0
    && b.o.samplesPlayed % f.channels == 0
    && b.o.samplesPlayed / f.channels + b.o.netAdjust + |b.o.ring| / frame == b.received - b.overflowed
    && b.heard + b.o.ring == b.pushed
  }

  // ----- Arithmetic of whole frames -----

  lemma Multiple(k: nat, m: nat)
    requires m >= 1
    ensures (k * m) % m == 0 && (k * m) / m == k
  {
    DivUnique(k * m, k, 0, m);
    assert k * m == ((k * m) / m) * m + (k * m) % m;
  }

  lemma Quotient(x: nat, m: nat)
    requires m >= 1 && x % m == 0
    ensures x == (x / m) * m
  {
  }

  lemma ShiftDiv(x: nat, a: int, m: nat)
    requires m >= 1 && a * m <= x
    ensures (x - a * m) / m == x / m - a
  {
    var q, r := x / m, x % m;
    assert x - a * m == (q - a) * m + r;
    DivUnique(x - a * m, q - a, r, m);
  }

  lemma {:induction false} RepeatLen(s: seq<byte>, n: nat)
    ensures |Repeat(s, n)| == n * |s|
  {
    if n > 0 { RepeatLen(s, n - 1); }
  }

  /** After correction a payload holds exactly the offered frames. */
  lemma CorrectedFrames(bytes: seq<byte>, frame: nat, a: int)
    requires frame >= 1 && a * frame <= |bytes| && (a < 0 ==> |bytes| >= frame)
    ensures |Corrected(bytes, frame, a)| / frame == |bytes| / frame - a
  {
    ShiftDiv(|bytes|, a, frame);
    if a < 0 {
      RepeatLen(bytes[..frame], -a);
      assert |Corrected(bytes, frame, a)| == |bytes| - a * frame;
    }
  }

  // ----- One step -----

  lemma WriteShape(f: Format, o: Output, bytes: seq<byte>)
    requires Configured(f) && |o.ring| <= f.capacity
    ensures var (o', p) := Write(f, o, bytes);
            var k := Offered(f, o, bytes) - Overflow(f, o, bytes);
            && k >= 0 && |p| == k * FrameBytes(f) && o'.ring == o.ring + p && |o'.ring| <= f.capacity
            && o'.samplesPlayed == o.samplesPlayed
  {
    hide Corrected, Adjustment, FrameBytes;
    var frame := FrameBytes(f);
    var n := |bytes| / frame;
    var a := Adjustment(o.correction, n);
    AdjustmentFits(o.correction, bytes, frame);
    CorrectedFrames(bytes, frame, a);
    FitsPush(f.capacity - |o.ring|, |Corrected(bytes, frame, a)|, frame);
    assert o.ring + [] == o.ring;
  }

  lemma WriteBalanced(f: Format, b: Books, bytes: seq<byte>)
    requires Balanced(f, b)
    ensures Balanced(f, Step(f, b, Arrive(bytes)))
  {
    hide Write, Offered, Overflow, FrameBytes;
    var frame := FrameBytes(f);
    var n := |bytes| / frame;
    WriteShape(f, b.o, bytes);
    WriteAdjusts(f, b.o, bytes);
    var (o, p) := Write(f, b.o, bytes);
    var k := Offered(f, b.o, bytes) - Overflow(f, b.o, bytes);
    var r := |b.o.ring| / frame;
    Quotient(|b.o.ring|, frame);
    assert |o.ring| == (r + k) * frame;
    Multiple(r + k, frame);
    assert b.heard + (b.o.ring + p) == (b.heard + b.o.ring) + p;
  }

  lemma WriteAdjusts(f: Format, o: Output, bytes: seq<byte>)
    requires Configured(f) && |o.ring| <= f.capacity
    ensures var o' := Write(f, o, bytes).0;
            var n := |bytes| / FrameBytes(f);
            && o'.netAdjust - o.netAdjust == n - Offered(f, o, bytes)
            && o'.correction + o'.netAdjust == o.correction + o.netAdjust
  {
    hide Corrected, FrameBytes;
  }

  lemma AskShape(f: Format, r: nat, k: nat)
    requires Configured(f)
    ensures var m := Min(k, r);
            && Min(k * f.channels * f.bps, r * FrameBytes(f)) == m * FrameBytes(f)
            && (m * FrameBytes(f)) / f.bps == m * f.channels
  {
    var frame := FrameBytes(f);
    var m := Min(k, r);
    assert k * f.channels * f.bps == k * frame;
    if k <= r { MulMono(k, r, frame); } else { MulMono(r, k, frame); }
    assert m * frame == (m * f.channels) * f.bps;
    Multiple(m * f.channels, f.bps);
  }

  lemma AskBalanced(f: Format, b: Books, k: nat, active: bool)
    requires Balanced(f, b)
    ensures Balanced(f, Step(f, b, Ask(k, active)))
  {
    if active {
      hide FrameBytes;
      var frame, r, p := FrameBytes(f), |b.o.ring| / FrameBytes(f), b.o.samplesPlayed / f.channels;
      Quotient(|b.o.ring|, frame);
      Quotient(b.o.samplesPlayed, f.channels);
      AskShape(f, r, k);
      var m := Min(k, r);
      var got := m * frame;
      var b' := Step(f, b, Ask(k, active));
      MulMono(m, r, frame);
      assert |b'.o.ring| == (r - m) * frame;
      Multiple(r - m, frame);
      assert b'.o.samplesPlayed == (p + m) * f.channels;
      Multiple(p + m, f.channels);
      assert (b.heard + b.o.ring[..got]) + b.o.ring[got..] == b.heard + b.o.ring;
    } else {
      assert b.heard + [] == b.heard;
    }
  }

  lemma StepBalanced(f: Format, b: Books, e: Event)
    requires Balanced(f, b)
    ensures Balanced(f, Step(f, b, e))
  {
    hide Write, Callback;
    match e
    case Arrive(bytes) => WriteBalanced(f, b, bytes);
    case Ask(k, active) => AskBalanced(f, b, k, active);
    case Correct(_) =>
  }

  // ----- Runs -----

  ghost predicate Safe(f: Format, b: Books) { Configured(f) && |b.o.ring| <= f.capacity }

  ghost function Run(f: Format, b: Books, es: seq<Event>): (r: Books)
    requires Safe(f, b)
    ensures Safe(f, r)
  {
    if es == [] then b
    else
      var mid, e := Run(f, b, es[..|es| - 1]), es[|es| - 1];
      StepSafe(f, mid, e);
      Step(f, mid, e)
  }

  lemma StepSafe(f: Format, b: Books, e: Event)
    requires Safe(f, b)
    ensures Safe(f, Step(f, b, e))
  {
    hide Write;
    if e.Arrive? { WriteShape(f, b.o, e.bytes); }
  }

  /** From a fresh configuration the books balance after any run: frames consumed,
      plus net frames skipped, plus frames queued, equal frames received less
      those that overflowed, and what is heard then queued is what was pushed. */
  lemma {:induction false} Conservation(f: Format, es: seq<Event>)
    requires Configured(f)
    ensures Balanced(f, Run(f, OPENING, es))
  {
    hide Step;
    if es != [] {
      Conservation(f, es[..|es| - 1]);
      StepBalanced(f, Run(f, OPENING, es[..|es| - 1]), es[|es| - 1]);
    }
  }

  /** Playback position on the stream timeline. */
  function ContentPosition(f: Format, o: Output): nat
    requires Configured(f)
  {
    var p := o.samplesPlayed / f.channels + o.netAdjust;
    if p < 0 then 0 else p
  }

  /** The content position the servo reads is the stream position of the ring
      head: frames received and kept, less those still queued. */
  lemma PositionOfRingHead(f: Format, es: seq<Event>)
    requires Configured(f)
    ensures var b := Run(f, OPENING, es);
            var head := b.received - b.overflowed - |b.o.ring| / FrameBytes(f);
            ContentPosition(f, b.o) == if head < 0 then 0 else head
  {
    Conservation(f, es);
  }

  /** All bytes received, in order. */
  function BytesIn(es: seq<Event>): seq<byte> {
    if es == [] then []
    else BytesIn(es[..|es| - 1]) + if es[|es| - 1].Arrive? then es[|es| - 1].bytes else []
  }

  /** Bit-perfect: without corrections or overflow, what is heard, then what is
      queued, is byte for byte what was received. */
  lemma {:induction false} BitPerfect(f: Format, es: seq<Event>)
    requires Configured(f)
    requires forall k :: 0 <= k < |es| ==>
               !es[k].Correct? && (es[k].Arrive? ==> |es[k].bytes| % FrameBytes(f) == 0)
    requires Run(f, OPENING, es).overflowed == 0
    ensures var b := Run(f, OPENING, es);
            b.heard + b.o.ring == BytesIn(es) && b.o.correction == 0
  {
    hide Write, Callback, FrameBytes;
    if es != [] {
      var front, e := es[..|es| - 1], es[|es| - 1];
      BitPerfect(f, front);
      var b := Run(f, OPENING, front);
      if e.Arrive? {
        WriteAll(f, b.o, e.bytes);
      } else {
        AskKeeps(f, b.o, e.frames * f.channels, e.active);
      }
      Conservation(f, front);
      Conservation(f, es);
    }
  }

  lemma WriteAll(f: Format, o: Output, bytes: seq<byte>)
    requires Configured(f) && |o.ring| <= f.capacity && o.correction == 0
    requires |bytes| % FrameBytes(f) == 0 && Overflow(f, o, bytes) == 0
    ensures Write(f, o, bytes).1 == bytes && Write(f, o, bytes).0.correction == 0
  {
    hide FrameBytes;
    WriteShape(f, o, bytes);
    Quotient(|bytes|, FrameBytes(f));
  }

  // ----- Corrections -----

  ghost predicate NoNewCorrection(es: seq<Event>) {
    forall k :: 0 <= k < |es| ==> !es[k].Correct?
  }

  /** A correction only moves toward zero and never past it. */
  ghost predicate Toward(c: int, c': int) {
    (c >= 0 ==> 0 <= c' <= c) && (c <= 0 ==> c <= c' <= 0)
  }

  lemma WriteToward(f: Format, o: Output, bytes: seq<byte>)
    requires Configured(f) && |o.ring| <= f.capacity
    ensures Toward(o.correction, Write(f, o, bytes).0.correction)
    ensures |bytes| / FrameBytes(f) >= 3 ==>
              var c, c' := o.correction, Write(f, o, bytes).0.correction;
              if c >= 0 then c' <= (if c >= 2 then c - 2 else 0) else c' >= (if c <= -2 then c + 2 else 0)
  {
    hide Corrected, FrameBytes;
  }

  /** Between two `set_correction` calls, pending correction plus net frames
      skipped is constant: the servo sees exactly what it asked for. */
  lemma {:induction false} CorrectionConserved(f: Format, b: Books, es: seq<Event>)
    requires Safe(f, b) && NoNewCorrection(es)
    ensures var r := Run(f, b, es).o;
            && r.correction + r.netAdjust == b.o.correction + b.o.netAdjust
            && Toward(b.o.correction, r.correction)
  {
    hide Write, Callback;
    if es != [] {
      var front, e := es[..|es| - 1], es[|es| - 1];
      CorrectionConserved(f, b, front);
      var mid := Run(f, b, front).o;
      match e
      case Arrive(bytes) =>
        WriteAdjusts(f, mid, bytes);
        WriteToward(f, mid, bytes);
      case Ask(k, active) =>
        AskKeeps(f, mid, k * f.channels, active);
    }
  }

  lemma AskKeeps(f: Format, o: Output, want: nat, active: bool)
    requires Configured(f)
    ensures var o' := Callback(f, o, want, active).0; o'.correction == o.correction && o'.netAdjust == o.netAdjust
  {
  }

  /** Number of writes of at least three frames in a run. */
  ghost function BigWrites(f: Format, es: seq<Event>): nat
    requires Configured(f)
  {
    if es == [] then 0
    else
      var e := es[|es| - 1];
      BigWrites(f, es[..|es| - 1]) + if e.Arrive? && |e.bytes| / FrameBytes(f) >= 3 then 1 else 0
  }

  /** A queued correction is fully applied once half as many packets as frames
      asked for have been written, whatever else happens in between. */
  lemma {:induction false} CorrectionSettles(f: Format, b: Books, es: seq<Event>)
    requires Safe(f, b) && NoNewCorrection(es)
    ensures var left := Abs(b.o.correction) - 2 * BigWrites(f, es);
            Abs(Run(f, b, es).o.correction) <= if left > 0 then left else 0
  {
    hide Write, Callback, FrameBytes;
    if es != [] {
      var front, e := es[..|es| - 1], es[|es| - 1];
      CorrectionSettles(f, b, front);
      var mid := Run(f, b, front).o;
      match e
      case Arrive(bytes) =>
        WriteToward(f, mid, bytes);
      case Ask(k, active) =>
        AskKeeps(f, mid, k * f.channels, active);
    }
  }
}
