/** Which frames of the stream are played: every frame that reaches the ring is
    traced to the frame received that it is a copy of. */
module PlaybackContent {
  import opened Bytes
  import opened Arithmetic
  import opened Playback
  import opened PlaybackRuns

  /** Frame `j` of a run of whole frames. */
  function FrameAt(s: seq<byte>, frame: nat, j: nat): seq<byte>
    requires (j + 1) * frame <= |s|
  {
    s[j * frame..(j + 1) * frame]
  }

  /** The whole frames received, one payload after the other. */
  function StreamIn(f: Format, es: seq<Event>): seq<byte>
    requires Configured(f)
  {
    if es == [] then []
    else
      var e := es[|es| - 1];
      StreamIn(f, es[..|es| - 1]) + if e.Arrive? then WholeFrames(f, e.bytes) else []
  }

  function WholeFrames(f: Format, bytes: seq<byte>): (r: seq<byte>)
    requires Configured(f)
    ensures |r| == |bytes| / FrameBytes(f) * FrameBytes(f)
  {
    DivFits(|bytes|, FrameBytes(f));
    bytes[..|bytes| / FrameBytes(f) * FrameBytes(f)]
  }

  lemma DivFits(x: nat, m: nat)
    requires m >= 1
    ensures 0 <= x / m * m <= x
  {
  }

  // ----- How much a write corrects -----

  /** Frames skipped (positive) or repeated (negative) by one write. */
  function Applied(f: Format, o: Output, bytes: seq<byte>): int
    requires Configured(f) && |o.ring| <= f.capacity
  {
    o.correction - Write(f, o, bytes).0.correction
  }

  /** More than 1200 frames behind, whole payloads go; otherwise at most two frames
      a write are skipped, never the whole payload, or the first is repeated. */
  lemma CorrectionLaw(f: Format, o: Output, bytes: seq<byte>)
    requires Configured(f) && |o.ring| <= f.capacity
    ensures var n, c := |bytes| / FrameBytes(f), o.correction;
            Applied(f, o, bytes) ==
            if n == 0 || c == 0 then 0
            else if c > 1200 then Min(c, n)
            else if c > 0 then Min(Min(c, 2), n - 1)
            else if c == -1 then -1 else -2
  {
    hide Corrected, FrameBytes;
  }

  // ----- What a write pushes -----

  lemma FrameBounds(j: nat, k: nat, frame: nat)
    requires j < k
    ensures 0 <= j * frame <= (j + 1) * frame <= k * frame
  {
    MulMono(j + 1, k, frame);
    MulMono(0, j, frame);
  }

  lemma {:induction false} RepeatFrame(first: seq<byte>, d: nat, rest: seq<byte>, j: nat, k: nat)
    requires j < d + k && k * |first| <= |rest|
    ensures |Repeat(first, d)| == d * |first| && (j + 1) * |first| <= |Repeat(first, d) + rest|
    ensures j < d ==> FrameAt(Repeat(first, d) + rest, |first|, j) == first
    ensures j >= d ==>
              && (j - d + 1) * |first| <= |rest|
              && FrameAt(Repeat(first, d) + rest, |first|, j) == FrameAt(rest, |first|, j - d)
  {
    hide Repeat;
    var frame, all := |first|, Repeat(first, d) + rest;
    RepeatLen(first, d);
    if j < d {
      FrameBounds(j, d, frame);
      RepeatAt(first, d, j);
      assert FrameAt(all, frame, j) == FrameAt(Repeat(first, d), frame, j);
    } else {
      MulMono(j - d + 1, k, frame);
      FrameBounds(j - d, k, frame);
      assert j * frame == d * frame + (j - d) * frame && (j + 1) * frame == d * frame + (j - d + 1) * frame;
    }
  }

  lemma {:induction false} RepeatAt(first: seq<byte>, d: nat, j: nat)
    requires j < d
    ensures |Repeat(first, d)| == d * |first| && (j + 1) * |first| <= d * |first|
    ensures FrameAt(Repeat(first, d), |first|, j) == first
  {
    RepeatLen(first, d);
    RepeatLen(first, d - 1);
    FrameBounds(j, d, |first|);
    if j < d - 1 {
      RepeatAt(first, d - 1, j);
      FrameBounds(j, d - 1, |first|);
    }
  }

  /** Where frame `j` of what a write pushes comes from: a skip starts later in the
      payload, a repetition shows its first frame again. */
  function Source(a: int, j: nat): nat { if a >= 0 then a + j else if j < -a then 0 else j + a }

  /** One write, frame by frame: what it pushes is a beginning of the corrected
      payload, and all of it unless the ring is full. */
  lemma WriteContent(f: Format, o: Output, bytes: seq<byte>, j: nat)
    requires Configured(f) && |o.ring| <= f.capacity
    requires var p := Write(f, o, bytes).1; (j + 1) * FrameBytes(f) <= |p|
    ensures var frame, a, p := FrameBytes(f), Applied(f, o, bytes), Write(f, o, bytes).1;
            var n := |bytes| / frame;
            && Source(a, j) < n && (Source(a, j) + 1) * frame <= |bytes|
            && FrameAt(p, frame, j) == FrameAt(bytes, frame, Source(a, j))
  {
    hide FrameBytes, Adjustment, Corrected, FrameAt, Write, Source;
    var frame := FrameBytes(f);
    var n, a := |bytes| / frame, Adjustment(o.correction, |bytes| / frame);
    AppliedIs(f, o, bytes);
    AdjustmentFits(o.correction, bytes, frame);
    var edited, p := Corrected(bytes, frame, a), Write(f, o, bytes).1;
    CorrectedFrames(bytes, frame, a);
    PushedIs(f, o, bytes, edited);
    PrefixFrame(p, edited, frame, j);
    InFrames(|edited|, n - a, frame, j);
    DivFits(|bytes|, frame);
    EditedFrame(bytes, frame, a, n, j);
  }

  lemma AppliedIs(f: Format, o: Output, bytes: seq<byte>)
    requires Configured(f) && |o.ring| <= f.capacity
    ensures Applied(f, o, bytes) == Adjustment(o.correction, |bytes| / FrameBytes(f))
  {
    hide FrameBytes, Adjustment, Corrected;
  }

  lemma PrefixFrame(p: seq<byte>, s: seq<byte>, frame: nat, j: nat)
    requires p <= s && (j + 1) * frame <= |p|
    ensures (j + 1) * frame <= |s| && FrameAt(p, frame, j) == FrameAt(s, frame, j)
  {
    FrameBounds(j, j + 1, frame);
  }

  /** The corrected payload, frame by frame. */
  lemma EditedFrame(bytes: seq<byte>, frame: nat, a: int, n: nat, j: nat)
    requires frame >= 1 && n * frame <= |bytes| && j < n - a && a * frame <= |bytes| && (a < 0 ==> |bytes| >= frame && n >= 1)
    requires (j + 1) * frame <= |Corrected(bytes, frame, a)|
    ensures Source(a, j) < n && (Source(a, j) + 1) * frame <= |bytes|
    ensures FrameAt(Corrected(bytes, frame, a), frame, j) == FrameAt(bytes, frame, Source(a, j))
  {
    hide FrameAt;
    if a >= 0 {
      StretchWithin(bytes, frame, a, n, j);
    } else {
      RepeatFrame(bytes[..frame], -a, bytes, j, n);
      MulMono(Source(a, j) + 1, n, frame);
      if j < -a { FirstFrame(bytes, frame); }
    }
  }

  lemma FirstFrame(bytes: seq<byte>, frame: nat)
    requires frame <= |bytes|
    ensures (0 + 1) * frame <= |bytes| && FrameAt(bytes, frame, 0) == bytes[..frame]
  {
  }

  lemma PushedIs(f: Format, o: Output, bytes: seq<byte>, edited: seq<byte>)
    requires Configured(f) && |o.ring| <= f.capacity
    requires var a := Adjustment(o.correction, |bytes| / FrameBytes(f));
             && a * FrameBytes(f) <= |bytes| && (a < 0 ==> |bytes| >= FrameBytes(f))
             && edited == Corrected(bytes, FrameBytes(f), a)
    ensures Write(f, o, bytes).1 <= edited
  {
    hide FrameBytes, Corrected, Adjustment;
    FitsPush(f.capacity - |o.ring|, |edited|, FrameBytes(f));
  }

  lemma InFrames(len: nat, k: int, frame: nat, j: nat)
    requires frame >= 1 && len / frame == k && (j + 1) * frame <= len
    ensures j < k
  {
    if j >= k { MulMono(k + 1, j + 1, frame); }
  }

  lemma StretchWithin(bytes: seq<byte>, frame: nat, a: nat, n: nat, j: nat)
    requires frame >= 1 && n * frame <= |bytes| && a + j < n && a * frame <= |bytes|
    ensures (a + j + 1) * frame <= |bytes| && (j + 1) * frame <= |bytes| - a * frame
    ensures FrameAt(bytes[a * frame..], frame, j) == FrameAt(bytes, frame, a + j)
  {
    MulMono(a + j + 1, n, frame);
    FrameBounds(j, j + 1, frame);
    assert (a + j) * frame == a * frame + j * frame && (a + j + 1) * frame == a * frame + (j + 1) * frame;
  }

  // ----- Runs -----

  /** The stream frames that one write pushes, `start` being the number of the
      payload's first one. */
  function PushedTags(start: nat, a: int, k: nat): (r: seq<nat>)
    ensures |r| == k
  {
    seq(k, j requires 0 <= j => start + Source(a, j))
  }

  /** Those of the write of `bytes` after `b`. */
  ghost function NewTags(f: Format, b: Books, bytes: seq<byte>): (r: seq<nat>)
    requires Safe(f, b)
    ensures |r| == |Write(f, b.o, bytes).1| / FrameBytes(f)
  {
    PushedTags(b.received, Applied(f, b.o, bytes), |Write(f, b.o, bytes).1| / FrameBytes(f))
  }

  /** The numbers of all stream frames pushed over a run, in order. */
  ghost function Tags(f: Format, es: seq<Event>): seq<nat>
    requires Configured(f)
  {
    if es == [] then []
    else
      var front, e := es[..|es| - 1], es[|es| - 1];
      Tags(f, front) + if e.Arrive? then NewTags(f, Run(f, OPENING, front), e.bytes) else []
  }

  /** Frame `j` of `pushed` is a copy of frame `tags[j]` of the stream. */
  ghost predicate Traced(pushed: seq<byte>, stream: seq<byte>, tags: seq<nat>, frame: nat, j: nat)
    requires j < |tags|
  {
    && (j + 1) * frame <= |pushed| && (tags[j] + 1) * frame <= |stream|
    && FrameAt(pushed, frame, j) == FrameAt(stream, frame, tags[j])
  }

  ghost predicate AllTraced(pushed: seq<byte>, stream: seq<byte>, tags: seq<nat>, received: nat, frame: nat) {
    && |pushed| == |tags| * frame && |stream| == received * frame
    && (forall j :: 0 <= j < |tags| ==> tags[j] < received && Traced(pushed, stream, tags, frame, j))
  }

  /** More stream changes nothing before it. */
  lemma TracedLonger(pushed: seq<byte>, stream: seq<byte>, tags: seq<nat>, received: nat, frame: nat,
                     p: seq<byte>, s: seq<byte>, n: nat)
    requires AllTraced(pushed, stream, tags, received, frame) && |s| == n * frame
    ensures forall j :: 0 <= j < |tags| ==> Traced(pushed + p, stream + s, tags, frame, j)
    ensures |stream + s| == (received + n) * frame
  {
    hide FrameAt;
    forall j | 0 <= j < |tags| ensures Traced(pushed + p, stream + s, tags, frame, j) {
      assert Traced(pushed, stream, tags, frame, j);
      PrefixFrame(pushed, pushed + p, frame, j);
      PrefixFrame(stream, stream + s, frame, tags[j]);
    }
    assert (received + n) * frame == received * frame + n * frame;
  }

  lemma SuffixFrame(a: seq<byte>, b: seq<byte>, frame: nat, m: nat, j: nat)
    requires |a| == m * frame && (j + 1) * frame <= |b|
    ensures (m + j + 1) * frame <= |a + b| && FrameAt(a + b, frame, m + j) == FrameAt(b, frame, j)
  {
    FrameBounds(j, j + 1, frame);
    assert (m + j) * frame == m * frame + j * frame && (m + j + 1) * frame == m * frame + (j + 1) * frame;
  }

  lemma {:induction false} WriteTraced(f: Format, b: Books, stream: seq<byte>, tags: seq<nat>, bytes: seq<byte>)
    requires Safe(f, b) && AllTraced(b.pushed, stream, tags, b.received, FrameBytes(f))
    ensures AllTraced(b.pushed + Write(f, b.o, bytes).1, stream + WholeFrames(f, bytes), tags + NewTags(f, b, bytes),
                      b.received + |bytes| / FrameBytes(f), FrameBytes(f))
  {
    hide FrameAt, FrameBytes, Write, NewTags, WholeFrames, AllTraced, Traced;
    var frame, p, s := FrameBytes(f), Write(f, b.o, bytes).1, WholeFrames(f, bytes);
    var n, k, m := |bytes| / frame, |p| / frame, |tags|;
    PushedWhole(f, b.o, bytes);
    TracedSizes(b.pushed, stream, tags, b.received, frame);
    TracedLonger(b.pushed, stream, tags, b.received, frame, p, s, n);
    var all := tags + NewTags(f, b, bytes);
    forall j | 0 <= j < m + k
      ensures all[j] < b.received + n && Traced(b.pushed + p, stream + s, all, frame, j)
    {
      if j < m {
        TracedSame(b.pushed + p, stream + s, tags, all, b.received, frame, j);
      } else {
        NewFrame(f, b, stream, tags, bytes, j - m);
      }
    }
    TracedJoin(b.pushed, p, stream + s, all, b.received + n, frame, m, k);
  }

  lemma TracedSizes(pushed: seq<byte>, stream: seq<byte>, tags: seq<nat>, received: nat, frame: nat)
    requires AllTraced(pushed, stream, tags, received, frame)
    ensures |pushed| == |tags| * frame && |stream| == received * frame
    ensures forall j :: 0 <= j < |tags| ==> tags[j] < received
  {
  }

  lemma TracedSame(pushed: seq<byte>, stream: seq<byte>, tags: seq<nat>, all: seq<nat>, received: nat, frame: nat, j: nat)
    requires j < |tags| && tags <= all && Traced(pushed, stream, tags, frame, j)
    ensures Traced(pushed, stream, all, frame, j)
  {
  }

  lemma TracedJoin(pushed: seq<byte>, p: seq<byte>, stream: seq<byte>, all: seq<nat>, received: nat, frame: nat, m: nat, k: nat)
    requires |pushed| == m * frame && |p| == k * frame && |all| == m + k && |stream| == received * frame
    requires forall j :: 0 <= j < |all| ==> all[j] < received && Traced(pushed + p, stream, all, frame, j)
    ensures AllTraced(pushed + p, stream, all, received, frame)
  {
    hide Traced;
    assert (m + k) * frame == m * frame + k * frame;
  }

  lemma PushedWhole(f: Format, o: Output, bytes: seq<byte>)
    requires Configured(f) && |o.ring| <= f.capacity
    ensures var p := Write(f, o, bytes).1; |p| == |p| / FrameBytes(f) * FrameBytes(f)
  {
    hide FrameBytes, Write, Offered, Overflow;
    WriteShape(f, o, bytes);
    Multiple(Offered(f, o, bytes) - Overflow(f, o, bytes), FrameBytes(f));
  }

  lemma NewFrame(f: Format, b: Books, stream: seq<byte>, tags: seq<nat>, bytes: seq<byte>, j: nat)
    requires Safe(f, b) && |b.pushed| == |tags| * FrameBytes(f) && |stream| == b.received * FrameBytes(f)
    requires j < |Write(f, b.o, bytes).1| / FrameBytes(f)
    ensures var p, all := Write(f, b.o, bytes).1, tags + NewTags(f, b, bytes);
            && all[|tags| + j] < b.received + |bytes| / FrameBytes(f)
            && Traced(b.pushed + p, stream + WholeFrames(f, bytes), all, FrameBytes(f), |tags| + j)
  {
    hide FrameAt, FrameBytes, Write, Applied, Source;
    var frame, p, a := FrameBytes(f), Write(f, b.o, bytes).1, Applied(f, b.o, bytes);
    var n, k, s := |bytes| / frame, |p| / frame, WholeFrames(f, bytes);
    PushedWhole(f, b.o, bytes);
    MulMono(j + 1, k, frame);
    WriteContent(f, b.o, bytes, j);
    var i := Source(a, j);
    MulMono(i + 1, n, frame);
    PrefixFrame(s, bytes, frame, i);
    SuffixFrame(b.pushed, p, frame, |tags|, j);
    SuffixFrame(stream, s, frame, b.received, i);
    assert (tags + NewTags(f, b, bytes))[|tags| + j] == b.received + i;
  }

  /** Over every run of writes, callbacks and corrections, skips, repetitions and
      overflow included: each frame pushed to the ring is the frame of the stream
      that its tag names. */
  lemma {:induction false} StreamContent(f: Format, es: seq<Event>)
    requires Configured(f)
    ensures AllTraced(Run(f, OPENING, es).pushed, StreamIn(f, es), Tags(f, es), Run(f, OPENING, es).received, FrameBytes(f))
  {
    hide Write, AllTraced, FrameBytes, Applied, Callback, Overflow;
    if es == [] {
      NothingTraced(FrameBytes(f));
    } else {
      var front, e := es[..|es| - 1], es[|es| - 1];
      StreamContent(f, front);
      var b := Run(f, OPENING, front);
      if e.Arrive? {
        WriteTraced(f, b, StreamIn(f, front), Tags(f, front), e.bytes);
      } else {
        assert StreamIn(f, front) + [] == StreamIn(f, front) && Tags(f, front) + [] == Tags(f, front);
      }
    }
  }

  lemma NothingTraced(frame: nat)
    ensures AllTraced([], [], [], 0, frame)
  {
  }

  /** So what waits at the head of the ring is the stream frame whose tag comes
      after those of the frames played. */
  lemma RingHead(f: Format, es: seq<Event>, i: nat)
    requires Configured(f)
    requires var b := Run(f, OPENING, es); (i + 1) * FrameBytes(f) <= |b.o.ring|
    ensures var b, tags, stream := Run(f, OPENING, es), Tags(f, es), StreamIn(f, es);
            var played := b.o.samplesPlayed / f.channels;
            && played + i < |tags| && (tags[played + i] + 1) * FrameBytes(f) <= |stream|
            && FrameAt(b.o.ring, FrameBytes(f), i) == FrameAt(stream, FrameBytes(f), tags[played + i])
  {
    hide FrameAt, Run, Tags, StreamIn, FrameBytes;
    var b, frame, tags := Run(f, OPENING, es), FrameBytes(f), Tags(f, es);
    Conservation(f, es);
    StreamContent(f, es);
    HeardFrames(f, es);
    var played := b.o.samplesPlayed / f.channels;
    SuffixFrame(b.heard, b.o.ring, frame, played, i);
    InTags(played + i, |tags|, frame);
    assert Traced(b.pushed, StreamIn(f, es), tags, frame, played + i);
  }

  lemma InTags(j: nat, k: nat, frame: nat)
    requires frame >= 1 && (j + 1) * frame <= k * frame
    ensures j < k
  {
    if j >= k { MulMono(k + 1, j + 1, frame); }
  }

  /** Samples played count the frames heard. */
  lemma {:induction false} HeardFrames(f: Format, es: seq<Event>)
    requires Configured(f)
    ensures var b := Run(f, OPENING, es);
            |b.heard| == b.o.samplesPlayed / f.channels * FrameBytes(f)
  {
    hide Write, Callback, FrameBytes;
    if es != [] {
      var front, e := es[..|es| - 1], es[|es| - 1];
      HeardFrames(f, front);
      Conservation(f, front);
      var b := Run(f, OPENING, front);
      match e
      case Arrive(bytes) => WriteShape(f, b.o, bytes);
      case Ask(k, active) => AskHears(f, b, k, active);
      case Correct(_) =>
    }
  }

  lemma AskHears(f: Format, b: Books, k: nat, active: bool)
    requires Balanced(f, b) && |b.heard| == b.o.samplesPlayed / f.channels * FrameBytes(f)
    ensures var (o, h) := Callback(f, b.o, k * f.channels, active);
            |b.heard + h| == o.samplesPlayed / f.channels * FrameBytes(f)
  {
    if active {
      hide FrameBytes;
      var frame, r, p := FrameBytes(f), |b.o.ring| / FrameBytes(f), b.o.samplesPlayed / f.channels;
      Quotient(|b.o.ring|, frame);
      Quotient(b.o.samplesPlayed, f.channels);
      AskShape(f, r, k);
      var m := Min(k, r);
      var o := Callback(f, b.o, k * f.channels, active).0;
      assert o.samplesPlayed == (p + m) * f.channels;
      Multiple(p + m, f.channels);
      assert (p + m) * frame == p * frame + m * frame;
    }
  }

  /** In every run, a callback that asks for k frames takes as many from the head of
      the ring, or all there are; a stopped or muted one takes none. */
  lemma {:induction false} HearsExactly(f: Format, es: seq<Event>, k: nat, active: bool)
    requires Configured(f)
    ensures var b, b' := Run(f, OPENING, es), Run(f, OPENING, es + [Ask(k, active)]);
            var m := if active then Min(k, |b.o.ring| / FrameBytes(f)) else 0;
            && 0 <= m * FrameBytes(f) <= |b.o.ring|
            && b'.heard == b.heard + b.o.ring[..m * FrameBytes(f)] && b'.o.ring == b.o.ring[m * FrameBytes(f)..]
            && b'.o.samplesPlayed == b.o.samplesPlayed + m * f.channels
  {
    hide FrameBytes, Write;
    var b, frame := Run(f, OPENING, es), FrameBytes(f);
    assert (es + [Ask(k, active)])[..|es|] == es;
    Conservation(f, es);
    Quotient(|b.o.ring|, frame);
    AskShape(f, |b.o.ring| / frame, k);
    MulMono(Min(k, |b.o.ring| / frame), |b.o.ring| / frame, frame);
    assert b.o.ring[..0] == [] && b.o.ring[0..] == b.o.ring && b.heard + [] == b.heard;
  }

  // ----- The content position -----

  /** Corrections only ever skip. */
  ghost predicate SkipsOnly(es: seq<Event>) { forall k :: 0 <= k < |es| && es[k].Correct? ==> es[k].skip >= 0 }

  ghost predicate Increasing(s: seq<nat>) { forall i, j :: 0 <= i < j < |s| ==> s[i] < s[j] }

  lemma {:induction false} SkipsIncrease(f: Format, es: seq<Event>)
    requires Configured(f) && SkipsOnly(es)
    ensures Run(f, OPENING, es).o.correction >= 0 && Increasing(Tags(f, es))
  {
    hide Write, FrameBytes, Callback, Applied;
    if es != [] {
      var front, e := es[..|es| - 1], es[|es| - 1];
      SkipsIncrease(f, front);
      var b := Run(f, OPENING, front);
      match e {
        case Arrive(bytes) =>
          WriteToward(f, b.o, bytes);
          AppliedSign(f, b.o, bytes);
          StreamContent(f, front);
          IncreasingJoin(Tags(f, front), NewTags(f, b, bytes), b.received);
        case Ask(k, active) => AskKeeps(f, b.o, k * f.channels, active);
        case Correct(_) =>
      }
    }
  }

  lemma AppliedSign(f: Format, o: Output, bytes: seq<byte>)
    requires Configured(f) && |o.ring| <= f.capacity && o.correction >= 0
    ensures Applied(f, o, bytes) >= 0
  {
    hide FrameBytes, Write;
    WriteToward(f, o, bytes);
  }

  lemma IncreasingJoin(a: seq<nat>, b: seq<nat>, m: nat)
    requires Increasing(a) && (forall i :: 0 <= i < |a| ==> a[i] < m)
    requires forall j :: 0 <= j < |b| ==> b[j] >= m && (j > 0 ==> b[j] == b[j - 1] + 1)
    ensures Increasing(a + b)
  {
    forall i, j | 0 <= i < j < |b| ensures b[i] < b[j] { Consecutive(b, i, j); }
  }

  lemma {:induction false} Consecutive(b: seq<nat>, i: nat, j: nat)
    requires i <= j < |b| && forall k :: 0 < k < |b| ==> b[k] == b[k - 1] + 1
    ensures b[j] == b[i] + (j - i)
  {
    if i < j { Consecutive(b, i, j - 1); }
  }

  /** An increasing list climbs by at least one a step. */
  lemma {:induction false} Climbs(s: seq<nat>, p: nat, q: nat)
    requires Increasing(s) && p <= q < |s|
    ensures s[q] - s[p] >= q - p
  {
    if p < q {
      Climbs(s, p, q - 1);
      assert s[q - 1] < s[q];
    }
  }

  /** The ring holds the latest frames of the stream, none missing. */
  ghost predicate Unbroken(tags: seq<nat>, p: nat, received: nat)
    requires p < |tags|
  {
    (forall j :: p <= j < |tags| ==> tags[j] == tags[p] + (j - p)) && tags[|tags| - 1] + 1 == received
  }

  /** With skips alone and no overflow, the content position is never behind the
      frame at the head of the ring, and is that frame if and only if none of the
      frames received after it was skipped: a skip counts when it is written,
      though it is heard only when the ring gets there. */
  lemma HeadIsPosition(f: Format, es: seq<Event>)
    requires Configured(f) && SkipsOnly(es)
    requires var b := Run(f, OPENING, es); b.overflowed == 0 && FrameBytes(f) <= |b.o.ring|
    ensures var b, tags := Run(f, OPENING, es), Tags(f, es);
            var played := b.o.samplesPlayed / f.channels;
            && played < |tags| && tags[played] <= ContentPosition(f, b.o)
            && (tags[played] == ContentPosition(f, b.o) <==> Unbroken(tags, played, b.received))
  {
    hide Run, Tags, FrameBytes, StreamIn, Increasing;
    var b, tags, frame := Run(f, OPENING, es), Tags(f, es), FrameBytes(f);
    var p := b.o.samplesPlayed / f.channels;
    SkipsIncrease(f, es);
    Conservation(f, es);
    StreamContent(f, es);
    HeardFrames(f, es);
    RingHead(f, es, 0);
    var r := |b.o.ring| / frame;
    RingTags(b, tags, p, r, frame);
    AheadOrAt(tags, p, r, b.received);
  }

  lemma RingTags(b: Books, tags: seq<nat>, p: nat, r: nat, frame: nat)
    requires frame >= 1 && |b.heard| == p * frame && b.heard + b.o.ring == b.pushed && |b.pushed| == |tags| * frame
    requires |b.o.ring| % frame == 0 && r == |b.o.ring| / frame
    ensures |tags| == p + r
  {
    Quotient(|b.o.ring|, frame);
    assert (p + r) * frame == |tags| * frame;
    if p + r < |tags| { MulMono(p + r + 1, |tags|, frame); }
    if p + r > |tags| { MulMono(|tags| + 1, p + r, frame); }
  }

  lemma AheadOrAt(tags: seq<nat>, p: nat, r: nat, received: nat)
    requires Increasing(tags) && p < |tags| == p + r && forall j :: 0 <= j < |tags| ==> tags[j] < received
    ensures tags[p] <= received - r
    ensures tags[p] == received - r <==> Unbroken(tags, p, received)
  {
    var q := |tags| - 1;
    Climbs(tags, p, q);
    if tags[p] == received - r {
      forall j | p <= j < |tags| ensures tags[j] == tags[p] + (j - p) {
        Climbs(tags, p, j);
        Climbs(tags, j, q);
      }
    }
  }

  /** The position can run ahead of the head: three frames queued, one frame to
      skip, three more received. The first frame is still at the head. */
  lemma PositionRunsAhead()
    ensures var f := Format(1, 1, 100);
            var es := [Arrive([10, 20, 30]), Correct(1), Arrive([40, 50, 60])];
            var b := Run(f, OPENING, es);
            b.o.ring == [10, 20, 30, 50, 60] && ContentPosition(f, b.o) == 1
  {
    hide Write, Callback;
    var f := Format(1, 1, 100);
    var first: seq<byte>, second: seq<byte> := [10, 20, 30], [40, 50, 60];
    var es := [Arrive(first), Correct(1), Arrive(second)];
    assert es[..3] == es && es[..2][..1] == es[..1] && es[..1][..0] == [] && es[..3][..2] == es[..2];
    BytewiseWrite(IDLE, first, 0);
    assert IDLE.ring + first[0..] == first;
    var b1 := Run(f, OPENING, es[..1]);
    assert Run(f, OPENING, []) == OPENING;
    assert b1 == Step(f, OPENING, es[0]);
    assert b1.o == Output(first, 0, 0, 0);
    var b2 := Run(f, OPENING, es[..2]);
    assert b2.o == Output(first, 1, 0, 0);
    BytewiseWrite(b2.o, second, 1);
    assert second[1..] == [50, 60];
  }

  lemma BytewiseWrite(o: Output, bytes: seq<byte>, a: nat)
    requires |o.ring| + |bytes| <= 100 && o.correction == a < |bytes| && a <= 1
    ensures var f := Format(1, 1, 100);
            FrameBytes(f) == 1 &&
            Write(f, o, bytes) == (Output(o.ring + bytes[a..], 0, o.netAdjust + a, o.samplesPlayed), bytes[a..])
  {
    var f := Format(1, 1, 100);
    assert Adjustment(o.correction, |bytes|) == a;
    assert Corrected(bytes, 1, a) == bytes[a..];
    assert bytes[a..][..|bytes| - a] == bytes[a..];
  }
}
