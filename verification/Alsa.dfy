/** The ALSA writer: device slot, in-place underrun recovery, backoff. Times are
    milliseconds; the device is a script of replies, one per write call. */
module AlsaWriter {
  import opened Bytes
  import opened Arithmetic

  const BACKOFF_MIN: nat := 250
  const BACKOFF_MAX: nat := 8000
  const STABLE_RUN: nat := 5000
  const MAX_RECOVERIES: nat := 3

  datatype Reply = Wrote(frames: nat) | Xrun | Suspended | Fatal

  /** The n-th write call: its reply, whether `recover` works after an underrun
      or a suspend, and the time at which a failure would be recorded. */
  datatype Call = Call(reply: Reply, recovers: bool, at: nat)

  type Script = nat -> Call

  // ----- One payload -----

  datatype Ending = Done | Refused | Failed(at: nat)

  /** Frames accepted, calls made, underruns counted, and how it ended. */
  datatype Outcome = Outcome(frames: nat, calls: nat, underruns: nat, ending: Ending)

  /** Writing `n` frames, `off` of them accepted so far. A device never takes
      more frames than it is given. */
  function WriteFrames(n: nat, off: nat, recoveries: nat, calls: nat, underruns: nat, active: bool, dev: Script): Outcome
    requires off <= n && recoveries <= MAX_RECOVERIES
    decreases n - off, MAX_RECOVERIES - recoveries
  {
    if off == n then Outcome(off, calls, underruns, Done)
    else
      var c := dev(calls);
      match c.reply
      case Wrote(k) =>
        if k == 0 then Outcome(off, calls + 1, underruns, Refused)
        else WriteFrames(n, off + Min(k, n - off), recoveries, calls + 1, underruns, active, dev)
      case Fatal => Outcome(off, calls + 1, underruns, Failed(c.at))
      case _ =>
        if recoveries == MAX_RECOVERIES then Outcome(off, calls + 1, underruns, Failed(c.at))
        else
          var u := underruns + if c.reply.Xrun? && active then 1 else 0;
          if !c.recovers then Outcome(off, calls + 1, u, Failed(c.at))
          else WriteFrames(n, off, recoveries + 1, calls + 1, u, active, dev)
  }

  /** For every device: everything is accepted unless it failed or refused, and
      the number of calls is bounded by the frames plus the recoveries. */
  lemma {:induction false} WriteFramesEnds(n: nat, off: nat, recoveries: nat, calls: nat, underruns: nat, active: bool, dev: Script)
    requires off <= n && recoveries <= MAX_RECOVERIES
    ensures var r := WriteFrames(n, off, recoveries, calls, underruns, active, dev);
            && off <= r.frames <= n
            && (r.ending.Done? <==> r.frames == n)
            && r.calls - calls <= (n - off) + (MAX_RECOVERIES - recoveries) + 1
            && r.underruns - underruns <= (MAX_RECOVERIES - recoveries)
            && (r.ending.Failed? ==> r.calls > calls && r.ending.at == dev(r.calls - 1).at)
    decreases n - off, MAX_RECOVERIES - recoveries
  {
    if off < n {
      var c := dev(calls);
      match c.reply {
        case Wrote(k) =>
          if k > 0 {
            WriteFramesEnds(n, off + Min(k, n - off), recoveries, calls + 1, underruns, active, dev);
          }
        case Fatal =>
        case _ =>
          if recoveries < MAX_RECOVERIES && c.recovers {
            var u := underruns + if c.reply.Xrun? && active then 1 else 0;
            WriteFramesEnds(n, off, recoveries + 1, calls + 1, u, active, dev);
          }
      }
    }
  }

  // ----- How a payload ends, told by the device's replies alone -----

  predicate Interrupts(c: Call) { c.reply.Xrun? || c.reply.Suspended? }

  /** The device took something, or was interrupted and recovered. */
  predicate GoesOn(c: Call) { if c.reply.Wrote? then c.reply.frames > 0 else Interrupts(c) && c.recovers }

  /** Frames the device offered to take in calls `lo` to `hi`. */
  function Offered(dev: Script, lo: nat, hi: nat): nat
    decreases hi - lo
  {
    if lo >= hi then 0 else (if dev(lo).reply.Wrote? then dev(lo).reply.frames else 0) + Offered(dev, lo + 1, hi)
  }

  function Interruptions(dev: Script, lo: nat, hi: nat): nat
    decreases hi - lo
  {
    if lo >= hi then 0 else (if Interrupts(dev(lo)) then 1 else 0) + Interruptions(dev, lo + 1, hi)
  }

  function Xruns(dev: Script, lo: nat, hi: nat): nat
    decreases hi - lo
  {
    if lo >= hi then 0 else (if dev(lo).reply.Xrun? then 1 else 0) + Xruns(dev, lo + 1, hi)
  }

  /** Every call of calls `lo` to `hi` but the last went on. */
  ghost predicate WentOn(dev: Script, lo: nat, hi: nat) { forall i :: lo <= i < hi - 1 ==> GoesOn(dev(i)) }

  /** The last call ends the payload: the device takes none, breaks, fails to
      recover, or is interrupted once more after `before` interruptions. */
  ghost predicate EndsAs(e: Ending, last: Call, before: nat) {
    && (e.Refused? <==> last.reply == Wrote(0))
    && (e.Failed? <==> last.reply.Fatal? || (Interrupts(last) && (!last.recovers || before == 3)))
    && (e.Failed? ==> e.at == last.at)
  }

  /** The outcome of a payload from some point on, told by the replies. */
  ghost predicate ToldByReplies(r: Outcome, n: nat, off: nat, recoveries: nat, calls: nat, underruns: nat, active: bool, dev: Script) {
    && r.calls >= calls && WentOn(dev, calls, r.calls)
    && r.frames == Min(n, off + Offered(dev, calls, r.calls))
    && (r.calls == calls ==> off == n && r.ending.Done? && r.underruns == underruns)
    && (r.calls > calls ==>
          var before := recoveries + Interruptions(dev, calls, r.calls - 1);
          && before <= 3 && off + Offered(dev, calls, r.calls - 1) < n
          && EndsAs(r.ending, dev(r.calls - 1), before)
          && r.underruns == underruns +
               if !active then 0 else Xruns(dev, calls, if before == 3 then r.calls - 1 else r.calls))
  }

  /** A call that goes on, in front of the rest. */
  lemma CallTold(r: Outcome, n: nat, off: nat, recoveries: nat, calls: nat, underruns: nat, active: bool, dev: Script)
    requires off < n && recoveries <= 3 && GoesOn(dev(calls)) && (Interrupts(dev(calls)) ==> recoveries < 3)
    requires ToldByReplies(r, n, Min(n, off + if dev(calls).reply.Wrote? then dev(calls).reply.frames else 0),
                           recoveries + (if Interrupts(dev(calls)) then 1 else 0), calls + 1,
                           underruns + (if dev(calls).reply.Xrun? && active then 1 else 0), active, dev)
    ensures ToldByReplies(r, n, off, recoveries, calls, underruns, active, dev)
  {
    hide Interrupts, GoesOn, EndsAs;
    GoesOnMeans(dev(calls), recoveries);
    if r.calls == calls + 1 {
      assert Offered(dev, calls + 1, calls + 1) == 0 && Xruns(dev, calls + 1, calls + 1) == 0;
    }
  }

  /** What goes on ends nothing. */
  lemma GoesOnMeans(c: Call, before: nat)
    requires GoesOn(c) && (Interrupts(c) ==> before < 3)
    ensures EndsAs(Done, c, before) && (c.reply.Xrun? ==> Interrupts(c))
  {
  }

  lemma {:induction false} EndsFrom(n: nat, off: nat, recoveries: nat, calls: nat, underruns: nat, active: bool, dev: Script)
    requires off <= n && recoveries <= MAX_RECOVERIES
    ensures ToldByReplies(WriteFrames(n, off, recoveries, calls, underruns, active, dev),
                          n, off, recoveries, calls, underruns, active, dev)
    decreases n - off, MAX_RECOVERIES - recoveries
  {
    if off < n {
      var c := dev(calls);
      if GoesOn(c) && (Interrupts(c) ==> recoveries < MAX_RECOVERIES) {
        hide ToldByReplies;
        var off' := Min(n, off + if c.reply.Wrote? then c.reply.frames else 0);
        var u := underruns + if c.reply.Xrun? && active then 1 else 0;
        var more := if Interrupts(c) then 1 else 0;
        EndsFrom(n, off', recoveries + more, calls + 1, u, active, dev);
        CallTold(WriteFrames(n, off, recoveries, calls, underruns, active, dev), n, off, recoveries, calls, underruns, active, dev);
      } else {
        LastTold(n, off, recoveries, calls, underruns, active, dev);
      }
    }
  }

  /** A call that ends the payload. */
  lemma LastTold(n: nat, off: nat, recoveries: nat, calls: nat, underruns: nat, active: bool, dev: Script)
    requires off < n && recoveries <= MAX_RECOVERIES
    requires !(GoesOn(dev(calls)) && (Interrupts(dev(calls)) ==> recoveries < MAX_RECOVERIES))
    ensures ToldByReplies(WriteFrames(n, off, recoveries, calls, underruns, active, dev),
                          n, off, recoveries, calls, underruns, active, dev)
  {
    assert Xruns(dev, calls, calls + 1) == if dev(calls).reply.Xrun? then 1 else 0;
    assert Offered(dev, calls, calls + 1) == 0;
  }

  /** How a payload of `n` frames ends, for every device. Every call but the last
      makes progress or recovers, and falls short of `n`. It fails exactly if the
      last reply is fatal, its recovery fails, or it is the fourth interruption;
      it is given up without failing exactly if the device takes none. Underruns
      are counted up to the third interruption, while playing. */
  lemma PayloadEnds(n: nat, active: bool, dev: Script)
    requires n > 0
    ensures var r := WriteFrames(n, 0, 0, 0, 0, active, dev);
            && r.calls > 0 && WentOn(dev, 0, r.calls)
            && r.frames == Min(n, Offered(dev, 0, r.calls))
            && Offered(dev, 0, r.calls - 1) < n
            && var before := Interruptions(dev, 0, r.calls - 1);
               && before <= 3 && EndsAs(r.ending, dev(r.calls - 1), before)
               && r.underruns == if !active then 0 else Xruns(dev, 0, if before == 3 then r.calls - 1 else r.calls)
  {
    EndsFrom(n, 0, 0, 0, 0, active, dev);
  }

  // ----- The device slot -----

  /** `open` is "a device is held"; `flag` is what the rest of the endpoint sees. */
  datatype Slot = Slot(open: bool, flag: bool, openedAt: Option<nat>, retryAt: Option<nat>, backoff: nat)

  const CLOSED := Slot(false, false, None, None, 0)

  predicate RanStably(s: Slot, now: nat) { s.openedAt.Some? && now - s.openedAt.value >= STABLE_RUN }

  function NextBackoff(backoff: nat, stable: bool): nat {
    if stable || backoff == 0 then BACKOFF_MIN else Min(2 * backoff, BACKOFF_MAX)
  }

  function ScheduleRetry(s: Slot, now: nat): Slot {
    var b := NextBackoff(s.backoff, RanStably(s, now));
    s.(backoff := b, openedAt := None, retryAt := Some(now + b))
  }

  function Opened(s: Slot, now: nat): Slot {
    s.(open := true, flag := true, openedAt := Some(now), retryAt := None)
  }

  function Fail(s: Slot, now: nat): Slot { ScheduleRetry(s.(open := false, flag := false), now) }

  function Close(s: Slot): Slot {
    s.(open := false, flag := if s.open then false else s.flag, openedAt := None)
  }

  /** Opens the device if it is closed and no backoff is pending. */
  function EnsureOpen(s: Slot, now: nat, opens: bool): Slot {
    if s.open || (s.retryAt.Some? && now < s.retryAt.value) then s
    else if opens then Opened(s, now)
    else ScheduleRetry(s, now)
  }

  class DeviceSlot {
    const frame: nat
    var open: bool
    var flag: bool
    var openedAt: Option<nat>
    var retryAt: Option<nat>
    var backoff: nat
    var underruns: nat

    function State(): Slot
      reads this
    {
      Slot(open, flag, openedAt, retryAt, backoff)
    }

    constructor (frameBytes: nat)
      requires frameBytes >= 1
      ensures State() == CLOSED && frame == frameBytes && underruns == 0
    {
      frame := frameBytes;
      open, flag, openedAt, retryAt, backoff, underruns := false, false, None, None, 0, 0;
    }

    method TryOpen(now: nat, opens: bool) returns (isOpen: bool)
      modifies this
      ensures State() == EnsureOpen(old(State()), now, opens) && isOpen == open && underruns == old(underruns)
    {
      if open { return true; }
      if retryAt.Some? && now < retryAt.value { return false; }
      if opens {
        open, openedAt, retryAt, flag := true, Some(now), None, true;
        return true;
      }
      Schedule(now);
      isOpen := false;
    }

    method Schedule(now: nat)
      modifies this
      ensures State() == ScheduleRetry(old(State()), now) && underruns == old(underruns)
    {
      var stable := openedAt.Some? && now - openedAt.value >= STABLE_RUN;
      backoff := if stable || backoff == 0 then BACKOFF_MIN else Min(backoff * 2, BACKOFF_MAX);
      openedAt := None;
      retryAt := Some(now + backoff);
    }

    method Lose(now: nat)
      modifies this
      ensures State() == Fail(old(State()), now) && underruns == old(underruns)
    {
      open, flag := false, false;
      Schedule(now);
    }

    method Shut()
      modifies this
      ensures State() == Close(old(State())) && underruns == old(underruns)
    {
      if open {
        open, flag := false, false;
      }
      openedAt := None;
    }

    /** Writes one payload. `accepted` is what the device took, in order. */
    method WriteAll(payload: seq<byte>, active: bool, dev: Script) returns (accepted: seq<byte>)
      requires frame >= 1 && open
      modifies this
      ensures var r := WriteFrames(|payload| / frame, 0, 0, 0, 0, active, dev);
              && 0 <= r.frames * frame <= |payload|
              && accepted == payload[..r.frames * frame]
              && State() == (if r.ending.Failed? then Fail(old(State()), r.ending.at) else old(State()))
              && underruns == old(underruns) + r.underruns
    {
      WholeFrames(|payload|, frame);
      var data := payload[..|payload| - |payload| % frame];
      var counted, lostAt;
      accepted, counted, lostAt := PushFrames(data, |payload| / frame, frame, active, dev);
      underruns := underruns + counted;
      if lostAt.Some? {
        Lose(lostAt.value);
      }
    }
  }

  /** The write loop: partial writes go on where they stopped, underruns and
      suspends are recovered in place, at most three per payload. */
  method PushFrames(data: seq<byte>, n: nat, frame: nat, active: bool, dev: Script)
      returns (accepted: seq<byte>, underruns: nat, lostAt: Option<nat>)
    requires frame >= 1 && |data| == Span(n, frame)
    ensures var r := WriteFrames(n, 0, 0, 0, 0, active, dev);
            && 0 <= r.frames * frame <= |data| && accepted == data[..r.frames * frame]
            && underruns == r.underruns
            && lostAt == if r.ending.Failed? then Some(r.ending.at) else None
  {
    hide Span;
    ghost var goal := WriteFrames(n, 0, 0, 0, 0, active, dev);
    WriteFramesEnds(n, 0, 0, 0, 0, active, dev);
    SpanMono(goal.frames, n, frame);
    var off, recoveries, calls := 0, 0, 0;
    ghost var done := 0;
    accepted, underruns, lostAt := [], 0, None;
    SpanMono(0, n, frame);
    while off < |data|
      invariant done <= n && off == Span(done, frame) && recoveries <= MAX_RECOVERIES && off <= |data|
      invariant accepted == data[..off]
      invariant goal == WriteFrames(n, done, recoveries, calls, underruns, active, dev)
      decreases n - done, MAX_RECOVERIES - recoveries
    {
      Behind(n, done, frame);
      var c := dev(calls);
      calls := calls + 1;
      if c.reply.Wrote? {
        if c.reply.frames == 0 { return; }
        var taken := Min(c.reply.frames, (|data| - off) / frame);
        Advance(n, done, frame, c.reply.frames);
        var upto := off + taken * frame;
        Extend(data, off, upto);
        accepted := accepted + data[off..upto];
        off := upto;
        done := done + taken;
      } else {
        if c.reply.Fatal? || recoveries == MAX_RECOVERIES {
          return accepted, underruns, Some(c.at);
        }
        recoveries := recoveries + 1;
        if c.reply.Xrun? && active {
          underruns := underruns + 1;
        }
        if !c.recovers {
          return accepted, underruns, Some(c.at);
        }
      }
    }
    if done < n { SpanStrict(done, n, frame); }
  }

  /** Bytes of `n` frames. */
  function Span(n: nat, frame: nat): nat { n * frame }

  lemma SpanMono(a: nat, b: nat, frame: nat)
    requires a <= b
    ensures 0 <= Span(a, frame) <= Span(b, frame) && Span(a, frame) == a * frame && Span(0, frame) == 0
  {
    MulMono(a, b, frame);
  }

  lemma SpanStrict(a: nat, b: nat, frame: nat)
    requires a < b && frame >= 1
    ensures Span(a, frame) < Span(b, frame)
  {
    MulMono(a + 1, b, frame);
  }

  lemma Extend(data: seq<byte>, off: nat, upto: nat)
    requires off <= upto <= |data|
    ensures data[..off] + data[off..upto] == data[..upto]
  {
  }

  lemma Behind(n: nat, done: nat, frame: nat)
    requires frame >= 1 && Span(done, frame) < Span(n, frame)
    ensures done < n
  {
    if done >= n { MulMono(n, done, frame); }
  }

  /** What a partial write adds, in frames and in bytes. */
  lemma Advance(n: nat, done: nat, frame: nat, k: nat)
    requires frame >= 1 && done < n && k >= 1
    ensures Span(done, frame) <= Span(n, frame)
    ensures var t := Min(k, (Span(n, frame) - Span(done, frame)) / frame);
            && t == Min(k, n - done)
            && Span(done, frame) <= Span(done, frame) + t * frame == Span(done + t, frame) <= Span(n, frame)
  {
    MulMono(done, n, frame);
    RemainingFrames(n, done, frame);
    var t := Min(k, n - done);
    MulMono(done + t, n, frame);
  }

  lemma WholeFrames(len: nat, frame: nat)
    requires frame >= 1
    ensures len - len % frame == len / frame * frame
  {
  }

  lemma RemainingFrames(n: nat, done: nat, frame: nat)
    requires frame >= 1 && done <= n
    ensures (n * frame - done * frame) / frame == n - done
  {
    var q := n - done;
    assert n * frame - done * frame == q * frame;
    var x := (q * frame) / frame;
    assert q * frame == x * frame + (q * frame) % frame;
    if x < q { MulMono(x + 1, q, frame); } else if x > q { MulMono(q + 1, x, frame); }
  }
}
