/** The writer loop over every run of payloads and idle timeouts. */
module AlsaRuns {
  import opened Bytes
  import opened Arithmetic
  import opened AlsaWriter

  /** A payload taken from the queue at time `at`, with what the device would do;
      or no payload for the idle period. */
  datatype Event = Payload(at: nat, opens: bool, data: seq<byte>, active: bool, dev: Script) | IdleTimeout

  datatype Failure = Failure(at: nat, stable: bool, backoff: nat)

  datatype Log = Log(slot: Slot, failures: seq<Failure>, clock: nat)

  function Waiting(s: Slot, now: nat): bool { !s.open && s.retryAt.Some? && now < s.retryAt.value }

  function Step(l: Log, e: Event, frame: nat): Log
    requires frame >= 1
  {
    match e
    case IdleTimeout => if l.slot.open then l.(slot := Close(l.slot)) else l
    case Payload(at, opens, data, active, dev) =>
      var s := EnsureOpen(l.slot, at, opens);
      if !s.open then
        Log(s, l.failures + if Waiting(l.slot, at) then [] else [Failure(at, RanStably(l.slot, at), s.backoff)], at)
      else
        var end := WriteFrames(|data| / frame, 0, 0, 0, 0, active, dev).ending;
        if end.Failed? then
          var lost := Fail(s, end.at);
          Log(lost, l.failures + [Failure(end.at, RanStably(s, end.at), lost.backoff)], end.at)
        else Log(s, l.failures, at)
  }

  function Run(t0: nat, es: seq<Event>, frame: nat): Log
    requires frame >= 1
  {
    if es == [] then Log(Opened(CLOSED, t0), [], t0)
    else Step(Run(t0, es[..|es| - 1], frame), es[|es| - 1], frame)
  }

  /** The part of a payload the device takes. */
  function Taken(data: seq<byte>, frame: nat, active: bool, dev: Script): (r: seq<byte>)
    requires frame >= 1
    ensures r <= data
    ensures |r| == WriteFrames(|data| / frame, 0, 0, 0, 0, active, dev).frames * frame
  {
    var n := |data| / frame;
    WriteFramesEnds(n, 0, 0, 0, 0, active, dev);
    WholeFrames(|data|, frame);
    MulMono(WriteFrames(n, 0, 0, 0, 0, active, dev).frames, n, frame);
    data[..WriteFrames(n, 0, 0, 0, 0, active, dev).frames * frame]
  }

  /** It is a whole-frame prefix, and all the whole frames exactly when the
      device neither failed nor refused. */
  lemma TakenWhole(data: seq<byte>, frame: nat, active: bool, dev: Script)
    requires frame >= 1
    ensures |Taken(data, frame, active, dev)| == |data| - |data| % frame <==>
            WriteFrames(|data| / frame, 0, 0, 0, 0, active, dev).ending.Done?
  {
    hide WriteFrames;
    var n := |data| / frame;
    var r := WriteFrames(n, 0, 0, 0, 0, active, dev);
    WriteFramesEnds(n, 0, 0, 0, 0, active, dev);
    WholeFrames(|data|, frame);
    if r.frames < n { MulMono(r.frames + 1, n, frame); }
  }

  /** What reaches the device over a run, payload by payload. */
  function Written(t0: nat, es: seq<Event>, frame: nat): seq<seq<byte>>
    requires frame >= 1
  {
    if es == [] then []
    else
      var front, e := es[..|es| - 1], es[|es| - 1];
      Written(t0, front, frame) +
      if e.Payload? && EnsureOpen(Run(t0, front, frame).slot, e.at, e.opens).open
      then [Taken(e.data, frame, e.active, e.dev)] else []
  }

  /** The writer thread: open, then serve the queue until it closes, then close. */
  method WriterLoop(t0: nat, es: seq<Event>, frame: nat) returns (slot: DeviceSlot, written: seq<seq<byte>>)
    requires frame >= 1
    ensures slot.State() == Close(Run(t0, es, frame).slot)
    ensures written == Written(t0, es, frame)
  {
    slot := new DeviceSlot(frame);
    var first := slot.TryOpen(t0, true);
    written := [];
    for k := 0 to |es|
      invariant fresh(slot) && slot.frame == frame
      invariant slot.State() == Run(t0, es[..k], frame).slot && written == Written(t0, es[..k], frame)
    {
      hide WriteFrames;
      assert es[..k + 1][..k] == es[..k];
      match es[k] {
        case IdleTimeout =>
          if slot.open {
            slot.Shut();
          }
        case Payload(at, opens, data, active, dev) =>
          var isOpen := slot.TryOpen(at, opens);
          if isOpen {
            var accepted := slot.WriteAll(data, active, dev);
            assert accepted == Taken(data, frame, active, dev);
            written := written + [accepted];
          }
      }
    }
    assert es[..|es|] == es;
    slot.Shut();
  }

  /** Time goes forward: a payload is served after everything before it, and a
      device reports a failure no earlier than it was called. */
  ghost predicate Ordered(t0: nat, es: seq<Event>, frame: nat)
    requires frame >= 1
  {
    es == [] ||
    (var front, e := es[..|es| - 1], es[|es| - 1];
     && Ordered(t0, front, frame)
     && (e.Payload? ==>
           && e.at >= Run(t0, front, frame).clock
           && forall i: nat :: e.dev(i).at >= e.at))
  }

  function Last(fs: seq<Failure>): Failure
    requires fs != []
  {
    fs[|fs| - 1]
  }

  /** What the loop keeps: the visible flag is true exactly while a device is
      held; a pending retry is the last failure plus its backoff; with none
      pending, that time has passed. */
  ghost predicate Inv(l: Log) {
    var s := l.slot;
    && s.flag == s.open
    && (s.open ==> s.retryAt.None? && s.openedAt.Some? && s.openedAt.value <= l.clock)
    && (!s.open ==> s.openedAt.None?)
    && s.backoff == (if l.failures == [] then 0 else Last(l.failures).backoff)
    && (l.failures == [] ==> s.retryAt.None?)
    && (l.failures != [] ==>
          var due := Last(l.failures).at + Last(l.failures).backoff;
          if s.retryAt.Some? then s.retryAt.value == due else l.clock >= due)
  }

  lemma {:induction false} RunInv(t0: nat, es: seq<Event>, frame: nat)
    requires frame >= 1 && Ordered(t0, es, frame)
    ensures Inv(Run(t0, es, frame))
  {
    hide WriteFrames;
    if es != [] {
      var front, e := es[..|es| - 1], es[|es| - 1];
      RunInv(t0, front, frame);
      if e.Payload? {
        FailureTime(e, frame);
      }
    }
  }

  lemma FailureTime(e: Event, frame: nat)
    requires frame >= 1 && e.Payload? && forall i: nat :: e.dev(i).at >= e.at
    ensures var end := WriteFrames(|e.data| / frame, 0, 0, 0, 0, e.active, e.dev).ending;
            end.Failed? ==> end.at >= e.at
  {
    WriteFramesEnds(|e.data| / frame, 0, 0, 0, 0, e.active, e.dev);
  }

  /** In every run, the flag the endpoint reports is "a device is held". */
  lemma FlagIsTruth(t0: nat, es: seq<Event>, frame: nat)
    requires frame >= 1 && Ordered(t0, es, frame)
    ensures Run(t0, es, frame).slot.flag == Run(t0, es, frame).slot.open
  {
    RunInv(t0, es, frame);
  }

  /** Each backoff follows from the one before and the run that just ended. */
  ghost predicate Chained(fs: seq<Failure>, i: nat)
    requires i < |fs|
  {
    fs[i].backoff == NextBackoff(if i == 0 then 0 else fs[i - 1].backoff, fs[i].stable)
  }

  /** Consecutive failures are at least the earlier one's backoff apart. */
  ghost predicate Spaced(fs: seq<Failure>, i: nat)
    requires 0 < i < |fs|
  {
    fs[i].at >= fs[i - 1].at + fs[i - 1].backoff
  }

  lemma {:induction false} FailuresChainedAndSpaced(t0: nat, es: seq<Event>, frame: nat)
    requires frame >= 1 && Ordered(t0, es, frame)
    ensures var fs := Run(t0, es, frame).failures;
            && (forall i :: 0 <= i < |fs| ==> Chained(fs, i))
            && (forall i :: 0 < i < |fs| ==> Spaced(fs, i))
  {
    hide WriteFrames;
    if es != [] {
      var front, e := es[..|es| - 1], es[|es| - 1];
      FailuresChainedAndSpaced(t0, front, frame);
      RunInv(t0, front, frame);
      var l, l' := Run(t0, front, frame), Run(t0, es, frame);
      var fs, fs' := l.failures, l'.failures;
      if e.Payload? { FailureTime(e, frame); }
      forall i | 0 <= i < |fs'| ensures Chained(fs', i) {
        if i < |fs| { assert Chained(fs, i); }
      }
      forall i | 0 < i < |fs'| ensures Spaced(fs', i) {
        if i < |fs| { assert Spaced(fs, i); }
      }
    }
  }

  /** k failures with no stable run in between double the delay from 250 ms up to 8 s. */
  lemma {:induction false} BackoffLaw(fs: seq<Failure>, i: nat, j: nat)
    requires i <= j < |fs| && forall k :: 0 <= k < |fs| ==> Chained(fs, k)
    requires i == 0 || fs[i].stable
    requires forall k :: i < k <= j ==> !fs[k].stable
    ensures fs[j].backoff == Min(250 * Pow2(j - i), 8000)
    decreases j - i
  {
    assert Chained(fs, j);
    if i < j {
      BackoffLaw(fs, i, j - 1);
      assert Pow2(j - i) == 2 * Pow2(j - 1 - i);
      Pow2Positive(j - 1 - i);
    }
  }

  /** The same for the failures of any run. */
  lemma RunBackoff(t0: nat, es: seq<Event>, frame: nat, i: nat, j: nat)
    requires frame >= 1 && Ordered(t0, es, frame)
    requires var fs := Run(t0, es, frame).failures;
             && i <= j < |fs| && (i == 0 || fs[i].stable)
             && forall k :: i < k <= j ==> !fs[k].stable
    ensures Run(t0, es, frame).failures[j].backoff == Min(250 * Pow2(j - i), 8000)
  {
    hide Run;
    FailuresChainedAndSpaced(t0, es, frame);
    BackoffLaw(Run(t0, es, frame).failures, i, j);
  }

  /** Every backoff of a run is at least the first one. */
  lemma {:induction false} BackoffAtLeast(fs: seq<Failure>, j: nat)
    requires j < |fs| && forall k :: 0 <= k < |fs| ==> Chained(fs, k)
    ensures fs[j].backoff >= 250
  {
    assert Chained(fs, j);
    if j > 0 { BackoffAtLeast(fs, j - 1); }
  }

  // ----- What the writer does, told by what happened before -----

  /** Whether the device may be opened at `now`: no failure, or its delay is over. */
  predicate Ready(l: Log, now: nat) { l.failures == [] || now >= Last(l.failures).at + Last(l.failures).backoff }

  /** One more event, exactly. A payload is served if and only if the device is
      held, or may be opened and opens; a failure to open or to write, and nothing
      else, is recorded; the device is held afterwards if and only if the payload
      was served and did not fail. */
  lemma {:induction false} ServesExactly(t0: nat, es: seq<Event>, frame: nat, e: Event)
    requires frame >= 1 && Ordered(t0, es + [e], frame)
    ensures var l, l' := Run(t0, es, frame), Run(t0, es + [e], frame);
            var before, after := Written(t0, es, frame), Written(t0, es + [e], frame);
            match e
            case IdleTimeout => !l'.slot.open && l'.failures == l.failures && after == before
            case Payload(at, opens, data, active, dev) =>
              var served := l.slot.open || (Ready(l, at) && opens);
              var end := WriteFrames(|data| / frame, 0, 0, 0, 0, active, dev).ending;
              && after == (if served then before + [Taken(data, frame, active, dev)] else before)
              && (l'.slot.open <==> served && !end.Failed?)
              && (l'.failures == l.failures <==> if served then !end.Failed? else !Ready(l, at))
              && (l'.failures != l.failures ==>
                    && |l'.failures| == |l.failures| + 1 && l.failures <= l'.failures
                    && Last(l'.failures).at == if served then end.at else at)
  {
    hide WriteFrames, Taken;
    assert (es + [e])[..|es|] == es;
    RunInv(t0, es, frame);
    var before := Written(t0, es, frame);
    assert before + [] == before;
  }

  /** The device has been held since `t`: it was opened then, by the writer when
      it started or by a payload, and no event since has closed it. */
  ghost predicate HeldSince(t0: nat, es: seq<Event>, frame: nat, t: nat)
    requires frame >= 1
  {
    exists k :: 0 <= k <= |es| && HeldFrom(t0, es, frame, t, k)
  }

  ghost predicate HeldFrom(t0: nat, es: seq<Event>, frame: nat, t: nat, k: nat)
    requires frame >= 1 && k <= |es|
  {
    && (if k == 0 then t == t0
        else es[k - 1].Payload? && es[k - 1].at == t && !Run(t0, es[..k - 1], frame).slot.open)
    && forall j :: k <= j <= |es| ==> Run(t0, es[..j], frame).slot.open
  }

  lemma {:induction false} HeldIsOpened(t0: nat, es: seq<Event>, frame: nat)
    requires frame >= 1 && Run(t0, es, frame).slot.open
    ensures Run(t0, es, frame).slot.openedAt.Some?
    ensures HeldSince(t0, es, frame, Run(t0, es, frame).slot.openedAt.value)
    decreases |es|
  {
    hide WriteFrames, HeldFrom;
    var k := |es|;
    if es == [] {
      HeldAtStart(t0, frame);
    } else {
      var front, t := es[..k - 1], Run(t0, es, frame).slot.openedAt;
      if Run(t0, front, frame).slot.open {
        HeldIsOpened(t0, front, frame);
        var i :| 0 <= i <= |front| && HeldFrom(t0, front, frame, t.value, i);
        HeldOn(t0, es, frame, t.value, i);
      } else {
        HeldNew(t0, es, frame);
      }
    }
  }

  lemma HeldAtStart(t0: nat, frame: nat)
    requires frame >= 1
    ensures HeldFrom(t0, [], frame, t0, 0)
  {
    var none: seq<Event> := [];
    assert none[..0] == [];
  }

  lemma HeldNew(t0: nat, es: seq<Event>, frame: nat)
    requires frame >= 1 && es != [] && es[|es| - 1].Payload? && Run(t0, es, frame).slot.open
    requires !Run(t0, es[..|es| - 1], frame).slot.open
    ensures HeldFrom(t0, es, frame, es[|es| - 1].at, |es|)
  {
    hide Run;
    assert es[..|es|] == es;
  }

  lemma HeldOn(t0: nat, es: seq<Event>, frame: nat, t: nat, k: nat)
    requires frame >= 1 && es != [] && k < |es| && Run(t0, es, frame).slot.open
    requires HeldFrom(t0, es[..|es| - 1], frame, t, k)
    ensures HeldFrom(t0, es, frame, t, k)
  {
    hide Run;
    var front := es[..|es| - 1];
    assert es[..|es|] == es;
    assert forall j :: 0 <= j <= |front| ==> front[..j] == es[..j];
  }

  /** There is one such time. */
  lemma HeldOnce(t0: nat, es: seq<Event>, frame: nat, t: nat, u: nat)
    requires frame >= 1 && HeldSince(t0, es, frame, t) && HeldSince(t0, es, frame, u)
    ensures t == u
  {
    hide Run;
    var k :| 0 <= k <= |es| && HeldFrom(t0, es, frame, t, k);
    var i :| 0 <= i <= |es| && HeldFrom(t0, es, frame, u, i);
  }

  /** For every failure a payload adds to a run with earlier ones: the backoff
      restarts if and only if the device was held when it failed, and had been for
      5 s without a break. */
  lemma {:induction false} StableRunRestarts(t0: nat, es: seq<Event>, frame: nat, e: Event)
    requires frame >= 1 && Ordered(t0, es + [e], frame) && e.Payload?
    requires Run(t0, es, frame).failures != []
    requires |Run(t0, es + [e], frame).failures| > |Run(t0, es, frame).failures|
    ensures var s := EnsureOpen(Run(t0, es, frame).slot, e.at, e.opens);
            var last := Last(Run(t0, es + [e], frame).failures);
            last.backoff == 250 <==>
            s.open && s.openedAt.Some? && last.at - s.openedAt.value >= 5000
    ensures var l := Run(t0, es, frame);
            var last := Last(Run(t0, es + [e], frame).failures);
            && (l.slot.open ==> exists t: nat :: HeldSince(t0, es, frame, t))
            && forall t: nat :: (if l.slot.open then HeldSince(t0, es, frame, t) else t == e.at) ==>
                 last.backoff == if last.at - t >= 5000 then 250 else Min(2 * Last(l.failures).backoff, 8000)
  {
    hide HeldSince;
    hide WriteFrames;
    assert (es + [e])[..|es|] == es;
    RunInv(t0, es, frame);
    FailureTime(e, frame);
    FailuresChainedAndSpaced(t0, es, frame);
    BackoffAtLeast(Run(t0, es, frame).failures, |Run(t0, es, frame).failures| - 1);
    if Run(t0, es, frame).slot.open {
      HeldIsOpened(t0, es, frame);
      var since := Run(t0, es, frame).slot.openedAt.value;
      forall t: nat | HeldSince(t0, es, frame, t) ensures t == since { HeldOnce(t0, es, frame, t, since); }
    }
  }

  /** An idle close forgets the run: when the device held at the end of `es` is
      closed for idling and cannot be reopened, the old delay doubles, however
      long the device had played. */
  lemma {:induction false} IdleCloseForgets(t0: nat, es: seq<Event>, frame: nat, e: Event)
    requires frame >= 1 && Ordered(t0, es, frame)
    requires Run(t0, es, frame).slot.open && Run(t0, es, frame).failures != []
    requires e.Payload? && !e.opens
    ensures var fs := Run(t0, es, frame).failures;
            var delay := Min(2 * Last(fs).backoff, 8000);
            && Run(t0, es + [IdleTimeout, e], frame).failures == fs + [Failure(e.at, false, delay)]
            && delay > 250
  {
    hide WriteFrames;
    var idle := es + [IdleTimeout];
    assert idle[..|es|] == es && (es + [IdleTimeout, e])[..|es| + 1] == idle;
    RunInv(t0, es, frame);
    FailuresChainedAndSpaced(t0, es, frame);
    BackoffAtLeast(Run(t0, es, frame).failures, |Run(t0, es, frame).failures| - 1);
  }

  /** So does one that can be reopened and fails within that very payload, unless
      the payload itself lasts 5 s. */
  lemma {:induction false} ReopenForgets(t0: nat, es: seq<Event>, frame: nat, e: Event)
    requires frame >= 1 && Ordered(t0, es, frame)
    requires Run(t0, es, frame).slot.open && Run(t0, es, frame).failures != []
    requires e.Payload? && e.opens && WriteFrames(|e.data| / frame, 0, 0, 0, 0, e.active, e.dev).ending.Failed?
    ensures var fs := Run(t0, es, frame).failures;
            var failed := WriteFrames(|e.data| / frame, 0, 0, 0, 0, e.active, e.dev).ending.at;
            var after := Run(t0, es + [IdleTimeout, e], frame).failures;
            && |after| == |fs| + 1
            && Last(after).backoff ==
               if failed - e.at >= 5000 then 250 else Min(2 * Last(fs).backoff, 8000)
  {
    hide WriteFrames;
    var idle := es + [IdleTimeout];
    assert idle[..|es|] == es && (es + [IdleTimeout, e])[..|es| + 1] == idle;
    RunInv(t0, es, frame);
    FailuresChainedAndSpaced(t0, es, frame);
    BackoffAtLeast(Run(t0, es, frame).failures, |Run(t0, es, frame).failures| - 1);
  }
}
