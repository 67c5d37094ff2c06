/** What the endpoint loop does on each event, told by the events before it alone:
    exactly when it writes audio, starts the output, takes or gives up the device,
    answers the controller and fires a hook. */
module EndpointSpec {
  import opened Bytes
  import Sync
  import opened EndpointLoop

  // ----- What the events before position `k` amount to -----

  ghost predicate EndsRelease(e: Event) { e.FormatProposed? || e.Play? || e.Disconnected? }

  /** A release is in force: nothing has ended it. */
  ghost predicate ReleaseInForce(es: seq<Event>, k: nat)
    requires k <= |es|
  {
    exists r :: 0 <= r < k && es[r].Release? && forall j :: r < j < k ==> !EndsRelease(es[j])
  }

  ghost predicate HasFormat(es: seq<Event>, k: nat)
    requires k <= |es|
  {
    exists p :: 0 <= p < k && es[p].FormatProposed?
  }

  ghost predicate Online(es: seq<Event>, k: nat)
    requires k <= |es|
  {
    exists p :: 0 <= p < k && es[p].Connected? && forall j :: p < j < k ==> !es[j].Disconnected?
  }

  /** The rate last negotiated. */
  ghost function RateAt(es: seq<Event>, k: nat): nat
    requires k <= |es|
  {
    if k == 0 then 0 else if es[k - 1].FormatProposed? then es[k - 1].rate else RateAt(es, k - 1)
  }

  /** The clock is good and the head of the ring is due within five seconds. */
  ghost predicate Schedulable(es: seq<Event>, p: nat)
    requires p < |es|
  {
    es[p].AudioPacket? &&
    var e, rate := es[p], RateAt(es, p);
    var ahead := e.ptsNs - e.buffered * 1_000_000_000 / (if rate == 0 then 1 else rate);
    var due := Sync.ControllerToLocal(if ahead < 0 then 0 else ahead, e.clock.offset);
    e.clock.bootstrapped && 0 < due - e.clock.now < 5_000_000_000
  }

  /** Playback starts on event `p`, without having been started: the scheduled
      moment has come, the output cannot wait, or the first packet cannot be scheduled. */
  ghost predicate Begins(es: seq<Event>, p: nat)
    requires p < |es|
    decreases p, 2
  {
    || (es[p].Deadline? && DueBefore(es, p))
    || (es[p].Play? && !StartedBefore(es, p) && !es[p].buffers)
    || (Arms(es, p) && !Schedulable(es, p))
  }

  /** The first packet after a play that waits for one. */
  ghost predicate Arms(es: seq<Event>, p: nat)
    requires p < |es|
    decreases p, 1
  {
    es[p].AudioPacket? && WaitingBefore(es, p) && !StartedBefore(es, p)
  }

  ghost predicate StartedBefore(es: seq<Event>, k: nat)
    requires k <= |es|
    decreases k, 0
  {
    k > 0 && (Begins(es, k - 1) || (StartedBefore(es, k - 1) && !StartsOver(es[k - 1])))
  }

  /** A start is scheduled and has not come. */
  ghost predicate DueBefore(es: seq<Event>, k: nat)
    requires k <= |es|
    decreases k, 0
  {
    k > 0 && ((Arms(es, k - 1) && Schedulable(es, k - 1)) ||
              (DueBefore(es, k - 1) && !StartsOver(es[k - 1]) && !es[k - 1].Deadline?))
  }

  /** A play waits for its first packet. */
  ghost predicate WaitingBefore(es: seq<Event>, k: nat)
    requires k <= |es|
    decreases k, 0
  {
    k > 0 && (Waits(es, k - 1) || (WaitingBefore(es, k - 1) && !StartsOver(es[k - 1]) && !Serves(es, k - 1)))
  }

  ghost predicate Waits(es: seq<Event>, p: nat)
    requires p < |es|
    decreases p, 1
  {
    es[p].Play? && es[p].buffers && !StartedBefore(es, p)
  }

  ghost predicate Serves(es: seq<Event>, j: nat)
    requires j < |es|
    decreases j, 1
  {
    es[j].AudioPacket? && !StartedBefore(es, j)
  }

  /** The servo has a timeline: a packet gave it one, and nothing took it away. */
  ghost predicate TrackedBefore(es: seq<Event>, k: nat)
    requires k <= |es|
  {
    exists p :: 0 <= p < k && Arms(es, p) &&
                forall j :: p < j < k ==> !StartsOver(es[j]) && !es[j].Pause? && !es[j].Seek?
  }

  // ----- One event more -----

  lemma ReleaseNext(es: seq<Event>, k: nat)
    requires k < |es|
    ensures ReleaseInForce(es, k + 1) <==> es[k].Release? || (ReleaseInForce(es, k) && !EndsRelease(es[k]))
  {
    if ReleaseInForce(es, k) {
      var r :| 0 <= r < k && es[r].Release? && forall j :: r < j < k ==> !EndsRelease(es[j]);
    }
    if ReleaseInForce(es, k + 1) {
      var r :| 0 <= r < k + 1 && es[r].Release? && forall j :: r < j < k + 1 ==> !EndsRelease(es[j]);
    }
  }

  lemma FormatNext(es: seq<Event>, k: nat)
    requires k < |es|
    ensures HasFormat(es, k + 1) <==> es[k].FormatProposed? || HasFormat(es, k)
  {
    if HasFormat(es, k) { var p :| 0 <= p < k && es[p].FormatProposed?; }
  }

  lemma OnlineNext(es: seq<Event>, k: nat)
    requires k < |es|
    ensures Online(es, k + 1) <==> es[k].Connected? || (Online(es, k) && !es[k].Disconnected?)
  {
    if Online(es, k) {
      var p :| 0 <= p < k && es[p].Connected? && forall j :: p < j < k ==> !es[j].Disconnected?;
    }
    if Online(es, k + 1) {
      var p :| 0 <= p < k + 1 && es[p].Connected? && forall j :: p < j < k + 1 ==> !es[j].Disconnected?;
    }
  }

  lemma StartedNext(es: seq<Event>, k: nat)
    requires k < |es|
    ensures StartedBefore(es, k + 1) <==> Begins(es, k) || (StartedBefore(es, k) && !StartsOver(es[k]))
    ensures Begins(es, k) <==>
            || (es[k].Deadline? && DueBefore(es, k))
            || (es[k].Play? && !StartedBefore(es, k) && !es[k].buffers)
            || (Arms(es, k) && !Schedulable(es, k))
  {
  }

  lemma DueNext(es: seq<Event>, k: nat)
    requires k < |es|
    ensures DueBefore(es, k + 1) <==>
            (Arms(es, k) && Schedulable(es, k)) || (DueBefore(es, k) && !StartsOver(es[k]) && !es[k].Deadline?)
    ensures Arms(es, k) <==> es[k].AudioPacket? && WaitingBefore(es, k) && !StartedBefore(es, k)
  {
  }

  lemma WaitingNext(es: seq<Event>, k: nat)
    requires k < |es|
    ensures WaitingBefore(es, k + 1) <==>
            || (es[k].Play? && es[k].buffers && !StartedBefore(es, k))
            || (WaitingBefore(es, k) && !StartsOver(es[k]) && !(es[k].AudioPacket? && !StartedBefore(es, k)))
  {
  }

  /** Playback began on event `p` and the stream has not started over since. */
  ghost predicate BegunAt(es: seq<Event>, p: nat, k: nat)
    requires p < k <= |es|
  {
    Begins(es, p) && forall j :: p < j < k ==> !StartsOver(es[j])
  }

  /** Playback is started: it began, and the stream has not started over since. */
  lemma {:induction false} StartedSince(es: seq<Event>, k: nat)
    requires k <= |es|
    ensures StartedBefore(es, k) <==> exists p :: 0 <= p < k && BegunAt(es, p, k)
  {
    if k > 0 {
      StartedSince(es, k - 1);
      StartedNext(es, k - 1);
      BegunNext(es, k - 1, k);
    } else {
      NotAtFirst(es);
    }
  }

  lemma NotAtFirst(es: seq<Event>)
    ensures !StartedBefore(es, 0) && !DueBefore(es, 0)
  {
  }

  lemma BegunNext(es: seq<Event>, k: nat, m: nat)
    requires k < |es| && m == k + 1
    ensures (exists p :: 0 <= p < m && BegunAt(es, p, m)) <==>
            Begins(es, k) || (!StartsOver(es[k]) && exists p :: 0 <= p < k && BegunAt(es, p, k))
  {
    hide Begins;
    if Begins(es, k) { assert BegunAt(es, k, m); }
    forall p | 0 <= p < k ensures BegunAt(es, p, m) <==> BegunAt(es, p, k) && !StartsOver(es[k]) { }
    if p :| 0 <= p < k && BegunAt(es, p, k) { assert BegunAt(es, p, m) <==> !StartsOver(es[k]); }
    if p :| 0 <= p < m && BegunAt(es, p, m) { assert p < k ==> BegunAt(es, p, k) && !StartsOver(es[k]); }
  }

  /** The event leaves a scheduled start alone. */
  ghost predicate Leaves(e: Event) { !StartsOver(e) && !e.Deadline? }

  ghost predicate ScheduledAt(es: seq<Event>, p: nat, k: nat)
    requires p < k <= |es|
  {
    Arms(es, p) && Schedulable(es, p) && forall j :: p < j < k ==> Leaves(es[j])
  }

  /** A start is due: a packet scheduled it, and since then neither did the moment
      come nor the stream start over. */
  lemma {:induction false} DueSince(es: seq<Event>, k: nat)
    requires k <= |es|
    ensures DueBefore(es, k) <==> exists p :: 0 <= p < k && ScheduledAt(es, p, k)
  {
    if k > 0 {
      DueSince(es, k - 1);
      DueNext(es, k - 1);
      ScheduledNext(es, k - 1, k);
    } else {
      NotAtFirst(es);
    }
  }

  lemma ScheduledNext(es: seq<Event>, k: nat, m: nat)
    requires k < |es| && m == k + 1
    ensures (exists p :: 0 <= p < m && ScheduledAt(es, p, m)) <==>
            (Arms(es, k) && Schedulable(es, k)) || (Leaves(es[k]) && exists p :: 0 <= p < k && ScheduledAt(es, p, k))
  {
    hide Arms, Schedulable;
    if Arms(es, k) && Schedulable(es, k) { assert ScheduledAt(es, k, m); }
    forall p | 0 <= p < k ensures ScheduledAt(es, p, m) <==> ScheduledAt(es, p, k) && Leaves(es[k]) { }
    if p :| 0 <= p < k && ScheduledAt(es, p, k) { assert ScheduledAt(es, p, m) <==> Leaves(es[k]); }
    if p :| 0 <= p < m && ScheduledAt(es, p, m) { assert p < k ==> ScheduledAt(es, p, k) && Leaves(es[k]); }
  }

  lemma TrackedNext(es: seq<Event>, k: nat)
    requires k < |es|
    ensures TrackedBefore(es, k + 1) <==>
            Arms(es, k) || (TrackedBefore(es, k) && !StartsOver(es[k]) && !es[k].Pause? && !es[k].Seek?)
  {
    if TrackedBefore(es, k) {
      var p :| 0 <= p < k && Arms(es, p) &&
               forall j :: p < j < k ==> !StartsOver(es[j]) && !es[j].Pause? && !es[j].Seek?;
    }
    if TrackedBefore(es, k + 1) {
      var p :| 0 <= p < k + 1 && Arms(es, p) &&
               forall j :: p < j < k + 1 ==> !StartsOver(es[j]) && !es[j].Pause? && !es[j].Seek?;
    }
  }

  // ----- The loop's state is what the events say -----

  ghost predicate AsTold(s: State, es: seq<Event>, k: nat)
    requires k <= |es|
  {
    && (s.released <==> ReleaseInForce(es, k))
    && (s.hasFormat <==> HasFormat(es, k))
    && (s.connected <==> Online(es, k))
    && s.rate == RateAt(es, k)
    && (s.started <==> StartedBefore(es, k))
    && (s.deadline <==> DueBefore(es, k))
    && (s.armed <==> WaitingBefore(es, k))
    && (s.tracker.Some? <==> TrackedBefore(es, k))
  }

  lemma SchedulableIs(es: seq<Event>, k: nat)
    requires k < |es| && es[k].AudioPacket?
    ensures var e, rate := es[k], RateAt(es, k);
            Schedulable(es, k) <==>
            Sync.Scheduled(e.clock.bootstrapped,
                           Sync.LeadNs(Sync.HeadPts(e.ptsNs, e.buffered, rate), e.clock.offset, e.clock.now))
  {
    hide Sync.ControllerToLocal;
  }

  lemma {:induction false} ToldByEvents(es: seq<Event>, k: nat)
    requires k <= |es|
    ensures AsTold(Run(es[..k]), es, k)
  {
    hide Step, AsTold;
    if k == 0 {
      assert es[..0] == [];
      ToldAtStart(es);
    } else {
      ToldByEvents(es, k - 1);
      assert es[..k][..k - 1] == es[..k - 1] && es[..k][k - 1] == es[k - 1];
      ToldNext(Run(es[..k - 1]), es, k - 1);
    }
  }

  lemma ToldAtStart(es: seq<Event>)
    ensures AsTold(INITIAL, es, 0)
  {
  }

  lemma ToldNext(s: State, es: seq<Event>, k: nat)
    requires k < |es| && AsTold(s, es, k)
    ensures AsTold(Step(s, es[k]).0, es, k + 1)
  {
    hide Step, AsTold;
    match es[k]
    case Tick(_, _, _, _) => TickTold(s, es, k);
    case AudioPacket(_, _, _, _) => PacketTold(s, es, k);
    case Play(_) => PlayTold(s, es, k);
    case FormatProposed(_, _) => ResetTold(s, es, k);
    case Stop => ResetTold(s, es, k);
    case Release => ResetTold(s, es, k);
    case _ => OtherTold(s, es, k);
  }

  /** What the next event changes, in the terms of the state before it. */
  lemma HistoryNext(s: State, es: seq<Event>, k: nat)
    requires k < |es| && AsTold(s, es, k)
    ensures var e := es[k];
            var arms := e.AudioPacket? && s.armed && !s.started;
            && (ReleaseInForce(es, k + 1) <==> e.Release? || (s.released && !EndsRelease(e)))
            && (HasFormat(es, k + 1) <==> e.FormatProposed? || s.hasFormat)
            && (Online(es, k + 1) <==> e.Connected? || (s.connected && !e.Disconnected?))
            && RateAt(es, k + 1) == (if e.FormatProposed? then e.rate else s.rate)
            && (StartedBefore(es, k + 1) <==>
                  || (e.Deadline? && s.deadline) || (e.Play? && !s.started && !e.buffers) || (arms && !Schedulable(es, k))
                  || (s.started && !StartsOver(e)))
            && (DueBefore(es, k + 1) <==> (arms && Schedulable(es, k)) || (s.deadline && !StartsOver(e) && !e.Deadline?))
            && (WaitingBefore(es, k + 1) <==>
                  || (e.Play? && e.buffers && !s.started)
                  || (s.armed && !StartsOver(e) && !(e.AudioPacket? && !s.started)))
            && (TrackedBefore(es, k + 1) <==> arms || (s.tracker.Some? && !StartsOver(e) && !e.Pause? && !e.Seek?))
  {
    hide Schedulable, ReleaseInForce, HasFormat, Online, TrackedBefore, Begins, Arms, StartedBefore, DueBefore, WaitingBefore,
      StartsOver, EndsRelease;
    StartedNext(es, k);
    DueNext(es, k);
    WaitingNext(es, k);
    ReleaseNext(es, k);
    FormatNext(es, k);
    OnlineNext(es, k);
    TrackedNext(es, k);
  }

  lemma TickTold(s: State, es: seq<Event>, k: nat)
    requires k < |es| && AsTold(s, es, k) && es[k].Tick?
    ensures AsTold(Step(s, es[k]).0, es, k + 1)
  {
    hide TickStep, Schedulable, ReleaseInForce, HasFormat, Online, TrackedBefore, StartedBefore, DueBefore, WaitingBefore, RateAt;
    HistoryNext(s, es, k);
    TickTells(s, es[k].playing, es[k].deviceOpen, es[k].position, es[k].clock);
  }

  lemma PacketTold(s: State, es: seq<Event>, k: nat)
    requires k < |es| && AsTold(s, es, k) && es[k].AudioPacket?
    ensures AsTold(Step(s, es[k]).0, es, k + 1)
  {
    hide PacketStep, Schedulable, ReleaseInForce, HasFormat, Online, TrackedBefore, StartedBefore, DueBefore, WaitingBefore, RateAt;
    HistoryNext(s, es, k);
    PacketTells(s, es, k);
  }

  lemma PlayTold(s: State, es: seq<Event>, k: nat)
    requires k < |es| && AsTold(s, es, k) && es[k].Play?
    ensures AsTold(Step(s, es[k]).0, es, k + 1)
  {
    hide PlayStep, Schedulable, ReleaseInForce, HasFormat, Online, TrackedBefore, StartedBefore, DueBefore, WaitingBefore, RateAt;
    HistoryNext(s, es, k);
    PlayTells(s, es[k].buffers);
  }

  lemma ResetTold(s: State, es: seq<Event>, k: nat)
    requires k < |es| && AsTold(s, es, k) && StartsOver(es[k])
    ensures AsTold(Step(s, es[k]).0, es, k + 1)
  {
    hide TickStep, PacketStep, PlayStep, Schedulable, ReleaseInForce, HasFormat, Online, TrackedBefore, StartedBefore, DueBefore, WaitingBefore, RateAt;
    HistoryNext(s, es, k);
  }

  lemma OtherTold(s: State, es: seq<Event>, k: nat)
    requires k < |es| && AsTold(s, es, k)
    requires !StartsOver(es[k]) && !es[k].Tick? && !es[k].AudioPacket? && !es[k].Play?
    ensures AsTold(Step(s, es[k]).0, es, k + 1)
  {
    hide TickStep, PacketStep, PlayStep, Schedulable, ReleaseInForce, HasFormat, Online, TrackedBefore, StartedBefore, DueBefore, WaitingBefore, RateAt;
    HistoryNext(s, es, k);
  }

  lemma TickTells(s: State, playing: bool, deviceOpen: bool, position: Option<nat>, clock: ClockView)
    ensures var t := TickStep(s, playing, deviceOpen, position, clock).0;
            && t.armed == s.armed && t.started == s.started && t.deadline == s.deadline && t.released == s.released
            && (t.tracker.Some? <==> s.tracker.Some?)
            && t.hasFormat == s.hasFormat && t.connected == s.connected && t.rate == s.rate
  {
    hide ServoTick, IdleTick;
    IdleFacts(s, playing, deviceOpen);
    ServoFacts(IdleTick(s, playing, deviceOpen).0, position, clock);
  }

  lemma PacketTells(s: State, es: seq<Event>, k: nat)
    requires k < |es| && es[k].AudioPacket? && s.rate == RateAt(es, k)
    ensures var e := es[k];
            var t := PacketStep(s, e.empty, e.ptsNs, e.buffered, e.clock).0;
            && t.released == s.released && t.hasFormat == s.hasFormat && t.connected == s.connected && t.rate == s.rate
            && (if s.armed && !s.started then
                  && !t.armed && t.tracker.Some?
                  && t.started == !Schedulable(es, k) && t.deadline == (s.deadline || Schedulable(es, k))
                else t == s)
  {
    hide Sync.Scheduled, Sync.HeadPts, Sync.LeadNs, LateTracker, Schedulable;
    SchedulableIs(es, k);
  }

  lemma PlayTells(s: State, buffers: bool)
    ensures var t := PlayStep(s, buffers).0;
            && !t.released && t.hasFormat == s.hasFormat && t.connected == s.connected && t.rate == s.rate
            && t.tracker == s.tracker && t.deadline == s.deadline
            && t.started == (s.started || !buffers) && t.armed == (s.armed || (!s.started && buffers))
  {
  }

  // ----- What the loop does, exactly -----

  function If<T>(c: bool, x: T): seq<T> { if c then [x] else [] }

  /** On event `k` the loop does this, in this order, with the output. */
  ghost predicate Does(es: seq<Event>, k: nat, ops: seq<DeviceOp>)
    requires k < |es|
  {
    match es[k]
    case Deadline => ops == If(DueBefore(es, k), StartOutput)
    case FormatProposed(_, _) => ops == [Configure]
    case AudioPacket(empty, _, _, _) =>
      ops == If(!empty && !ReleaseInForce(es, k), WriteAudio) + If(Arms(es, k) && !Schedulable(es, k), StartOutput)
    case Play(buffers) =>
      ops == If(ReleaseInForce(es, k) && HasFormat(es, k), Configure) + If(StartedBefore(es, k) || !buffers, StartOutput)
    case Pause => ops == [PauseOutput, SetCorrection(0)]
    case Stop => ops == [StopOutput]
    case Seek => ops == [FlushAndRestart, SetCorrection(0)]
    case NextTrackReformat => ops == If(!ReleaseInForce(es, k), Configure)
    case Disconnected => ops == [StopOutput]
    case Release => ops == [ReleaseOutput]
    case Tick(_, _, position, _) =>
      if StartedBefore(es, k) && TrackedBefore(es, k) && position.Some?
      then |ops| == 1 && ops[0].SetCorrection? else ops == []
    case _ => ops == []
  }

  /** And it tells the controller this. */
  ghost predicate Tells(es: seq<Event>, k: nat, message: Option<Message>)
    requires k < |es|
  {
    match es[k]
    case FormatProposed(configured, _) => message == Some(Answer(configured))
    case Release => message == if Online(es, k) then Some(SendRelease) else None
    case _ => message == None
  }

  /** In every run: the operations on the output and the messages of event `k`, as
      its predecessors alone determine them. */
  lemma ActsExactly(es: seq<Event>, k: nat)
    requires k < |es|
    ensures Does(es, k, ActionsAt(es, k).ops) && Tells(es, k, ActionsAt(es, k).message)
  {
    hide Run, ReleaseInForce, HasFormat, Online, StartedBefore, DueBefore, WaitingBefore, TrackedBefore, Schedulable, RateAt,
      TickStep, PacketStep, PlayStep;
    ToldByEvents(es, k);
    var s := Run(es[..k]);
    match es[k] {
      case Tick(playing, deviceOpen, position, clock) => TickOps(s, playing, deviceOpen, position, clock);
      case AudioPacket(empty, ptsNs, buffered, clock) => PacketOps(s, es, k);
      case Play(buffers) => PlayOps(s, buffers);
      case _ =>
    }
  }

  lemma TickOps(s: State, playing: bool, deviceOpen: bool, position: Option<nat>, clock: ClockView)
    ensures var a := TickStep(s, playing, deviceOpen, position, clock).1;
            && a.message == None
            && if s.started && s.tracker.Some? && position.Some? then |a.ops| == 1 && a.ops[0].SetCorrection? else a.ops == []
  {
    hide Sync.Tick, IdleTick, TrackerNow;
    IdleFacts(s, playing, deviceOpen);
  }

  lemma PacketOps(s: State, es: seq<Event>, k: nat)
    requires k < |es| && es[k].AudioPacket? && s.rate == RateAt(es, k)
    ensures var e := es[k];
            var a := PacketStep(s, e.empty, e.ptsNs, e.buffered, e.clock).1;
            && a.message == None
            && a.ops == If(!e.empty && !s.released, WriteAudio) + If(s.armed && !s.started && !Schedulable(es, k), StartOutput)
  {
    hide Sync.Scheduled, Sync.HeadPts, Sync.LeadNs, LateTracker, Schedulable;
    SchedulableIs(es, k);
    var w := If(!es[k].empty && !s.released, WriteAudio);
    assert w + [] == w;
  }

  lemma PlayOps(s: State, buffers: bool)
    ensures var a := PlayStep(s, buffers).1;
            && a.message == None
            && a.ops == If(s.released && s.hasFormat, Configure) + If(s.started || !buffers, StartOutput)
  {
    var r := If(s.released && s.hasFormat, Configure);
    assert r + [] == r;
  }

  // ----- The servo, in numbers -----

  /** The timeline a start gives the servo: the presentation time of the ring head
      on the controller's clock, unless the start is immediate and the clock has no
      samples or that time is 30 s or more in the past; then the local clock's now. */
  lemma TimelineExactly(es: seq<Event>, k: nat)
    requires k < |es| && Arms(es, k)
    ensures var e, rate := es[k], RateAt(es, k);
            var ahead := e.ptsNs - e.buffered * 1_000_000_000 / (if rate == 0 then 1 else rate);
            var head := if ahead < 0 then 0 else ahead;
            var late := Sync.LocalToController(e.clock.now, e.clock.offset) - head;
            Run(es[..k + 1]).tracker ==
            Some(if Schedulable(es, k) || (e.clock.bootstrapped && late < 30_000_000_000) then Tracker(head, true)
                 else Tracker(e.clock.now, false))
  {
    hide Schedulable, Sync.LeadNs, Sync.LocalToController, Sync.Scheduled, StartedBefore, WaitingBefore, ReleaseInForce, HasFormat,
      Online, DueBefore, TrackedBefore;
    ToldByEvents(es, k);
    SchedulableIs(es, k);
    assert es[..k + 1][..k] == es[..k];
    DueNext(es, k);
  }

  /** What the servo does with the drift `d` it measures: more than half a second
      behind, with less than a tenth of a second made up since the last tick, it
      gives up and moves the timeline; otherwise it queues the drift, at most one
      second of it, if that is more than half a millisecond and four frames. */
  ghost predicate Steers(rate: int, last: int, d: int, correction: int, nextLast: int, shift: int) {
    if d > rate / 2 && last != 0 && last - d < rate / 10 then
      && correction == 0 && nextLast == 0
      && shift == d * 1_000_000_000 % 0x1_0000_0000_0000_0000 / (if rate == 0 then 1 else rate)
    else
      && nextLast == d && shift == 0
      && correction == if -4 <= d <= 4 || -(rate / 2000) <= d <= rate / 2000 then 0
                       else if d > rate then rate else if d < -rate then -rate else d
  }

  lemma TickSteers(servo: Sync.Servo, rate: nat, now: nat, played: nat)
    ensures var (next, c) := Sync.Tick(servo, rate, now, played);
            var d := Sync.DriftFrames(servo.startNs, rate, now, played);
            Steers(rate, servo.lastDrift, d, c, next.lastDrift, next.startNs - servo.startNs)
  {
    hide Sync.DriftFrames;
  }

  lemma DriftIs(start: nat, rate: nat, now: nat, played: nat)
    ensures Sync.DriftFrames(start, rate, now, played) ==
            (if now < start then 0 else now - start) * rate / 1_000_000_000 - played
  {
  }

  /** In the loop: the drift is that of the output's position against the tracker,
      on the tracker's own clock. */
  lemma TickCorrects(s: State, e: Event)
    requires e.Tick? && s.started && s.tracker.Some? && e.position.Some?
    ensures var t := s.tracker.value;
            var now := if t.onController then Sync.LocalToController(e.clock.now, e.clock.offset) else e.clock.now;
            var d := (if now < t.startNs then 0 else now - t.startNs) * s.rate / 1_000_000_000 - e.position.value;
            var (next, actions) := Step(s, e);
            && next.tracker.Some? && next.tracker.value.onController == t.onController
            && |actions.ops| == 1 && actions.ops[0].SetCorrection?
            && Steers(s.rate, s.lastDrift, d, actions.ops[0].frames, next.lastDrift, next.tracker.value.startNs - t.startNs)
  {
    hide IdleTick, Sync.LocalToController, Sync.Tick, Sync.DriftFrames, Steers;
    IdleFacts(s, e.playing, e.deviceOpen);
    var t := s.tracker.value;
    var now := TrackerNow(t, e.clock);
    TickSteers(Sync.Servo(t.startNs, s.lastDrift), s.rate, now, e.position.value);
    DriftIs(t.startNs, s.rate, now, e.position.value);
  }

  /** Unless the servo steers: a new beginning forgets the last drift and the timeline, a pause
      or a seek the timeline; a start sets it; nothing else touches either. */
  lemma BetweenTicks(es: seq<Event>, k: nat)
    requires k < |es| && !(es[k].Tick? && StartedBefore(es, k) && TrackedBefore(es, k) && es[k].position.Some?)
    ensures var s, t := Run(es[..k]), Run(es[..k + 1]);
            && t.lastDrift == (if StartsOver(es[k]) then 0 else s.lastDrift)
            && (!Arms(es, k) ==>
                  t.tracker == if StartsOver(es[k]) || es[k].Pause? || es[k].Seek? then None else s.tracker)
  {
    hide IdleTick, Sync.Tick, StartedBefore, WaitingBefore, ReleaseInForce, HasFormat, Online, DueBefore, TrackedBefore, RateAt, PacketStep, PlayStep;
    ToldByEvents(es, k);
    assert es[..k + 1][..k] == es[..k];
    DueNext(es, k);
    match es[k]
    case AudioPacket(empty, ptsNs, buffered, clock) => PacketKeeps(Run(es[..k]), empty, ptsNs, buffered, clock);
    case Play(buffers) => PlayKeeps(Run(es[..k]), buffers);
    case Tick(playing, deviceOpen, _, _) => IdleFacts(Run(es[..k]), playing, deviceOpen);
    case _ =>
  }

  lemma PacketKeeps(s: State, empty: bool, ptsNs: nat, buffered: nat, clock: ClockView)
    ensures var t := PacketStep(s, empty, ptsNs, buffered, clock).0;
            t.lastDrift == s.lastDrift && (!(s.armed && !s.started) ==> t.tracker == s.tracker)
  {
    hide Sync.Scheduled, Sync.HeadPts, Sync.LeadNs, LateTracker;
  }

  lemma PlayKeeps(s: State, buffers: bool)
    ensures var t := PlayStep(s, buffers).0; t.lastDrift == s.lastDrift && t.tracker == s.tracker
  {
  }

  // ----- Hooks -----

  /** A tick that finds the output neither playing nor its device open. */
  ghost predicate Idle(e: Event) { e.Tick? && !e.playing && !e.deviceOpen }

  /** The last tick was an idle one of an output in use, and not a second such. */
  ghost predicate OneIdle(es: seq<Event>, k: nat)
    requires k <= |es|
    decreases k, 0
  {
    k > 0 &&
    if es[k - 1].Tick? then Idle(es[k - 1]) && InUseBefore(es, k - 1) && !OneIdle(es, k - 1) else OneIdle(es, k - 1)
  }

  /** The output is given up: stopped, released, disconnected, or idle for the second tick in a row. */
  ghost predicate GivenUp(es: seq<Event>, p: nat)
    requires p < |es|
    decreases p, 1
  {
    es[p].Stop? || es[p].Disconnected? || es[p].Release? || (Idle(es[p]) && OneIdle(es, p))
  }

  /** Played, and not given up since. */
  ghost predicate InUseBefore(es: seq<Event>, k: nat)
    requires k <= |es|
    decreases k, 0
  {
    k > 0 && (es[k - 1].Play? || (InUseBefore(es, k - 1) && !GivenUp(es, k - 1)))
  }

  lemma UseNext(es: seq<Event>, k: nat)
    requires k < |es|
    ensures InUseBefore(es, k + 1) <==> es[k].Play? || (InUseBefore(es, k) && !GivenUp(es, k))
    ensures GivenUp(es, k) <==> es[k].Stop? || es[k].Disconnected? || es[k].Release? || (Idle(es[k]) && OneIdle(es, k))
    ensures OneIdle(es, k + 1) <==>
            if es[k].Tick? then Idle(es[k]) && InUseBefore(es, k) && !OneIdle(es, k) else OneIdle(es, k)
  {
  }

  ghost predicate UseAsTold(s: State, es: seq<Event>, k: nat)
    requires k <= |es|
  {
    (s.inUse <==> InUseBefore(es, k)) && s.idleTicks == if OneIdle(es, k) then 1 else 0
  }

  lemma UseStep(s: State, e: Event)
    ensures var t := Step(s, e).0;
            && (e.Tick? ==>
                  && (t.inUse <==> s.inUse && !(Idle(e) && s.idleTicks >= 1))
                  && (s.idleTicks <= 1 ==> t.idleTicks == if s.inUse && Idle(e) && s.idleTicks == 0 then 1 else 0))
            && (!e.Tick? ==>
                  && (t.inUse <==> e.Play? || (s.inUse && !e.Stop? && !e.Disconnected? && !e.Release?))
                  && t.idleTicks == s.idleTicks)
  {
    hide TickStep, PacketStep, PlayStep;
    match e
    case Tick(playing, deviceOpen, position, clock) => TickUse(s, playing, deviceOpen, position, clock);
    case Play(buffers) => PlayUse(s, buffers);
    case AudioPacket(empty, ptsNs, buffered, clock) => PacketUse(s, empty, ptsNs, buffered, clock);
    case _ =>
  }

  lemma TickUse(s: State, playing: bool, deviceOpen: bool, position: Option<nat>, clock: ClockView)
    ensures var t, idle := TickStep(s, playing, deviceOpen, position, clock).0, !playing && !deviceOpen;
            && (t.inUse <==> s.inUse && !(idle && s.idleTicks >= 1))
            && (s.idleTicks <= 1 ==> t.idleTicks == if s.inUse && idle && s.idleTicks == 0 then 1 else 0)
  {
    hide ServoTick;
    ServoFacts(IdleTick(s, playing, deviceOpen).0, position, clock);
  }

  lemma PlayUse(s: State, buffers: bool)
    ensures var t := PlayStep(s, buffers).0; t.inUse && t.idleTicks == s.idleTicks
  {
  }

  lemma PacketUse(s: State, empty: bool, ptsNs: nat, buffered: nat, clock: ClockView)
    ensures var t := PacketStep(s, empty, ptsNs, buffered, clock).0; t.inUse == s.inUse && t.idleTicks == s.idleTicks
  {
    hide Sync.Scheduled, Sync.HeadPts, Sync.LeadNs, LateTracker;
  }

  lemma {:induction false} UseByEvents(es: seq<Event>, k: nat)
    requires k <= |es|
    ensures UseAsTold(Run(es[..k]), es, k)
  {
    hide Step, GivenUp, InUseBefore, OneIdle;
    if k == 0 {
      assert es[..0] == [];
      UnusedAtFirst(es);
    } else {
      UseByEvents(es, k - 1);
      assert es[..k][..k - 1] == es[..k - 1] && es[..k][k - 1] == es[k - 1];
      UseNext(es, k - 1);
      UseStep(Run(es[..k - 1]), es[k - 1]);
    }
  }

  lemma UnusedAtFirst(es: seq<Event>)
    ensures !InUseBefore(es, 0) && !OneIdle(es, 0)
  {
  }

  /** In every run: the start hook fires exactly on a play of an output not in use,
      the stop hook exactly when an output in use is given up. */
  lemma HooksExactly(es: seq<Event>, k: nat)
    requires k < |es|
    ensures var hook := ActionsAt(es, k).hook;
            && (hook == Some(true) <==> es[k].Play? && !InUseBefore(es, k))
            && (hook == Some(false) <==> InUseBefore(es, k) && GivenUp(es, k))
  {
    hide Step, Run, GivenUp, InUseBefore, OneIdle;
    UseByEvents(es, k);
    UseNext(es, k);
    UseStep(Run(es[..k]), es[k]);
    StepHook(Run(es[..k]), es[k]);
  }
}
