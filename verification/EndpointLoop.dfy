/** The endpoint's event loop: arming, the drift servo, release and hooks. What
    the audio output and the published clock answer enters as event parameters,
    so the results hold for any of them. */
module EndpointLoop {
  import opened Bytes
  import opened Arithmetic
  import Sync

  /** What the loop reads off the published clock. */
  datatype ClockView = ClockView(bootstrapped: bool, offset: int, now: nat)

  datatype Event =
    | Deadline                                    // the scheduled start fires
    | Tick(playing: bool, deviceOpen: bool, position: Option<nat>, clock: ClockView) // once a second
    | FormatProposed(configured: bool, rate: nat)
    | AudioPacket(empty: bool, ptsNs: nat, buffered: nat, clock: ClockView)
    | Play(buffers: bool)                         // output buffers while stopped
    | Pause
    | Stop
    | Seek
    | NextTrackReformat
    | Connected
    | Disconnected
    | Release
    | Other

  datatype DeviceOp =
    | Configure | WriteAudio | StartOutput | PauseOutput | StopOutput | ReleaseOutput | FlushAndRestart
    | SetCorrection(frames: int)

  datatype Message = Answer(accept: bool) | SendRelease

  /** What one pass does: operations on the output in order, a message to the
      controller, a hook fired (true for start). */
  datatype Actions = Actions(ops: seq<DeviceOp>, message: Option<Message>, hook: Option<bool>)

  /** The expected position: frame 0 is due at `startNs`, on the controller's
      clock or on the local one. Its rate is the stream's. */
  datatype Tracker = Tracker(startNs: nat, onController: bool)

  datatype State = State(
    armed: bool,
    started: bool,
    deadline: bool,
    tracker: Option<Tracker>,
    lastDrift: int,
    rate: nat,
    released: bool,
    inUse: bool,
    idleTicks: nat,
    hasFormat: bool,
    connected: bool)

  const INITIAL := State(false, false, false, None, 0, 0, false, false, 0, false, false)

  function StopHook(s: State): Option<bool> { if s.inUse then Some(false) else None }

  /** Playback scheduling as at the beginning. */
  function Unscheduled(s: State): State {
    s.(armed := false, started := false, deadline := false, tracker := None, lastDrift := 0)
  }

  const START_OUTPUT := Actions([StartOutput], None, None)
  const NO_ACTION := Actions([], None, None)

  // ----- The servo tick -----

  /** The hook's idle count. */
  function IdleTick(s: State, playing: bool, deviceOpen: bool): (State, Option<bool>) {
    if s.inUse && !playing && !deviceOpen then
      if s.idleTicks + 1 >= 2 then (s.(inUse := false, idleTicks := 0), Some(false))
      else (s.(idleTicks := s.idleTicks + 1), None)
    else (s.(idleTicks := 0), None)
  }

  /** Now, on the clock the tracker lives on. */
  function TrackerNow(t: Tracker, clock: ClockView): nat {
    if t.onController then Sync.LocalToController(clock.now, clock.offset) else clock.now
  }

  /** The servo runs once playback has started and both a timeline and the
      output's position are known. */
  function ServoTick(s: State, position: Option<nat>, clock: ClockView): (State, seq<DeviceOp>) {
    if s.started && s.tracker.Some? && position.Some? then
      var t := s.tracker.value;
      var (servo, correction) := Sync.Tick(Sync.Servo(t.startNs, s.lastDrift), s.rate, TrackerNow(t, clock), position.value);
      (s.(tracker := Some(t.(startNs := servo.startNs)), lastDrift := servo.lastDrift), [SetCorrection(correction)])
    else (s, [])
  }

  function TickStep(s: State, playing: bool, deviceOpen: bool, position: Option<nat>, clock: ClockView): (State, Actions) {
    var (counted, hook) := IdleTick(s, playing, deviceOpen);
    var (ticked, ops) := ServoTick(counted, position, clock);
    (ticked, Actions(ops, None, hook))
  }

  // ----- Packets and commands -----

  const REALIGN_LIMIT_NS := 30 * Sync.NS

  /** The timeline of a start at once: the controller's if the head's PTS is
      plausibly absolute, else the local clock from now on. */
  function LateTracker(head: nat, clock: ClockView): Tracker {
    var age := Sync.SatSub(Sync.LocalToController(clock.now, clock.offset), head);
    if clock.bootstrapped && age < REALIGN_LIMIT_NS then Tracker(head, true) else Tracker(clock.now, false)
  }

  function PacketStep(s: State, empty: bool, ptsNs: nat, buffered: nat, clock: ClockView): (State, Actions) {
    var write := if !empty && !s.released then [WriteAudio] else [];
    if s.armed && !s.started then
      var head := Sync.HeadPts(ptsNs, buffered, s.rate);
      if Sync.Scheduled(clock.bootstrapped, Sync.LeadNs(head, clock.offset, clock.now)) then
        (s.(armed := false, deadline := true, tracker := Some(Tracker(head, true))), Actions(write, None, None))
      else
        (s.(armed := false, started := true, tracker := Some(LateTracker(head, clock))),
         Actions(write + [StartOutput], None, None))
    else (s, Actions(write, None, None))
  }

  function PlayStep(s: State, buffers: bool): (State, Actions) {
    var reopen := if s.released && s.hasFormat then [Configure] else [];
    var hook := if s.inUse then None else Some(true);
    var t := s.(released := false, inUse := true);
    if t.started then (t, Actions(reopen + [StartOutput], None, hook))
    else if buffers then (t.(armed := true), Actions(reopen, None, hook))
    else (t.(started := true), Actions(reopen + [StartOutput], None, hook))
  }

  function Step(s: State, e: Event): (State, Actions) {
    match e
    case Deadline => if s.deadline then (s.(deadline := false, started := true), START_OUTPUT) else (s, NO_ACTION)
    case Tick(playing, deviceOpen, position, clock) => TickStep(s, playing, deviceOpen, position, clock)
    case FormatProposed(configured, rate) =>
      (Unscheduled(s).(released := false, hasFormat := true, rate := rate),
       Actions([Configure], Some(Answer(configured)), None))
    case AudioPacket(empty, ptsNs, buffered, clock) => PacketStep(s, empty, ptsNs, buffered, clock)
    case Play(buffers) => PlayStep(s, buffers)
    case Pause => (s.(tracker := None), Actions([PauseOutput, SetCorrection(0)], None, None))
    case Stop => (Unscheduled(s).(inUse := false), Actions([StopOutput], None, StopHook(s)))
    case Seek => (s.(tracker := None), Actions([FlushAndRestart, SetCorrection(0)], None, None))
    case NextTrackReformat => (s, Actions(if s.released then [] else [Configure], None, None))
    case Connected => (s.(connected := true), NO_ACTION)
    case Disconnected =>
      (s.(connected := false, released := false, inUse := false), Actions([StopOutput], None, StopHook(s)))
    case Release =>
      (Unscheduled(s).(released := true, inUse := false),
       Actions([ReleaseOutput], if s.connected then Some(SendRelease) else None, StopHook(s)))
    case Other => (s, NO_ACTION)
  }

  class Endpoint {
    var armed: bool
    var started: bool
    var deadline: bool
    var tracker: Option<Tracker>
    var lastDrift: int
    var sampleRate: nat
    var released: bool
    var outputInUse: bool
    var idleTicks: nat
    var hasFormat: bool
    var connected: bool

    function Current(): State
      reads this
    {
      State(armed, started, deadline, tracker, lastDrift, sampleRate, released, outputInUse, idleTicks, hasFormat, connected)
    }

    constructor ()
      ensures Current() == INITIAL
    {
      armed, started, deadline, tracker, lastDrift, sampleRate := false, false, false, None, 0, 0;
      released, outputInUse, idleTicks, hasFormat, connected := false, false, 0, false, false;
    }

    /** One pass of the loop. */
    method Handle(e: Event) returns (ops: seq<DeviceOp>, message: Option<Message>, hook: Option<bool>)
      modifies this
      ensures (Current(), Actions(ops, message, hook)) == Step(old(Current()), e)
    {
      hide TickStep, PacketStep, PlayStep;
      ops, message, hook := [], None, None;
      match e {
        case Deadline =>
          if deadline {
            deadline, started := false, true;
            ops := [StartOutput];
          }
        case Tick(playing, deviceOpen, position, clock) =>
          ops, message, hook := OnTick(playing, deviceOpen, position, clock);
        case FormatProposed(configured, rate) =>
          ops, message, hook := OnPropose(configured, rate);
        case AudioPacket(empty, ptsNs, buffered, clock) =>
          ops, message, hook := OnPacket(empty, ptsNs, buffered, clock);
        case Play(buffers) =>
          ops, message, hook := OnPlay(buffers);
        case Pause =>
          tracker := None;
          ops := [PauseOutput, SetCorrection(0)];
        case Stop =>
          ops, message, hook := OnStop();
        case Seek =>
          tracker := None;
          ops := [FlushAndRestart, SetCorrection(0)];
        case NextTrackReformat =>
          if !released { ops := [Configure]; }
        case Connected =>
          connected := true;
        case Disconnected =>
          ops := [StopOutput];
          connected, released := false, false;
          hook := LeaveOutput();
        case Release =>
          ops, message, hook := OnRelease();
        case Other =>
      }
    }

    method Unschedule()
      modifies this
      ensures Current() == Unscheduled(old(Current()))
    {
      armed, started, deadline, tracker, lastDrift := false, false, false, None, 0;
    }

    method LeaveOutput() returns (hook: Option<bool>)
      modifies this
      ensures hook == StopHook(old(Current())) && Current() == old(Current()).(inUse := false)
    {
      hook := None;
      if outputInUse {
        outputInUse := false;
        hook := Some(false);
      }
    }

    method OnPropose(configured: bool, rate: nat) returns (ops: seq<DeviceOp>, message: Option<Message>, hook: Option<bool>)
      modifies this
      ensures (Current(), Actions(ops, message, hook)) == Step(old(Current()), FormatProposed(configured, rate))
    {
      sampleRate, released, hasFormat := rate, false, true;
      Unschedule();
      ops, message, hook := [Configure], Some(Answer(configured)), None;
    }

    method OnStop() returns (ops: seq<DeviceOp>, message: Option<Message>, hook: Option<bool>)
      modifies this
      ensures (Current(), Actions(ops, message, hook)) == Step(old(Current()), Stop)
    {
      ops, message := [StopOutput], None;
      Unschedule();
      hook := LeaveOutput();
    }

    method OnRelease() returns (ops: seq<DeviceOp>, message: Option<Message>, hook: Option<bool>)
      modifies this
      ensures (Current(), Actions(ops, message, hook)) == Step(old(Current()), Release)
    {
      ops, message := [ReleaseOutput], None;
      released := true;
      Unschedule();
      if connected { message := Some(SendRelease); }
      hook := LeaveOutput();
    }

    method OnTick(playing: bool, deviceOpen: bool, position: Option<nat>, clock: ClockView)
        returns (ops: seq<DeviceOp>, message: Option<Message>, hook: Option<bool>)
      modifies this
      ensures (Current(), Actions(ops, message, hook)) == TickStep(old(Current()), playing, deviceOpen, position, clock)
    {
      hide ServoTick;
      message, hook := None, None;
      if outputInUse && !playing && !deviceOpen {
        idleTicks := idleTicks + 1;
        if idleTicks >= 2 {
          outputInUse, idleTicks := false, 0;
          hook := Some(false);
        }
      } else {
        idleTicks := 0;
      }
      ops := Steer(position, clock);
    }

    /** The drift servo: compares where playback is with where the clock says it should be. */
    method Steer(position: Option<nat>, clock: ClockView) returns (ops: seq<DeviceOp>)
      modifies this
      ensures (Current(), ops) == ServoTick(old(Current()), position, clock)
    {
      hide Sync.DriftFrames, Sync.ShiftNs, Sync.LocalToController;
      ops := [];
      if started && tracker.Some? && position.Some? {
        var t := tracker.value;
        var now := if t.onController then Sync.LocalToController(clock.now, clock.offset) else clock.now;
        var drift := Sync.DriftFrames(t.startNs, sampleRate, now, position.value);
        var deadband := if sampleRate / 2000 >= 4 then sampleRate / 2000 else 4;
        var progress := lastDrift - drift;
        if drift > sampleRate / 2 && lastDrift != 0 && progress < sampleRate / 10 {
          tracker := Some(t.(startNs := t.startNs + Sync.ShiftNs(drift, sampleRate)));
          ops := [SetCorrection(0)];
          lastDrift := 0;
        } else if drift > deadband || -drift > deadband {
          ops := [SetCorrection(Sync.Clamp(drift, -(sampleRate as int), sampleRate))];
          lastDrift := drift;
        } else {
          ops := [SetCorrection(0)];
          lastDrift := drift;
        }
      }
    }

    method OnPlay(buffers: bool) returns (ops: seq<DeviceOp>, message: Option<Message>, hook: Option<bool>)
      modifies this
      ensures (Current(), Actions(ops, message, hook)) == PlayStep(old(Current()), buffers)
    {
      ops, message, hook := [], None, None;
      if released {
        released := false;
        if hasFormat { ops := [Configure]; }
      }
      if !outputInUse {
        outputInUse := true;
        hook := Some(true);
      }
      if started {
        ops := ops + [StartOutput];
      } else if buffers {
        armed := true;
      } else {
        started := true;
        ops := ops + [StartOutput];
      }
    }

    method OnPacket(empty: bool, ptsNs: nat, buffered: nat, clock: ClockView)
        returns (ops: seq<DeviceOp>, message: Option<Message>, hook: Option<bool>)
      modifies this
      ensures (Current(), Actions(ops, message, hook)) == PacketStep(old(Current()), empty, ptsNs, buffered, clock)
    {
      hide Sync.HeadPts, Sync.LeadNs, Sync.LocalToController, Sync.SatSub;
      ops, message, hook := [], None, None;
      if !empty && !released { ops := [WriteAudio]; }
      if armed && !started {
        armed := false;
        var head := Sync.HeadPts(ptsNs, buffered, sampleRate);
        var lead := Sync.LeadNs(head, clock.offset, clock.now);
        if clock.bootstrapped && lead > 0 && lead < Sync.LEAD_LIMIT {
          deadline := true;
          tracker := Some(Tracker(head, true));
        } else {
          started := true;
          ops := ops + [StartOutput];
          var age := Sync.SatSub(Sync.LocalToController(clock.now, clock.offset), head);
          if clock.bootstrapped && age < REALIGN_LIMIT_NS {
            tracker := Some(Tracker(head, true));
          } else {
            tracker := Some(Tracker(clock.now, false));
          }
        }
      }
    }
  }

  // ----- What the larger steps keep -----

  lemma TickFacts(s: State, playing: bool, deviceOpen: bool, position: Option<nat>, clock: ClockView)
    ensures var (t, a) := TickStep(s, playing, deviceOpen, position, clock);
            && t.armed == s.armed && t.started == s.started && t.deadline == s.deadline && t.released == s.released
            && (t.tracker.None? <==> s.tracker.None?)
            && a.hook == (if s.inUse == t.inUse then None else Some(t.inUse)) && (t.inUse ==> s.inUse)
            && forall x :: x in a.ops ==>
                 && x.SetCorrection?
                 && (x.frames != 0 ==> s.started && s.tracker.Some? && -(s.rate as int) <= x.frames <= s.rate)
  {
    hide ServoTick, IdleTick;
    IdleFacts(s, playing, deviceOpen);
    ServoFacts(IdleTick(s, playing, deviceOpen).0, position, clock);
  }

  lemma IdleFacts(s: State, playing: bool, deviceOpen: bool)
    ensures var (t, hook) := IdleTick(s, playing, deviceOpen);
            && t == s.(inUse := t.inUse, idleTicks := t.idleTicks)
            && hook == (if s.inUse == t.inUse then None else Some(t.inUse)) && (t.inUse ==> s.inUse)
  {
  }

  lemma ServoFacts(s: State, position: Option<nat>, clock: ClockView)
    ensures var (t, ops) := ServoTick(s, position, clock);
            && t == s.(tracker := t.tracker, lastDrift := t.lastDrift)
            && (t.tracker.None? <==> s.tracker.None?)
            && forall x :: x in ops ==>
                 && x.SetCorrection?
                 && (x.frames != 0 ==> s.started && s.tracker.Some? && -(s.rate as int) <= x.frames <= s.rate)
  {
    hide Sync.DriftFrames, Sync.ShiftNs, Sync.LocalToController;
  }

  lemma PacketFacts(s: State, empty: bool, ptsNs: nat, buffered: nat, clock: ClockView)
    ensures var (t, a) := PacketStep(s, empty, ptsNs, buffered, clock);
            && t.inUse == s.inUse && t.released == s.released && a.hook.None?
            && (s.started || !s.armed ==> t == s && forall x :: x in a.ops ==> x == WriteAudio && !s.released)
            && (!s.started && s.armed ==> t.tracker.Some? && (t.started || t.deadline))
            && (forall x :: x in a.ops ==> x == WriteAudio || x == StartOutput)
  {
    hide Sync.Scheduled, Sync.HeadPts, LateTracker;
  }

  lemma PlayFacts(s: State, buffers: bool)
    ensures var (t, a) := PlayStep(s, buffers);
            && !t.released && t.inUse && t.tracker == s.tracker && t.deadline == s.deadline
            && (s.started ==> t.started) && a.hook == (if s.inUse then None else Some(true))
            && (forall x :: x in a.ops ==> x == Configure || x == StartOutput)
            && (s.released && !s.started ==> (a.ops != [] <==> s.hasFormat || !buffers))
  {
  }

  // ----- Runs -----

  function Run(es: seq<Event>): State {
    if es == [] then INITIAL else Step(Run(es[..|es| - 1]), es[|es| - 1]).0
  }

  /** What the loop does on event `k` of a run. */
  function ActionsAt(es: seq<Event>, k: nat): Actions
    requires k < |es|
  {
    Step(Run(es[..k]), es[k]).1
  }

  /** The events that end a release. */
  predicate Reclaims(e: Event) { e.FormatProposed? || e.Play? || e.Seek? || e.Disconnected? }

  /** Operations that take the device another source may now own. */
  predicate UsesDevice(x: DeviceOp) {
    x.WriteAudio? || x.StartOutput? || x.Configure? || x.FlushAndRestart?
  }

  /** A released endpoint has nothing pending that could start the output or
      steer it, and no timeline outlives its start. */
  ghost predicate Quiet(s: State) {
    && (s.released ==> !s.armed && !s.started && !s.deadline && !s.inUse && s.tracker.None?)
    && (s.tracker.Some? ==> s.started || s.deadline)
  }

  lemma StepQuiet(s: State, e: Event)
    requires Quiet(s)
    ensures Quiet(Step(s, e).0)
    ensures e.Release? ==> Step(s, e).0.released
    ensures s.released && !Reclaims(e) ==>
              Step(s, e).0.released && forall x :: x in Step(s, e).1.ops ==> !UsesDevice(x)
  {
    hide TickStep, PacketStep, PlayStep;
    match e
    case Tick(playing, deviceOpen, position, clock) => TickFacts(s, playing, deviceOpen, position, clock);
    case AudioPacket(empty, ptsNs, buffered, clock) => PacketFacts(s, empty, ptsNs, buffered, clock);
    case Play(buffers) => PlayFacts(s, buffers);
    case _ =>
  }

  lemma {:induction false} RunQuiet(es: seq<Event>)
    ensures Quiet(Run(es))
  {
    hide Step;
    if es != [] {
      RunQuiet(es[..|es| - 1]);
      StepQuiet(Run(es[..|es| - 1]), es[|es| - 1]);
    }
  }

  /** In every run: after a release at `r`, and until the controller negotiates,
      plays, seeks or disconnects, no event writes audio, starts the output or
      configures the device. */
  lemma {:induction false} ReleaseIsRespected(es: seq<Event>, r: nat, k: nat)
    requires r < k < |es| && es[r].Release? && forall j :: r < j <= k ==> !Reclaims(es[j])
    ensures Run(es[..k]).released
    ensures forall x :: x in ActionsAt(es, k).ops ==> !UsesDevice(x)
  {
    hide Step, Reclaims, UsesDevice;
    RunQuiet(es[..k - 1]);
    RunQuiet(es[..k]);
    assert es[..k][..k - 1] == es[..k - 1] && es[..k][k - 1] == es[k - 1];
    if r < k - 1 {
      ReleaseIsRespected(es, r, k - 1);
    }
    StepQuiet(Run(es[..k - 1]), es[k - 1]);
    StepQuiet(Run(es[..k]), es[k]);
  }

  /** And those events do: while released, the device is taken exactly on a new
      negotiation, on a seek, and on a play that has a format to reopen with or
      an output that cannot wait. */
  lemma ReleasedUses(s: State, e: Event)
    requires s.released && Quiet(s)
    ensures (exists x :: x in Step(s, e).1.ops && UsesDevice(x)) <==>
            e.FormatProposed? || e.Seek? || (e.Play? && (s.hasFormat || !e.buffers))
  {
    hide TickStep, PacketStep, PlayStep;
    match e {
    case Tick(playing, deviceOpen, position, clock) => TickFacts(s, playing, deviceOpen, position, clock);
    case AudioPacket(empty, ptsNs, buffered, clock) => PacketFacts(s, empty, ptsNs, buffered, clock);
    case Play(buffers) => PlayFacts(s, buffers);
    case _ =>
    }
    var ops := Step(s, e).1.ops;
    if e.FormatProposed? || e.Seek? || (e.Play? && (s.hasFormat || !e.buffers)) {
      assert ops[0] in ops && UsesDevice(ops[0]);
    }
  }

  /** The hooks fired over a run, in order. */
  function Hooks(es: seq<Event>): seq<bool> {
    if es == [] then []
    else
      var hook := ActionsAt(es, |es| - 1).hook;
      Hooks(es[..|es| - 1]) + if hook.Some? then [hook.value] else []
  }

  /** Start is fired only when the output was idle, stop only when it was in use. */
  lemma StepHook(s: State, e: Event)
    ensures var (t, a) := Step(s, e);
            a.hook == if s.inUse == t.inUse then None else Some(t.inUse)
  {
    hide TickStep, PacketStep, PlayStep;
    match e
    case Tick(playing, deviceOpen, position, clock) => TickFacts(s, playing, deviceOpen, position, clock);
    case AudioPacket(empty, ptsNs, buffered, clock) => PacketFacts(s, empty, ptsNs, buffered, clock);
    case Play(buffers) => PlayFacts(s, buffers);
    case _ =>
  }

  /** In every run the hooks alternate start, stop, start, beginning with start,
      and the last one tells whether the output is in use. */
  lemma {:induction false} HooksAlternate(es: seq<Event>)
    ensures forall k :: 0 <= k < |Hooks(es)| ==> Hooks(es)[k] == (k % 2 == 0)
    ensures Run(es).inUse == (|Hooks(es)| % 2 == 1)
    decreases |es|
  {
    hide Step;
    if es != [] {
      HooksAlternate(es[..|es| - 1]);
      StepHook(Run(es[..|es| - 1]), es[|es| - 1]);
    }
  }

  // ----- The servo over runs -----

  /** A correction other than "none" comes only from the servo tick of a started
      playback with a timeline, and is at most one second of frames. */
  lemma ServoBounded(es: seq<Event>, k: nat, x: DeviceOp)
    requires k < |es| && x in ActionsAt(es, k).ops && x.SetCorrection? && x.frames != 0
    ensures var s := Run(es[..k]);
            && es[k].Tick? && s.started && s.tracker.Some? && !s.released
            && -(s.rate as int) <= x.frames <= s.rate
  {
    hide Run, TickStep, PacketStep, PlayStep;
    var s := Run(es[..k]);
    RunQuiet(es[..k]);
    match es[k]
    case Tick(playing, deviceOpen, position, clock) => TickFacts(s, playing, deviceOpen, position, clock);
    case AudioPacket(empty, ptsNs, buffered, clock) => PacketFacts(s, empty, ptsNs, buffered, clock);
    case Play(buffers) => PlayFacts(s, buffers);
    case _ =>
  }

  /** The events after which a stream starts over. */
  predicate StartsOver(e: Event) { e.FormatProposed? || e.Stop? || e.Release? }

  lemma StepUntracked(s: State, e: Event)
    requires s.started && s.tracker.None? && !StartsOver(e)
    ensures var (t, a) := Step(s, e);
            t.started && t.tracker.None?
  {
    hide TickStep, PacketStep, PlayStep;
    match e
    case Tick(playing, deviceOpen, position, clock) => TickFacts(s, playing, deviceOpen, position, clock);
    case AudioPacket(empty, ptsNs, buffered, clock) => PacketFacts(s, empty, ptsNs, buffered, clock);
    case Play(buffers) => PlayFacts(s, buffers);
    case _ =>
  }

  /** A pause or a seek of a started playback switches the servo off until a new
      negotiation, a stop or a release starts the stream over: whatever plays,
      packets and ticks come in between, no correction is queued. */
  lemma {:induction false} PauseEndsServo(es: seq<Event>, p: nat, k: nat)
    requires p < k < |es| && (es[p].Pause? || es[p].Seek?) && Run(es[..p]).started
    requires forall j :: p < j <= k ==> !StartsOver(es[j])
    ensures Run(es[..k]).started && Run(es[..k]).tracker.None?
    ensures forall x :: x in ActionsAt(es, k).ops && x.SetCorrection? ==> x.frames == 0
  {
    hide TickStep, PacketStep, PlayStep;
    assert es[..k][..k - 1] == es[..k - 1] && es[..k][k - 1] == es[k - 1];
    if p < k - 1 {
      PauseEndsServo(es, p, k - 1);
      StepUntracked(Run(es[..k - 1]), es[k - 1]);
    }
    forall x | x in ActionsAt(es, k).ops && x.SetCorrection? ensures x.frames == 0 {
      if x.frames != 0 { ServoBounded(es, k, x); }
    }
  }

  /** The packet that arms a start gives the servo the stream's own start time,
      to within the stamping slack, whichever packet it is. */
  lemma ArmingTracksStart(s: State, e: Event, frames: nat, t0: nat, slack: nat)
    requires e.AudioPacket? && s.armed && !s.started && s.rate >= 1
    requires e.buffered == frames && Sync.StampedAt(e.ptsNs, frames, t0, s.rate, slack)
    ensures var t := Step(s, e).0.tracker;
            && t.Some?
            && (t.value.onController ==> -(slack as int) <= t.value.startNs - t0 <= slack)
            && (Step(s, e).0.deadline && !s.deadline ==> t.value.onController)
  {
    hide Sync.HeadPts, Sync.LeadNs, Sync.LocalToController, Sync.StampedAt;
    Sync.HeadIsStart(e.ptsNs, frames, t0, s.rate, slack);
  }

  /** A tick that finds the catch-up stalled moves the timeline so that the drift
      measured again at that instant is rounding alone, if and only if the shift
      fits 64 bits. */
  lemma TickRebases(s: State, e: Event)
    requires e.Tick? && s.started && s.tracker.Some? && e.position.Some? && 1 <= s.rate < 0x1_0000_0000
    requires var t := s.tracker.value;
             Sync.Stalled(Sync.DriftFrames(t.startNs, s.rate, TrackerNow(t, e.clock), e.position.value), s.lastDrift, s.rate)
    ensures var t, t' := s.tracker.value, Step(s, e).0.tracker;
            var now := TrackerNow(t, e.clock);
            var d := Sync.DriftFrames(t.startNs, s.rate, now, e.position.value);
            && t'.Some? && t'.value.startNs <= now
            && (0 <= Sync.DriftFrames(t'.value.startNs, s.rate, now, e.position.value) <= 1 + (s.rate - 1) / Sync.NS
                <==> d * Sync.NS < TWO64)
  {
    hide Sync.DriftFrames, Sync.ShiftNs, Sync.LocalToController, IdleTick;
    IdleFacts(s, e.playing, e.deviceOpen);
    var t := s.tracker.value;
    Sync.RebaseResidual(Sync.Servo(t.startNs, s.lastDrift), s.rate, TrackerNow(t, e.clock), e.position.value);
  }
}
