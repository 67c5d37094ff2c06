/** Deferred FormatAccept: the accept for a proposal is withheld until the
    application reports the device ready, with a 5 s fail-open. Each deferred
    accept carries a ticket, so that runs can be told apart. */
module DeferredAccept {
  import opened Bytes

  const FAIL_OPEN_MS: nat := 5000

  datatype Verdict = Accept | Counter | Reject

  /** A message from the application to the controller. */
  datatype AppMessage = EndpointRelease | Answer(sid: string, accept: bool) | Report

  datatype Event =
    | Propose(proposed: string, verdict: Verdict, now: nat)
    | FromApp(message: AppMessage)
    | Timer(now: nat)
    | Close

  /** What is written to the controller. */
  datatype Written =
    | Immediate(stream: string, verdict: Verdict)
    | AutoAccept(stream: string, ticket: nat)
    | Confirmed(stream: string, accept: bool)
    | Forwarded(message: AppMessage)

  datatype How = ByConfirmation | ByTimeout | ByRelease | BySupersession | BySessionEnd

  datatype Mark = Opened(ticket: nat, sid: string) | Ended(ticket: nat, how: How)

  datatype Pending = Pending(sid: string, ticket: nat, deadline: nat)

  datatype State = State(pending: Option<Pending>, tickets: nat, open: bool)

  const INITIAL := State(None, 0, true)

  datatype Config = Config(defers: bool, releaseHandled: bool)

  datatype Result = Result(state: State, written: seq<Written>, marks: seq<Mark>)

  /** Ends the outstanding accept, if any. */
  function End(s: State, how: How): seq<Mark> {
    if s.pending.Some? then [Ended(s.pending.value.ticket, how)] else []
  }

  function Step(cfg: Config, s: State, e: Event): Result {
    if !s.open then Result(s, [], [])
    else match e
      case Propose(sid, verdict, now) =>
        if cfg.defers && verdict.Accept? then
          Result(s.(pending := Some(Pending(sid, s.tickets, now + FAIL_OPEN_MS)), tickets := s.tickets + 1),
                 [], End(s, BySupersession) + [Opened(s.tickets, sid)])
        else Result(s, [Immediate(sid, verdict)], [])
      case FromApp(EndpointRelease) =>
        Result(s.(pending := None), if cfg.releaseHandled then [Forwarded(EndpointRelease)] else [], End(s, ByRelease))
      case FromApp(m) =>
        if s.pending.None? then Result(s, [Forwarded(m)], [])
        else if m.Answer? && m.sid == s.pending.value.sid then
          Result(s.(pending := None), [Confirmed(m.sid, m.accept)], End(s, ByConfirmation))
        else Result(s, [], [])
      case Timer(now) =>
        if s.pending.Some? && now >= s.pending.value.deadline then
          Result(s.(pending := None), [AutoAccept(s.pending.value.sid, s.pending.value.ticket)], End(s, ByTimeout))
        else Result(s, [], [])
      case Close => Result(s.(pending := None, open := false), [], End(s, BySessionEnd))
  }

  class Session {
    const cfg: Config
    var pendingAccept: Option<Pending>
    var open: bool
    /** Numbers the deferrals; only the history reads it. */
    var tickets: nat
    ghost var Marks: seq<Mark>

    function Current(): State
      reads this
    {
      State(pendingAccept, tickets, open)
    }

    constructor (cfg: Config)
      ensures Current() == INITIAL && this.cfg == cfg && Marks == []
    {
      this.cfg := cfg;
      pendingAccept, open, tickets, Marks := None, true, 0, [];
    }

    /** One pass of the session's select loop. */
    method Handle(e: Event) returns (written: seq<Written>)
      modifies this
      ensures var r := Step(cfg, old(Current()), e);
              Current() == r.state && written == r.written && Marks == old(Marks) + r.marks
    {
      ghost var r := Step(cfg, Current(), e);
      written := [];
      if open {
        match e {
          case Propose(sid, verdict, now) =>
            var deferred := cfg.defers && verdict.Accept?;
            if !deferred {
              written := [Immediate(sid, verdict)];
            }
            if deferred {
              pendingAccept := Some(Pending(sid, tickets, now + FAIL_OPEN_MS));
              tickets := tickets + 1;
            }
          case FromApp(m) =>
            if m.EndpointRelease? {
              pendingAccept := None;
              if cfg.releaseHandled {
                written := [Forwarded(m)];
              }
            } else {
              var resolves := pendingAccept.Some? && m.Answer? && m.sid == pendingAccept.value.sid;
              if resolves {
                pendingAccept := None;
                written := [Confirmed(m.sid, m.accept)];
              } else if pendingAccept.Some? {
              } else {
                written := [Forwarded(m)];
              }
            }
          case Timer(now) =>
            if pendingAccept.Some? && now >= pendingAccept.value.deadline {
              written := [AutoAccept(pendingAccept.value.sid, pendingAccept.value.ticket)];
              pendingAccept := None;
            }
          case Close =>
            pendingAccept, open := None, false;
        }
      }
      Marks := Marks + r.marks;
    }
  }

  // ----- Runs -----

  function Run(cfg: Config, es: seq<Event>): State {
    if es == [] then INITIAL else Step(cfg, Run(cfg, es[..|es| - 1]), es[|es| - 1]).state
  }

  function History(cfg: Config, es: seq<Event>): seq<Mark> {
    if es == [] then []
    else
      var front := es[..|es| - 1];
      History(cfg, front) + Step(cfg, Run(cfg, front), es[|es| - 1]).marks
  }

  function WrittenAt(cfg: Config, es: seq<Event>, k: nat): seq<Written>
    requires k < |es|
  {
    Step(cfg, Run(cfg, es[..k]), es[k]).written
  }

  /** The history is opened 0, ended 0, opened 1, ended 1, and so on. */
  ghost predicate InTurn(marks: seq<Mark>, i: nat)
    requires i < |marks|
  {
    if i % 2 == 0 then marks[i].Opened? && marks[i].ticket == i / 2
    else marks[i].Ended? && marks[i].ticket == i / 2
  }

  /** History and state agree: an accept is outstanding exactly when the last
      mark opened it. */
  ghost predicate Agrees(s: State, marks: seq<Mark>) {
    && (forall i :: 0 <= i < |marks| ==> InTurn(marks, i))
    && s.tickets == (|marks| + 1) / 2
    && (s.pending.Some? <==> |marks| % 2 == 1)
    && (s.pending.Some? ==>
          var last := marks[|marks| - 1];
          last.Opened? && last.ticket == s.pending.value.ticket && last.sid == s.pending.value.sid)
  }

  lemma MarkNext(marks: seq<Mark>, m: Mark)
    requires forall i :: 0 <= i < |marks| ==> InTurn(marks, i)
    requires m.ticket == |marks| / 2 && (if |marks| % 2 == 0 then m.Opened? else m.Ended?)
    ensures forall i :: 0 <= i < |marks + [m]| ==> InTurn(marks + [m], i)
  {
    var all := marks + [m];
    forall i | 0 <= i < |all| ensures InTurn(all, i) {
      if i < |marks| { assert InTurn(marks, i); }
    }
  }

  lemma StepAgrees(cfg: Config, s: State, e: Event, marks: seq<Mark>)
    requires Agrees(s, marks)
    ensures Agrees(Step(cfg, s, e).state, marks + Step(cfg, s, e).marks)
  {
    var r := Step(cfg, s, e);
    if r.marks == [] {
      assert marks + [] == marks;
    } else {
      var first := r.marks[0];
      if s.pending.Some? { assert InTurn(marks, |marks| - 1); }
      MarkNext(marks, first);
      if |r.marks| == 2 {
        MarkNext(marks + [first], r.marks[1]);
        assert marks + r.marks == (marks + [first]) + [r.marks[1]];
      } else {
        assert r.marks == [first];
      }
    }
  }

  /** In every run at most one accept is outstanding, tickets are issued in
      order, and each one issued ends exactly once before the next. */
  lemma {:induction false} AcceptsTakeTurns(cfg: Config, es: seq<Event>)
    ensures Agrees(Run(cfg, es), History(cfg, es))
  {
    hide Step, Agrees;
    if es == [] {
      assert Agrees(INITIAL, []) by { AgreesAtStart(); }
    } else {
      AcceptsTakeTurns(cfg, es[..|es| - 1]);
      StepAgrees(cfg, Run(cfg, es[..|es| - 1]), es[|es| - 1], History(cfg, es[..|es| - 1]));
    }
  }

  lemma AgreesAtStart()
    ensures Agrees(INITIAL, [])
  {
  }

  /** No ticket ends twice, and none ends in two ways. */
  lemma EndsOnce(cfg: Config, es: seq<Event>, i: nat, j: nat)
    requires i < j < |History(cfg, es)|
    requires History(cfg, es)[i].Ended? && History(cfg, es)[j].Ended?
    ensures History(cfg, es)[i].ticket < History(cfg, es)[j].ticket
  {
    hide Step, History;
    AcceptsTakeTurns(cfg, es);
    var h := History(cfg, es);
    assert InTurn(h, i) && InTurn(h, j);
  }

  /** The stream of the latest proposal the endpoint accepted. */
  function LatestAccepted(es: seq<Event>): Option<string> {
    if es == [] then None
    else
      var e := es[|es| - 1];
      if e.Propose? && e.verdict.Accept? then Some(e.proposed) else LatestAccepted(es[..|es| - 1])
  }

  /** The outstanding accept belongs to the latest accepted proposal. */
  lemma {:induction false} PendingIsLatest(cfg: Config, es: seq<Event>)
    ensures var s := Run(cfg, es);
            s.pending.Some? ==> cfg.defers && LatestAccepted(es) == Some(s.pending.value.sid)
    ensures !Run(cfg, es).open ==> Run(cfg, es).pending.None?
    decreases |es|
  {
    if es != [] { PendingIsLatest(cfg, es[..|es| - 1]); }
  }

  /** While an accept is outstanding, the only format answer of the application
      that reaches the controller is the one for its own stream. */
  lemma AnswersMatch(cfg: Config, es: seq<Event>, k: nat, w: Written)
    requires k < |es| && Run(cfg, es[..k]).pending.Some? && w in WrittenAt(cfg, es, k)
    ensures !(w.Forwarded? && w.message.Answer?)
    ensures w.Confirmed? ==> LatestAccepted(es[..k]) == Some(w.stream)
  {
    PendingIsLatest(cfg, es[..k]);
  }

  /** An auto accept is written only by the timer, 5 s after its proposal. */
  lemma AutoAcceptIsTimeout(cfg: Config, es: seq<Event>, k: nat, w: Written)
    requires k < |es| && w in WrittenAt(cfg, es, k) && w.AutoAccept?
    ensures es[k].Timer? && Run(cfg, es[..k]).pending.Some?
    ensures var p := Run(cfg, es[..k]).pending.value;
            w.stream == p.sid && w.ticket == p.ticket && es[k].now >= p.deadline
  {
  }

  lemma {:induction false} DeadlineIsFiveSeconds(cfg: Config, es: seq<Event>) returns (k: nat)
    requires Run(cfg, es).pending.Some?
    ensures var p := Run(cfg, es).pending.value;
            && k < |es| && es[k].Propose? && es[k].verdict.Accept?
            && es[k].proposed == p.sid && p.deadline == es[k].now + 5000
    decreases |es|
  {
    var n := |es| - 1;
    var before := Run(cfg, es[..n]);
    if before.open && es[n].Propose? && cfg.defers && es[n].verdict.Accept? {
      k := n;
    } else {
      k := DeadlineIsFiveSeconds(cfg, es[..n]);
    }
  }

  /** After a release nothing is outstanding until a new proposal is accepted,
      so no auto accept is written before one. */
  lemma {:induction false} NoAcceptAfterRelease(cfg: Config, es: seq<Event>, r: nat, k: nat)
    requires r < k < |es| && es[r] == FromApp(EndpointRelease)
    requires forall j :: r < j <= k ==> !(es[j].Propose? && es[j].verdict.Accept?)
    ensures Run(cfg, es[..k]).pending.None?
    ensures forall w :: w in WrittenAt(cfg, es, k) ==> !w.AutoAccept?
  {
    PendingIsLatest(cfg, es[..r]);
    assert es[..k][..k - 1] == es[..k - 1];
    if r < k - 1 {
      NoAcceptAfterRelease(cfg, es, r, k - 1);
    }
  }

  // ----- How many answers a proposal gets -----

  predicate AnswersStream(w: Written, sid: string) {
    match w
    case Immediate(s, _) => s == sid
    case AutoAccept(s, _) => s == sid
    case Confirmed(s, _) => s == sid
    case Forwarded(m) => m.Answer? && m.sid == sid
  }

  function CountIn(ws: seq<Written>, sid: string): nat {
    if ws == [] then 0
    else CountIn(ws[..|ws| - 1], sid) + if AnswersStream(ws[|ws| - 1], sid) then 1 else 0
  }

  /** Answers for a stream written to the controller over a run. */
  function Answers(cfg: Config, es: seq<Event>, sid: string): nat {
    if es == [] then 0
    else
      var front := es[..|es| - 1];
      Answers(cfg, front, sid) + CountIn(Step(cfg, Run(cfg, front), es[|es| - 1]).written, sid)
  }

  ghost predicate Proposes(e: Event, sid: string) { e.Propose? && e.proposed == sid }

  ghost predicate Answering(e: Event, sid: string) { e.FromApp? && e.message.Answer? && e.message.sid == sid }

  /** The stream is proposed once, at `i`, while the session is open, and the
      application answers it once, at `j`, afterwards. */
  ghost predicate AskedOnce(cfg: Config, es: seq<Event>, sid: string, i: nat, j: nat) {
    && i < j < |es|
    && (forall k :: 0 <= k < |es| ==> (Proposes(es[k], sid) <==> k == i))
    && (forall k :: 0 <= k < |es| ==> (Answering(es[k], sid) <==> k == j))
    && Run(cfg, es[..i]).open
  }

  ghost predicate Outstanding(s: State, sid: string) { s.pending.Some? && s.pending.value.sid == sid }

  /** The fail-open timer answers for the stream at step `t`. */
  ghost predicate Fires(cfg: Config, es: seq<Event>, sid: string, t: nat)
    requires t < |es|
  {
    var s := Run(cfg, es[..t]);
    s.open && es[t].Timer? && Outstanding(s, sid) && es[t].now >= s.pending.value.deadline
  }

  ghost predicate FiredBy(cfg: Config, es: seq<Event>, sid: string, m: nat)
    requires m <= |es|
  {
    exists t :: 0 <= t < m && Fires(cfg, es, sid, t)
  }

  ghost predicate DefersAt(cfg: Config, es: seq<Event>, i: nat)
    requires i < |es|
  {
    cfg.defers && es[i].Propose? && es[i].verdict.Accept?
  }

  /** The application's answer at `j` reaches the controller: the session is open
      and either nothing is outstanding or this very stream is. */
  ghost predicate GoesThrough(cfg: Config, es: seq<Event>, sid: string, j: nat)
    requires j < |es|
  {
    var s := Run(cfg, es[..j]);
    s.open && (s.pending.None? || s.pending.value.sid == sid)
  }

  function Unit(b: bool): nat { if b then 1 else 0 }

  /** What one step writes about a stream. */
  lemma StepAnswers(cfg: Config, s: State, e: Event, sid: string)
    ensures CountIn(Step(cfg, s, e).written, sid) ==
            Unit(s.open && Proposes(e, sid) && !(cfg.defers && e.verdict.Accept?)) +
            Unit(s.open && Answering(e, sid) && (s.pending.None? || s.pending.value.sid == sid)) +
            Unit(s.open && e.Timer? && Outstanding(s, sid) && e.now >= s.pending.value.deadline)
  {
    var w := Step(cfg, s, e).written;
    assert |w| <= 1;
    if |w| == 1 { assert w[..0] == []; }
  }

  /** When the stream becomes or stays outstanding. */
  lemma StepOutstanding(cfg: Config, s: State, e: Event, sid: string)
    requires s.open
    ensures var s' := Step(cfg, s, e).state;
            && (Proposes(e, sid) && cfg.defers && e.verdict.Accept? ==> Outstanding(s', sid))
            && (Outstanding(s', sid) && !Proposes(e, sid) ==>
                  Outstanding(s, sid) && !Answering(e, sid) && !(e.Timer? && e.now >= s.pending.value.deadline))
            && (Outstanding(s', sid) && Proposes(e, sid) ==> Outstanding(s, sid) || (cfg.defers && e.verdict.Accept?))
  {
  }

  lemma RunStep(cfg: Config, es: seq<Event>, m: nat)
    requires m < |es|
    ensures Run(cfg, es[..m + 1]) == Step(cfg, Run(cfg, es[..m]), es[m]).state
    ensures forall sid :: Answers(cfg, es[..m + 1], sid) ==
                          Answers(cfg, es[..m], sid) + CountIn(Step(cfg, Run(cfg, es[..m]), es[m]).written, sid)
  {
    assert es[..m + 1][..m] == es[..m];
  }

  /** The account after `m` events: the stream is outstanding at most between its
      proposal and its answer, and not after its timer fired. */
  ghost predicate Account(cfg: Config, es: seq<Event>, sid: string, i: nat, j: nat, m: nat)
    requires i < j < |es| && m <= |es|
  {
    var s := Run(cfg, es[..m]);
    && (Outstanding(s, sid) ==> DefersAt(cfg, es, i) && i < m <= j && !FiredBy(cfg, es, sid, m))
    && (FiredBy(cfg, es, sid, m) ==> DefersAt(cfg, es, i) && i < m)
    && Answers(cfg, es[..m], sid) ==
       Unit(i < m && !DefersAt(cfg, es, i)) + Unit(FiredBy(cfg, es, sid, m)) + Unit(j < m && GoesThrough(cfg, es, sid, j))
  }

  lemma {:induction false} Accounts(cfg: Config, es: seq<Event>, sid: string, i: nat, j: nat, m: nat)
    requires AskedOnce(cfg, es, sid, i, j) && m <= |es|
    ensures Account(cfg, es, sid, i, j, m)
  {
    hide Step, Run, Answers, CountIn, FiredBy;
    if m == 0 {
      NothingYet(cfg, es, sid);
    } else {
      Accounts(cfg, es, sid, i, j, m - 1);
      var s, e := Run(cfg, es[..m - 1]), es[m - 1];
      RunStep(cfg, es, m - 1);
      StepAnswers(cfg, s, e, sid);
      FiredNext(cfg, es, sid, m - 1);
      assert (Proposes(e, sid) <==> m - 1 == i) && (Answering(e, sid) <==> m - 1 == j);
      PendingIsLatest(cfg, es[..m - 1]);
      if s.open {
        StepOutstanding(cfg, s, e, sid);
      } else {
        StaysClosed(cfg, s, e);
      }
    }
  }

  lemma NothingYet(cfg: Config, es: seq<Event>, sid: string)
    ensures Run(cfg, es[..0]) == INITIAL && Answers(cfg, es[..0], sid) == 0 && !FiredBy(cfg, es, sid, 0)
  {
    assert es[..0] == [];
  }

  lemma StaysClosed(cfg: Config, s: State, e: Event)
    requires !s.open
    ensures Step(cfg, s, e).state == s
  {
  }

  lemma FiredNext(cfg: Config, es: seq<Event>, sid: string, m: nat)
    requires m < |es|
    ensures FiredBy(cfg, es, sid, m + 1) <==> FiredBy(cfg, es, sid, m) || Fires(cfg, es, sid, m)
  {
    hide Fires;
    if FiredBy(cfg, es, sid, m) {
      var t :| 0 <= t < m && Fires(cfg, es, sid, t);
    }
  }

  /** The number of answers, for every run: the immediate one or the fail-open
      one, and the application's own if it goes through. */
  lemma AnswerCount(cfg: Config, es: seq<Event>, sid: string, i: nat, j: nat)
    requires AskedOnce(cfg, es, sid, i, j)
    ensures Answers(cfg, es, sid) ==
            Unit(!DefersAt(cfg, es, i) || FiredBy(cfg, es, sid, |es|)) + Unit(GoesThrough(cfg, es, sid, j))
  {
    hide Step, Run, Answers, FiredBy;
    Accounts(cfg, es, sid, i, j, |es|);
    assert es[..|es|] == es;
  }

  /** A stream gets two answers if and only if the first was immediate or came
      from the timer before the application's, and nothing is outstanding in an
      open session when the application's comes. */
  lemma SecondAnswer(cfg: Config, es: seq<Event>, sid: string, i: nat, j: nat)
    requires AskedOnce(cfg, es, sid, i, j)
    ensures Answers(cfg, es, sid) <= 2
    ensures Answers(cfg, es, sid) == 2 <==>
            && (!DefersAt(cfg, es, i) || FiredBy(cfg, es, sid, j))
            && Run(cfg, es[..j]).open && Run(cfg, es[..j]).pending.None?
  {
    hide Step, Run, Answers;
    AnswerCount(cfg, es, sid, i, j);
    Accounts(cfg, es, sid, i, j, j);
    FiredEarly(cfg, es, sid, i, j, |es|);
  }

  /** The timer fires for the stream before the application answers, or never. */
  lemma {:induction false} FiredEarly(cfg: Config, es: seq<Event>, sid: string, i: nat, j: nat, m: nat)
    requires AskedOnce(cfg, es, sid, i, j) && j <= m <= |es|
    ensures FiredBy(cfg, es, sid, m) <==> FiredBy(cfg, es, sid, j)
  {
    hide Step, Run, Answers, FiredBy;
    if m > j {
      FiredEarly(cfg, es, sid, i, j, m - 1);
      FiredNext(cfg, es, sid, m - 1);
      Accounts(cfg, es, sid, i, j, m - 1);
      assert !es[j].Timer?;
    }
  }

  /** An application answer is forwarded as it is exactly if the session is open
      and nothing is outstanding. */
  lemma ForwardedExactly(cfg: Config, es: seq<Event>, k: nat)
    requires k < |es| && es[k].FromApp? && es[k].message.Answer?
    ensures Forwarded(es[k].message) in WrittenAt(cfg, es, k) <==>
            Run(cfg, es[..k]).open && Run(cfg, es[..k]).pending.None?
  {
  }

  /** Two answers after the fail-open: proposal, timer, late confirmation. */
  lemma LateAnswerForwarded(cfg: Config, sid: string, now: nat)
    requires cfg.defers
    ensures var es := [Propose(sid, Accept, now), Timer(now + 5000), FromApp(Answer(sid, true))];
            && WrittenAt(cfg, es, 1) == [AutoAccept(sid, 0)]
            && WrittenAt(cfg, es, 2) == [Forwarded(Answer(sid, true))]
  {
    var es := [Propose(sid, Accept, now), Timer(now + 5000), FromApp(Answer(sid, true))];
    assert es[..1][..0] == [] && es[..2][..1] == es[..1];
    assert Run(cfg, es[..1]) == Step(cfg, INITIAL, es[0]).state;
  }

  /** Two answers to a proposal that was countered or rejected at once: the
      application hears of it all the same, and its answer is forwarded. */
  lemma CounteredThenAnswered(cfg: Config, sid: string, verdict: Verdict, now: nat, accept: bool)
    requires !verdict.Accept? || !cfg.defers
    ensures var es := [Propose(sid, verdict, now), FromApp(Answer(sid, accept))];
            && WrittenAt(cfg, es, 0) == [Immediate(sid, verdict)]
            && WrittenAt(cfg, es, 1) == [Forwarded(Answer(sid, accept))]
  {
    var es := [Propose(sid, verdict, now), FromApp(Answer(sid, accept))];
    assert es[..0] == [] && es[..1][..0] == [];
    assert Run(cfg, es[..1]) == Step(cfg, INITIAL, es[0]).state;
  }

  // ----- What is written, told by the events alone -----

  /** The event settles what the proposal `p` waits for. */
  ghost predicate Settles(e: Event, p: Event) {
    || (e.Propose? && e.verdict.Accept?)
    || e == FromApp(EndpointRelease)
    || (p.Propose? && Answering(e, p.proposed))
    || (p.Propose? && e.Timer? && e.now >= p.now + 5000)
    || e.Close?
  }

  ghost predicate ClosedBefore(es: seq<Event>, k: nat)
    requires k <= |es|
  {
    exists j :: 0 <= j < k && es[j].Close?
  }

  /** The proposal at `p` was accepted, is withheld, and nothing has settled it. */
  ghost predicate Awaits(cfg: Config, es: seq<Event>, p: nat, k: nat)
    requires p < k <= |es|
  {
    && cfg.defers && es[p].Propose? && es[p].verdict.Accept? && !ClosedBefore(es, p)
    && forall j :: p < j < k ==> !Settles(es[j], es[p])
  }

  /** State and history agree on what is outstanding. */
  ghost predicate PendingAsTold(cfg: Config, s: State, es: seq<Event>, k: nat)
    requires k <= |es|
  {
    && (s.open <==> !ClosedBefore(es, k))
    && (s.pending.Some? ==> exists p :: 0 <= p < k && Awaits(cfg, es, p, k))
    && (forall p :: 0 <= p < k && Awaits(cfg, es, p, k) ==>
          && es[p].Propose? && s.pending.Some? && s.pending.value.sid == es[p].proposed && s.pending.value.deadline == es[p].now + 5000)
  }

  lemma ClosedNext(es: seq<Event>, k: nat, m: nat)
    requires k < |es| && m == k + 1
    ensures ClosedBefore(es, m) <==> ClosedBefore(es, k) || es[k].Close?
  {
    if ClosedBefore(es, k) { var j :| 0 <= j < k && es[j].Close?; }
  }

  lemma AwaitsNext(cfg: Config, es: seq<Event>, p: nat, k: nat, m: nat)
    requires p <= k < |es| && m == k + 1
    ensures Awaits(cfg, es, p, m) <==>
            if p == k then cfg.defers && es[k].Propose? && es[k].verdict.Accept? && !ClosedBefore(es, k)
            else Awaits(cfg, es, p, k) && !Settles(es[k], es[p])
  {
  }

  lemma {:induction false} PendingTold(cfg: Config, es: seq<Event>, k: nat)
    requires k <= |es|
    ensures PendingAsTold(cfg, Run(cfg, es[..k]), es, k)
  {
    hide Step, PendingAsTold;
    if k == 0 {
      assert es[..0] == [];
      NonePending(cfg, es);
    } else {
      PendingTold(cfg, es, k - 1);
      PendingIsLatest(cfg, es[..k - 1]);
      RunStep(cfg, es, k - 1);
      PendingStep(cfg, Run(cfg, es[..k - 1]), es, k - 1, k);
    }
  }

  lemma NonePending(cfg: Config, es: seq<Event>)
    ensures PendingAsTold(cfg, INITIAL, es, 0)
  {
  }

  lemma PendingStep(cfg: Config, s: State, es: seq<Event>, k: nat, m: nat)
    requires k < |es| && m == k + 1 && PendingAsTold(cfg, s, es, k)
    requires !s.open ==> s.pending.None?
    ensures PendingAsTold(cfg, Step(cfg, s, es[k]).state, es, m)
  {
    hide Awaits, ClosedBefore;
    ClosedNext(es, k, m);
    forall p | 0 <= p < m
      ensures Awaits(cfg, es, p, m) <==>
              if p == k then cfg.defers && es[k].Propose? && es[k].verdict.Accept? && !ClosedBefore(es, k)
              else Awaits(cfg, es, p, k) && !Settles(es[k], es[p])
    {
      AwaitsNext(cfg, es, p, k, m);
    }
    var t := Step(cfg, s, es[k]).state;
    if t.pending.Some? && !(es[k].Propose? && es[k].verdict.Accept? && cfg.defers && s.open) {
      var p :| 0 <= p < k && Awaits(cfg, es, p, k);
      AwaitsProposal(cfg, es, p, k);
      assert Awaits(cfg, es, p, m);
    } else if t.pending.Some? {
      assert Awaits(cfg, es, k, m);
    }
  }

  lemma AwaitsProposal(cfg: Config, es: seq<Event>, p: nat, k: nat)
    requires p < k <= |es| && Awaits(cfg, es, p, k)
    ensures cfg.defers && es[p].Propose? && es[p].verdict.Accept?
  {
  }

  /** The accept awaited after `k` events is the one of this stream. */
  ghost predicate AwaitedFor(cfg: Config, es: seq<Event>, k: nat, sid: string)
    requires k <= |es|
  {
    exists p :: 0 <= p < k && Awaits(cfg, es, p, k) && es[p].Propose? && es[p].proposed == sid
  }

  ghost predicate NothingAwaited(cfg: Config, es: seq<Event>, k: nat)
    requires k <= |es|
  {
    forall p :: 0 <= p < k ==> !Awaits(cfg, es, p, k)
  }

  /** What event `k` of a run writes, exactly, told by the events before it. */
  lemma WritesExactly(cfg: Config, es: seq<Event>, k: nat)
    requires k < |es|
    ensures var w := WrittenAt(cfg, es, k);
            if ClosedBefore(es, k) then w == []
            else match es[k]
              case Propose(sid, verdict, _) =>
                w == if cfg.defers && verdict.Accept? then [] else [Immediate(sid, verdict)]
              case FromApp(EndpointRelease) => w == if cfg.releaseHandled then [Forwarded(EndpointRelease)] else []
              case FromApp(Report) => w == if NothingAwaited(cfg, es, k) then [Forwarded(Report)] else []
              case FromApp(Answer(sid, accept)) =>
                w == if NothingAwaited(cfg, es, k) then [Forwarded(Answer(sid, accept))]
                     else if AwaitedFor(cfg, es, k, sid) then [Confirmed(sid, accept)]
                     else []
              case Timer(now) =>
                && (NothingAwaited(cfg, es, k) ==> w == [])
                && (forall p :: 0 <= p < k && Awaits(cfg, es, p, k) ==>
                      && es[p].Propose?
                      && (now < es[p].now + 5000 ==> w == [])
                      && (now >= es[p].now + 5000 ==> |w| == 1 && w[0].AutoAccept? && w[0].stream == es[p].proposed))
              case Close => w == []
  {
    hide Run, Awaits, ClosedBefore;
    PendingTold(cfg, es, k);
    var s := Run(cfg, es[..k]);
    if s.pending.Some? {
      var p :| 0 <= p < k && Awaits(cfg, es, p, k);
      assert AwaitedFor(cfg, es, k, s.pending.value.sid);
    }
  }
}
