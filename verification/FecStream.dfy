/** What the receive loop makes of a stream of any number of groups. */
module FecStreams {
  import opened Bytes
  import opened Packets
  import opened FecEncoding
  import opened FecReceiving
  import opened FecGroups
  import opened AudioLoop
  import opened Datagrams

  // ----- Whole streams -----

  /** A channel that keeps groups in order and repeats nothing. What it loses,
      and the order inside a group, are free. */
  ghost predicate Channels(gs: seq<Group>, arrs: seq<seq<nat>>) {
    |gs| == |arrs| && forall k :: 0 <= k < |gs| ==> Arrivals(gs[k], arrs[k])
  }

  /** Everything that arrives, group after group. */
  ghost function Arrived(gs: seq<Group>, arrs: seq<seq<nat>>): seq<Packet>
    requires Channels(gs, arrs)
  {
    if gs == [] then []
    else
      var k := |gs| - 1;
      Arrived(gs[..k], arrs[..k]) + Received(gs[k], arrs[k])
  }

  ghost function Lost(gs: seq<Group>, arrs: seq<seq<nat>>): int
    requires Channels(gs, arrs)
  {
    if gs == [] then 0 else Lost(gs[..|gs| - 1], arrs[..|gs| - 1]) + LostIn(gs[|gs| - 1], arrs[|gs| - 1])
  }

  ghost function Recovered(gs: seq<Group>, arrs: seq<seq<nat>>): nat
    requires Channels(gs, arrs)
  {
    if gs == [] then 0 else Recovered(gs[..|gs| - 1], arrs[..|gs| - 1]) + RecoveredIn(gs[|gs| - 1], arrs[|gs| - 1])
  }

  ghost predicate Outcomes(outs: seq<seq<Packet>>, gs: seq<Group>, arrs: seq<seq<nat>>)
    requires Channels(gs, arrs)
  {
    |outs| == |gs| && forall k :: 0 <= k < |gs| ==> Outcome(outs[k], gs[k], arrs[k])
  }

  /** The receiver's memory after a stream. */
  ghost function Remembers(gs: seq<Group>, arrs: seq<seq<nat>>): Memory
    requires Channels(gs, arrs)
  {
    if gs == [] then Memory(None, None)
    else
      var k := |gs| - 1;
      Remembering(Remembers(gs[..k], arrs[..k]), gs[k], arrs[k])
  }

  /** Each group is well sent, and new to the receiver when it comes. */
  ghost predicate Stream(gs: seq<Group>, arrs: seq<seq<nat>>) {
    Channels(gs, arrs) && forall k :: 0 <= k < |gs| ==> StreamAt(gs, arrs, k)
  }

  ghost predicate StreamAt(gs: seq<Group>, arrs: seq<seq<nat>>, k: nat)
    requires Channels(gs, arrs) && k < |gs|
  {
    WellSent(gs[k]) && !Flagged(gs[k].parity) && NewTo(Remembers(gs[..k], arrs[..k]), gs[k], arrs[k])
  }

  lemma StreamPrefix(gs: seq<Group>, arrs: seq<seq<nat>>, m: nat)
    requires Stream(gs, arrs) && m <= |gs|
    ensures Stream(gs[..m], arrs[..m])
    ensures m < |gs| ==> Arrivals(gs[m], arrs[m]) && StreamAt(gs, arrs, m)
  {
    hide WellSent, Remembers, Arrivals, NewTo;
    var g, a := gs[..m], arrs[..m];
    forall k | 0 <= k < m ensures Arrivals(g[k], a[k]) && StreamAt(g, a, k) {
      assert g[..k] == gs[..k] && a[..k] == arrs[..k];
      assert StreamAt(gs, arrs, k) && Arrivals(gs[k], arrs[k]);
    }
  }

  /** A fresh receiver over the packets of a whole stream that are not dropped,
      under any losses, any order inside a group and any flags. */
  lemma {:induction false} StreamProcessed(gs: seq<Group>, arrs: seq<seq<nat>>)
      returns (rx: Rx, got: seq<Packet>, outs: seq<seq<Packet>>)
    requires Stream(gs, arrs)
    ensures AllAcceptable(Arrived(gs, arrs))
    ensures ProcessAll(FRESH, Arrived(gs, arrs)) == (rx, got) && Valid(rx)
    ensures MemoryOf(rx) == Remembers(gs, arrs)
    ensures |outs| == |gs| && Outcomes(outs, gs, arrs)
    ensures got + Flush(rx).1 == Concat(outs)
    ensures Flush(rx).0.lost == Lost(gs, arrs)
    ensures Flush(rx).0.recovered == Recovered(gs, arrs)
    decreases |gs|
  {
    hide Process, WellSent, Flush, Outcome, Remembering, Received, Sound, Arrivals, NewTo, LostIn, RecoveredIn, AllAcceptable,
      Outcomes;
    FreshFacts();
    if gs == [] {
      rx, got, outs := FRESH, [], [];
    } else {
      var k := |gs| - 1;
      StreamPrefix(gs, arrs, k);
      var r0, got0, outs0 := StreamProcessed(gs[..k], arrs[..k]);
      var more, out;
      rx, more, out := GroupStep(r0, gs[k], arrs[k]);
      JoinReceived(Arrived(gs[..k], arrs[..k]), Received(gs[k], arrs[k]), r0, got0, rx, more);
      got, outs := got0 + more, outs0 + [out];
      OutcomesSnoc(outs0, out, gs, arrs);
      JoinOutput(got0, Flush(r0).1, more, Flush(rx).1, outs0, out);
    }
  }

  lemma FreshFacts()
    ensures Valid(FRESH) && MemoryOf(FRESH) == Memory(None, None) && Flush(FRESH) == (FRESH, []) && AllAcceptable([])
    ensures Outcomes([], [], []) && ProcessAll(FRESH, []) == (FRESH, [])
  {
  }

  lemma JoinReceived(ps: seq<Packet>, qs: seq<Packet>, mid: Rx, got: seq<Packet>, next: Rx, more: seq<Packet>)
    requires AllAcceptable(ps) && AllAcceptable(qs) && Valid(mid)
    requires ProcessAll(FRESH, ps) == (mid, got) && ProcessAll(mid, qs) == (next, more)
    ensures AllAcceptable(ps + qs) && ProcessAll(FRESH, ps + qs) == (next, got + more)
  {
    hide Process;
    ProcessAllConcat(FRESH, ps, qs);
  }

  lemma JoinOutput(got: seq<Packet>, held: seq<Packet>, more: seq<Packet>, held': seq<Packet>,
                   outs: seq<seq<Packet>>, out: seq<Packet>)
    requires got + held == Concat(outs) && more + held' == held + out
    ensures (got + more) + held' == Concat(outs + [out])
  {
    hide Concat;
    AudioLoop.Regroup(got, more, held');
    AudioLoop.Regroup(got, held, out);
    ConcatSnoc(outs, out);
  }

  lemma ConcatSnoc(outs: seq<seq<Packet>>, out: seq<Packet>)
    ensures Concat(outs + [out]) == Concat(outs) + out
  {
    assert (outs + [out])[..|outs|] == outs;
  }

  lemma OutcomesSnoc(outs: seq<seq<Packet>>, out: seq<Packet>, gs: seq<Group>, arrs: seq<seq<nat>>)
    requires Channels(gs, arrs) && |outs| + 1 == |gs| && Channels(gs[..|outs|], arrs[..|outs|])
    requires Outcomes(outs, gs[..|outs|], arrs[..|outs|]) && Outcome(out, gs[|outs|], arrs[|outs|])
    ensures Outcomes(outs + [out], gs, arrs)
  {
    hide Outcome, Arrivals;
    var m := |outs|;
    forall k | 0 <= k < |gs| ensures Outcome((outs + [out])[k], gs[k], arrs[k]) {
      if k < m { assert Outcome(outs[k], gs[..m][k], arrs[..m][k]); }
    }
  }

  // ----- The loop, size check included -----

  ghost predicate AllFramed(gs: seq<Group>) { forall k :: 0 <= k < |gs| ==> Framed(gs[k]) }

  /** What of each group's arrivals the loop does not drop. */
  ghost function Fittings(gs: seq<Group>, arrs: seq<seq<nat>>): (r: seq<seq<nat>>)
    requires Channels(gs, arrs)
    ensures |r| == |arrs|
  {
    seq(|arrs|, k requires 0 <= k < |arrs| => Fitting(gs[k], arrs[k]))
  }

  lemma FittingsPrefix(gs: seq<Group>, arrs: seq<seq<nat>>, m: nat)
    requires Channels(gs, arrs) && m <= |gs|
    ensures Channels(gs[..m], arrs[..m]) && Fittings(gs[..m], arrs[..m]) == Fittings(gs, arrs)[..m]
  {
    hide Fitting, Arrivals;
  }

  lemma FittingsChannel(gs: seq<Group>, arrs: seq<seq<nat>>)
    requires Channels(gs, arrs)
    ensures Channels(gs, Fittings(gs, arrs))
  {
    hide Fitting, Arrivals;
    forall k | 0 <= k < |gs| ensures Arrivals(gs[k], Fittings(gs, arrs)[k]) { FittingIn(gs[k], arrs[k]); }
  }

  lemma {:induction false} KeptArrived(gs: seq<Group>, arrs: seq<seq<nat>>)
    requires AllFramed(gs) && Channels(gs, arrs) && Channels(gs, Fittings(gs, arrs))
    ensures Kept(Arrived(gs, arrs)) == Arrived(gs, Fittings(gs, arrs))
    decreases |gs|
  {
    hide Fitting, Arrivals, Received, Kept, Framed, Fittings;
    if gs == [] {
      NoneKept();
    } else {
      var k := |gs| - 1;
      FittingsPrefix(gs, arrs, k);
      FittingsChannel(gs[..k], arrs[..k]);
      KeptArrived(gs[..k], arrs[..k]);
      KeptReceived(gs[k], arrs[k]);
      FittingsAt(gs, arrs, k);
      KeptConcat(Arrived(gs[..k], arrs[..k]), Received(gs[k], arrs[k]));
    }
  }

  lemma NoneKept()
    ensures Kept([]) == []
  {
  }

  lemma FittingsAt(gs: seq<Group>, arrs: seq<seq<nat>>, k: nat)
    requires Channels(gs, arrs) && k < |gs|
    ensures Fittings(gs, arrs)[k] == Fitting(gs[k], arrs[k])
  {
    hide Fitting, Arrivals;
  }

  lemma {:induction false} ArrivedAcceptable(gs: seq<Group>, arrs: seq<seq<nat>>)
    requires Channels(gs, arrs) && forall k :: 0 <= k < |gs| ==> WellSent(gs[k])
    ensures AllAcceptable(Arrived(gs, arrs))
  {
    hide WellSent, Arrivals, Received;
    if gs != [] {
      var k := |gs| - 1;
      ArrivedAcceptable(gs[..k], arrs[..k]);
      ReceivedAcceptable(gs[k], arrs[k]);
    }
  }

  /** The receive loop over a whole stream, under any losses, any order inside a
      group, any flags and any payload sizes: what it delivers and still holds is
      the concatenation of the outcomes of what passes of each group, and the
      counters add up by group. */
  lemma StreamDelivery(gs: seq<Group>, arrs: seq<seq<nat>>)
      returns (rx: Rx, got: seq<Packet>, outs: seq<seq<Packet>>)
    requires AllFramed(gs) && Channels(gs, arrs) && Stream(gs, Fittings(gs, arrs))
    ensures AllAcceptable(Arrived(gs, arrs))
    ensures ReceiveAll(FRESH, Arrived(gs, arrs)) == (rx, got) && Valid(rx)
    ensures MemoryOf(rx) == Remembers(gs, Fittings(gs, arrs))
    ensures |outs| == |gs| && Outcomes(outs, gs, Fittings(gs, arrs))
    ensures got + Flush(rx).1 == Concat(outs)
    ensures Flush(rx).0.lost == Lost(gs, Fittings(gs, arrs))
    ensures Flush(rx).0.recovered == Recovered(gs, Fittings(gs, arrs))
  {
    hide Fittings, Arrived, Process, Arrivals, WellSent, Remembers, Lost, Recovered, Outcomes, AllAcceptable, Sound, Kept, Flush;
    FreshFacts();
    forall k | 0 <= k < |gs| ensures WellSent(gs[k]) { assert StreamAt(gs, Fittings(gs, arrs), k); }
    ArrivedAcceptable(gs, arrs);
    KeptArrived(gs, arrs);
    ReceiveKept(FRESH, Arrived(gs, arrs));
    rx, got, outs := StreamProcessed(gs, Fittings(gs, arrs));
  }
}
