/** From `send_audio_all` to the output of the receive loop. */
module FecEndToEnd {
  import opened Bytes
  import opened Arithmetic
  import opened Packets
  import opened FecEncoding
  import opened FecReceiving
  import opened FecGroups
  import opened AudioLoop
  import opened Datagrams
  import opened FecSending
  import opened FecStreams
  import opened FecNumbers

  // ----- Exactly when everything arrives -----

  ghost predicate AllWhole(gs: seq<Group>, arrs: seq<seq<nat>>)
    requires Channels(gs, arrs)
  {
    forall k :: 0 <= k < |gs| ==> WholeOnce(gs[k], arrs[k])
  }

  lemma LostIsCount(g: Group, arr: seq<nat>)
    requires Arrivals(g, arr)
    ensures LostIn(g, arr) >= 0
  {
    UsefulArrives(g, arr);
  }

  lemma {:induction false} LostNone(gs: seq<Group>, arrs: seq<seq<nat>>)
    requires Channels(gs, arrs)
    ensures Lost(gs, arrs) >= 0
    ensures Lost(gs, arrs) == 0 <==> forall k :: 0 <= k < |gs| ==> LostIn(gs[k], arrs[k]) == 0
  {
    hide LostIn, Arrivals;
    if gs != [] {
      var m := |gs| - 1;
      LostNone(gs[..m], arrs[..m]);
      LostIsCount(gs[m], arrs[m]);
      assert forall k :: 0 <= k < m ==> LostIn(gs[..m][k], arrs[..m][k]) == LostIn(gs[k], arrs[k]);
    }
  }

  /** Every group of a stream comes out complete and once, with nothing counted
      lost, if and only if each one's arrivals are `WholeOnce`. */
  lemma {:induction false} StreamWhole(gs: seq<Group>, arrs: seq<seq<nat>>, outs: seq<seq<Packet>>)
    requires Channels(gs, arrs) && Outcomes(outs, gs, arrs) && forall k :: 0 <= k < |gs| ==> gs[k].data != []
    ensures Lost(gs, arrs) == 0 && (forall k :: 0 <= k < |gs| ==> |outs[k]| == |gs[k].data|) <==> AllWhole(gs, arrs)
  {
    hide LostIn, Arrivals, Outcome, WholeOnce, Lost;
    LostNone(gs, arrs);
    forall k | 0 <= k < |gs|
      ensures |outs[k]| == |gs[k].data| && LostIn(gs[k], arrs[k]) == 0 <==> WholeOnce(gs[k], arrs[k])
    {
      assert Outcome(outs[k], gs[k], arrs[k]);
      GroupWhole(outs[k], gs[k], arrs[k]);
    }
  }

  lemma WholeIsHeard(g: Group, arr: seq<nat>)
    requires Arrivals(g, arr) && WholeOnce(g, arr) && g.data != []
    ensures Heard(g, arr) && Settles(g, arr) && LostIn(g, arr) == 0
  {
    UsefulArrives(g, arr);
  }

  /** Groups that all arrive whole make a stream, whatever their numbers wrap to. */
  lemma {:induction false} WholeIsStream(gs: seq<Group>, arrs: seq<seq<nat>>, b: u16, n: nat)
    requires Numbered(gs, b, n) && Channels(gs, arrs) && AllWhole(gs, arrs)
    ensures Stream(gs, arrs)
    ensures forall k :: 0 <= k < |gs| ==> |gs[k].data| == n && Heard(gs[k], arrs[k]) && Settles(gs[k], arrs[k])
    ensures Lost(gs, arrs) == 0
  {
    hide WellSent, Arrivals, WholeOnce, Ages, Remembers, Heard, Settles, LostIn, Lost;
    forall k | 0 <= k < |gs|
      ensures |gs[k].data| == n && Heard(gs[k], arrs[k]) && Settles(gs[k], arrs[k]) && LostIn(gs[k], arrs[k]) == 0
    {
      assert NumberedAt(gs, b, n, k);
      WholeIsHeard(gs[k], arrs[k]);
    }
    forall k | 0 <= k < |gs| ensures ToldApart(gs, arrs, n, k) {
      AllHeard(gs[..k], arrs[..k]);
      FewAgo(Ages(gs[..k], arrs[..k]).0, n);
      FewAgo(Ages(gs[..k], arrs[..k]).1, n);
    }
    NumberedIsStream(gs, arrs, b, n);
    LostNone(gs, arrs);
  }

  /** All groups are `WholeOnce` in what passes the size check. */
  ghost predicate AllPassWhole(gs: seq<Group>, arrs: seq<seq<nat>>)
    requires Channels(gs, arrs)
  {
    FittingsChannel(gs, arrs);
    AllWhole(gs, Fittings(gs, arrs))
  }

  /** End to end: the controller sends any number of groups from any starting
      sequence number; the channel keeps groups in order and loses at most one of
      each n + 1 packets, so that what passes of each group is `WholeOnce`. What
      the receive loop delivers is then exactly the payloads sent, in order; a
      packet that was not rebuilt comes with the stream, format, times and flags
      it was sent with; nothing counts as lost and nothing is held back. */
  lemma {:induction false} EndToEnd(s: u16, n: nat, audio: seq<seq<Audio>>, arrs: seq<seq<nat>>)
      returns (rx: Rx, out: seq<Packet>, outs: seq<seq<Packet>>)
    requires 2 <= n <= 16 && AllOrdinary(audio, n)
    requires Channels(SentGroups(s, n, audio), arrs) && AllPassWhole(SentGroups(s, n, audio), arrs)
    ensures var gs := SentGroups(s, n, audio);
            && SendAll(Tx(s, n, []), Concat(audio)).1 == WireAll(gs)
            && AllAcceptable(Arrived(gs, arrs))
            && ReceiveAll(FRESH, Arrived(gs, arrs)) == (rx, out)
            && Channels(gs, Fittings(gs, arrs)) && rx.recovered == Recovered(gs, Fittings(gs, arrs))
            && Outcomes(outs, gs, Fittings(gs, arrs)) && out == Concat(outs)
    ensures Payloads(out) == AudioPayloads(Concat(audio))
    ensures forall k, i :: 0 <= k < |audio| && 0 <= i < n ==>
              |outs[k]| == n && (i in Fittings(SentGroups(s, n, audio), arrs)[k] ==> Carries(outs[k][i], audio[k][i]))
    ensures rx.base.None? && rx.lost == 0
  {
    hide Process, WellSent, Numbered, Arrived, SentGroups, Outcome, WholeOnce, Settles, Arrivals, Stream, Lost, Heard,
      Recovered, Payloads, AudioPayloads, ReceiveAll, SendAll, WireAll, Concat, Remembers, Fittings, AllFramed, AllAcceptable;
    var gs, b := SentGroups(s, n, audio), WrapSub(s, n + 1);
    var fit := Fittings(gs, arrs);
    SenderStream(s, n, audio);
    FittingsChannel(gs, arrs);
    WholeIsStream(gs, fit, b, n);
    NumberedFramed(gs, b, n);
    rx, out, outs := StreamDelivery(gs, arrs);
    NothingOpen(gs, fit);
    FlushNothing(rx, out);
    forall k | 0 <= k < |outs| ensures Payloads(outs[k]) == AudioPayloads(audio[k]) {
      assert Outcome(outs[k], gs[k], fit[k]);
      GroupWhole(outs[k], gs[k], fit[k]);
    }
    ConcatPayloads(outs, audio);
    forall k, i | 0 <= k < |audio| && 0 <= i < n
      ensures |outs[k]| == n && (i in fit[k] ==> Carries(outs[k][i], audio[k][i]))
    {
      assert Outcome(outs[k], gs[k], fit[k]);
      GroupWhole(outs[k], gs[k], fit[k]);
      GroupsCarry(s, n, audio, k, i);
      ArrivedAsSent(outs[k], gs[k], fit[k], i);
    }
  }

  /** Of a group that comes out whole, what arrived comes out as it was sent. */
  lemma ArrivedAsSent(out: seq<Packet>, g: Group, arr: seq<nat>, i: nat)
    requires Arrivals(g, arr) && WholeOnce(g, arr) && i < |g.data|
    requires Delivers(out, g, Useful(g, arr)[..|g.data|])
    ensures |out| == |g.data| && (i in arr ==> out[i] == g.data[i])
  {
    hide Restores, FirstFlag;
    UsefulArrives(g, arr);
    var n, u := |g.data|, Useful(g, arr);
    if i in arr {
      var j :| 0 <= j < |arr| && arr[j] == i;
      assert i in u by { assert arr != u ==> u[j - 1] == i; }
      var m :| 0 <= m < |u| && u[m] == i;
      assert m < n && u[..n][m] == i;
    }
  }

  lemma NothingOpen(gs: seq<Group>, arrs: seq<seq<nat>>)
    requires Channels(gs, arrs)
    requires gs != [] ==> Heard(gs[|gs| - 1], arrs[|gs| - 1]) && Settles(gs[|gs| - 1], arrs[|gs| - 1])
    ensures Remembers(gs, arrs).open.None?
  {
    hide Heard, Settles, Arrivals;
  }

  // ----- Without error correction -----

  lemma {:induction false} PlainWire(s: u16, audio: seq<Audio>)
    requires Ordinary(audio)
    ensures var (tx, wire) := SendAll(Tx(s, 0, []), audio);
            && tx == Tx(WrapAdd(s, |audio|), 0, []) && |wire| == |audio|
            && forall k :: 0 <= k < |audio| ==> PlainFor(wire[k], audio[k], WrapAdd(s, k))
  {
    hide Send, PlainFor;
    if audio != [] {
      var k := |audio| - 1;
      PlainWire(s, audio[..k]);
      PlainSend(WrapAdd(s, k), audio[k]);
    }
  }

  /** The packet of a call, outside any group and with its number. */
  ghost predicate PlainFor(p: Packet, a: Audio, number: u16) {
    Carries(p, a) && IsPlain(p.header) && p.header.sequence == number && p.header.payloadLen == |p.payload|
  }

  lemma PlainSend(s: u16, a: Audio)
    requires !a.flags.fec && |a.payload| < 0x1_0000
    ensures var (tx, ps) := Send(Tx(s, 0, []), a);
            tx == Tx(WrapAdd(s, 1), 0, []) && |ps| == 1 && PlainFor(ps[0], a, s)
  {
    hide ParityOf, ParityPacket;
  }

  /** With FEC off, any packets of at most 8192 bytes that arrive come out at once
      and in the order they arrive, each carrying its call. */
  lemma PlainEndToEnd(s: u16, audio: seq<Audio>, arr: seq<nat>) returns (out: seq<Packet>)
    requires Ordinary(audio) && Small(audio) && forall k :: 0 <= k < |arr| ==> arr[k] < |audio|
    ensures var wire := SendAll(Tx(s, 0, []), audio).1;
            && |wire| == |audio| && |out| == |arr|
            && (forall k :: 0 <= k < |arr| ==> out[k] == wire[arr[k]] && Carries(out[k], audio[arr[k]]))
            && AllAcceptable(out) && ReceiveAll(FRESH, out) == (FRESH, out)
  {
    hide Carries, Process, SendAll, ReceiveAll, Held, Sound, AllAcceptable;
    PlainWire(s, audio);
    var wire := SendAll(Tx(s, 0, []), audio).1;
    out := seq(|arr|, k requires 0 <= k < |arr| => wire[arr[k]]);
    forall k | 0 <= k < |out| ensures PlainAndSmall(out[k]) {
      assert PlainFor(out[k], audio[arr[k]], WrapAdd(s, arr[k]));
      CarriesPayload(out[k], audio[arr[k]]);
    }
    FreshFacts();
    PlainInOrder(FRESH, out);
    FreshHolds(out);
  }

  lemma FreshHolds(out: seq<Packet>)
    ensures Held(FRESH.slots) + out == out
  {
  }

  lemma CarriesPayload(p: Packet, a: Audio)
    requires Carries(p, a)
    ensures p.payload == a.payload
  {
  }

  // ----- Payload sizes -----

  ghost predicate Small(audio: seq<Audio>) {
    forall i :: 0 <= i < |audio| ==> |audio[i].payload| <= 8192
  }

  ghost predicate SmallPackets(ps: seq<Packet>) {
    forall i :: 0 <= i < |ps| ==> ps[i].header.payloadLen == |ps[i].payload| <= 8192
  }

  /** Small packets are all kept, as they are. */
  lemma {:induction false} SmallKept(ps: seq<Packet>)
    requires SmallPackets(ps)
    ensures Kept(ps) == ps
  {
    hide Passes, Read;
    if ps != [] {
      var front, p := ps[..|ps| - 1], ps[|ps| - 1];
      SmallKept(front);
      ReadWhole(p);
      assert ps == front + [p];
    }
  }

  lemma SmallReceived(rx: Rx, ps: seq<Packet>)
    requires Valid(rx) && AllAcceptable(ps) && SmallPackets(ps)
    ensures ReceiveAll(rx, ps) == ProcessAll(rx, ps)
  {
    hide Process, Sound;
    ReceiveKept(rx, ps);
    SmallKept(ps);
  }

  ghost predicate SmallGroup(g: Group) {
    Framed(g) && WellSent(g) && forall k :: 0 <= k < |g.data| ==> |g.data[k].payload| <= 8192
  }

  lemma SmallArrivals(g: Group, arr: seq<nat>)
    requires SmallGroup(g) && Arrivals(g, arr)
    ensures SmallPackets(Received(g, arr))
  {
    assert |g.data| >= 2;
    hide WellSent, Passes;
    forall k | 0 <= k < |arr| ensures Wire(g)[arr[k]].header.payloadLen == |Wire(g)[arr[k]].payload| <= 8192 {
      assert FramedAt(g, arr[k]);
      SizesDecide(g, 0);
      ReadWhole(Wire(g)[arr[k]]);
    }
  }

  lemma {:induction false} SmallArrived(gs: seq<Group>, arrs: seq<seq<nat>>)
    requires Channels(gs, arrs) && forall k :: 0 <= k < |gs| ==> SmallGroup(gs[k])
    ensures SmallPackets(Arrived(gs, arrs))
  {
    hide Arrivals, SmallGroup, Received;
    if gs != [] {
      var k := |gs| - 1;
      SmallArrived(gs[..k], arrs[..k]);
      SmallArrivals(gs[k], arrs[k]);
    }
  }

  lemma SentSmall(s: u16, audio: seq<Audio>)
    requires 2 <= |audio| <= 16 && Ordinary(audio) && Small(audio)
    ensures SmallGroup(SentGroup(s, audio))
  {
    hide WellSent, Framed, SentGroup;
    var g := SentGroup(s, audio);
    SentBase(s, audio);
    SentWell(s, audio);
    forall k | 0 <= k < |g.data| ensures |g.data[k].payload| <= 8192 {
      assert Payloads(g.data)[k] == AudioPayloads(audio)[k];
    }
  }

  lemma {:induction false} AllSentSmall(s: u16, n: nat, audio: seq<seq<Audio>>)
    requires 2 <= n <= 16 && AllOrdinary(audio, n) && forall k :: 0 <= k < |audio| ==> Small(audio[k])
    ensures forall k :: 0 <= k < |audio| ==> SmallGroup(SentGroups(s, n, audio)[k])
    decreases |audio|
  {
    hide Ordinary, Small, SmallGroup, SentGroup;
    if audio != [] {
      var front := audio[..|audio| - 1];
      AllSentSmall(s, n, front);
      SentSmall(NextBase(SentGroups(s, n, front), s, n), audio[|audio| - 1]);
    }
  }

  /** The sender checks no size: a stream of two packets of more than 8192 bytes,
      sent in full over a channel that loses nothing, is dropped altogether. */
  lemma OversizedLost(s: u16, first: Audio, last: Audio)
    requires Ordinary([first, last]) && |first.payload| > 8192 && |last.payload| > 8192
    ensures var wire := SendAll(Tx(s, 2, []), [first, last]).1;
            && |wire| == 3 && AllAcceptable(wire)
            && ReceiveAll(FRESH, wire) == (FRESH, [])
  {
    hide SentGroup, Send, SendAll, WellSent, Passes, Process, Framed;
    var audio := [first, last];
    var g := SentGroup(s, audio);
    SendGroup(s, audio);
    SentBase(s, audio);
    SizesDecide(g, 0);
    SizesDecide(g, 1);
    assert Payloads(g.data)[0] == AudioPayloads(audio)[0] && Payloads(g.data)[1] == AudioPayloads(audio)[1];
    forall k | 0 <= k < 3 ensures Acceptable(Wire(g)[k].header) { WireBase(g, k); }
    FreshFacts();
    NoneKeptOf(Wire(g));
    ReceiveKept(FRESH, Wire(g));
  }

  lemma {:induction false} NoneKeptOf(ps: seq<Packet>)
    requires forall k :: 0 <= k < |ps| ==> !Passes(ps[k])
    ensures Kept(ps) == []
  {
    hide Passes;
    if ps != [] { NoneKeptOf(ps[..|ps| - 1]); }
  }

  // ----- The last group -----

  /** The promise stops at the stream end: with two packets a group, the first
      one lost and the second flagged last, the flush comes before the parity
      and the lost packet is not rebuilt, though only one of three is missing. */
  lemma LastGroupUnprotected(s: u16, first: Audio, last: Audio)
    requires Ordinary([first, last]) && Small([first, last]) && last.flags.last && !first.flags.last
    ensures var g := SentGroup(s, [first, last]);
            var got := [g.data[1], g.parity];
            && SendAll(Tx(s, 2, []), [first, last]).1 == [g.data[0]] + got
            && AllAcceptable(got)
            && ReceiveAll(FRESH, got).1 == [g.data[1]]
            && ReceiveAll(FRESH, got).0.lost == 1 && ReceiveAll(FRESH, got).0.recovered == 0
  {
    hide SentGroup, Send, Process, WellSent, Outcome, LostIn, RecoveredIn, Flush, SmallGroup, Remembering;
    var g := SentGroup(s, [first, last]);
    SendGroup(s, [first, last]);
    SentSmall(s, [first, last]);
    TwoPackets(s, first, last);
    var arr := AllBut(2, 0);
    LastGroupInOrder(g, 0);
    FreshFacts();
    var next, got, out := GroupStep(FRESH, g, arr);
    TwoYield(out, next, g, arr);
    assert Received(g, arr) == [g.data[1], g.parity];
    FlushNothing(next, got);
    SmallArrivals(g, arr);
    SmallReceived(FRESH, Received(g, arr));
  }

  lemma TwoPackets(s: u16, first: Audio, last: Audio)
    ensures var g := SentGroup(s, [first, last]);
            && |g.data| == 2 && !Flagged(g.parity)
            && Flagged(g.data[0]) == first.flags.last && Flagged(g.data[1]) == last.flags.last
            && Wire(g) == [g.data[0], g.data[1], g.parity]
  {
    hide ParityOf;
  }

  lemma TwoYield(out: seq<Packet>, next: Rx, g: Group, arr: seq<nat>)
    requires |g.data| == 2 && arr == AllBut(2, 0) && Arrivals(g, arr) && Outcome(out, g, arr)
    requires Flagged(g.data[1]) && !Flagged(g.data[0]) && !Flagged(g.parity)
    requires MemoryOf(next) == Remembering(MemoryOf(FRESH), g, arr)
    ensures out == [g.data[1]] && next.base.None?
  {
    assert arr == [1, 2] && Useful(g, arr) == arr;
    assert FirstFlag(g, arr, 0) == 0;
    var slots := Filled(g, arr[..1]);
    assert slots == [None, Some(g.data[1])];
    HeldGap(slots, 0);
    var late := arr[1..];
    assert late == [2];
    NoData(g, late);
  }

  // ----- A partial last group -----

  function InOrder(n: nat): seq<nat> { seq(n, i => i) }

  function Everything(m: nat, n: nat): seq<seq<nat>> { seq(m, i => InOrder(n + 1)) }

  /** Only the last packet of a group may be flagged as the stream's last. */
  ghost predicate FlaggedAtEnd(audio: seq<Audio>) {
    forall i :: 0 <= i < |audio| - 1 ==> !audio[i].flags.last
  }

  lemma SentInOrder(s: u16, audio: seq<Audio>)
    requires 2 <= |audio| <= 16 && FlaggedAtEnd(audio)
    ensures var g, arr := SentGroup(s, audio), InOrder(|audio| + 1);
            Arrivals(g, arr) && WholeOnce(g, arr) && Received(g, arr) == Wire(g)
  {
    hide ParityOf;
    var g, arr := SentGroup(s, audio), InOrder(|audio| + 1);
    UsefulArrives(g, arr);
    assert Useful(g, arr) == arr;
    assert forall i :: 0 <= i < |audio| ==> Flagged(g.data[i]) == audio[i].flags.last;
  }

  /** Full groups, all of them in order. */
  lemma {:induction false} AllInOrder(s: u16, n: nat, audio: seq<seq<Audio>>)
    requires 2 <= n <= 16
    requires forall k :: 0 <= k < |audio| ==> |audio[k]| == n && FlaggedAtEnd(audio[k])
    ensures var gs, arrs := SentGroups(s, n, audio), Everything(|audio|, n);
            Channels(gs, arrs) && AllWhole(gs, arrs) && Arrived(gs, arrs) == WireAll(gs)
    decreases |audio|
  {
    hide FlaggedAtEnd, Arrivals, WholeOnce, Received, SentGroup, Wire, AllWhole, Arrived, Channels, Everything, InOrder,
      WireAll;
    if audio == [] {
      NoGroups(n);
    } else {
      var front := audio[..|audio| - 1];
      AllInOrder(s, n, front);
      var gs, arrs := SentGroups(s, n, front), Everything(|front|, n);
      var base := NextBase(gs, s, n);
      SentInOrder(base, audio[|front|]);
      WholeSnoc(gs, arrs, SentGroup(base, audio[|front|]), InOrder(n + 1));
      EverythingSnoc(|front|, n);
      WireAllSnoc(gs, SentGroup(base, audio[|front|]));
    }
  }

  lemma WireAllSnoc(gs: seq<Group>, g: Group)
    ensures WireAll(gs + [g]) == WireAll(gs) + Wire(g)
  {
    assert (gs + [g])[..|gs|] == gs;
  }

  lemma EverythingSnoc(m: nat, n: nat)
    ensures Everything(m + 1, n) == Everything(m, n) + [InOrder(n + 1)]
  {
  }

  lemma NoGroups(n: nat)
    ensures Everything(0, n) == [] && WireAll([]) == [] && Channels([], []) && AllWhole([], []) && Arrived([], []) == []
  {
  }

  lemma WholeSnoc(gs: seq<Group>, arrs: seq<seq<nat>>, g: Group, arr: seq<nat>)
    requires Channels(gs, arrs) && AllWhole(gs, arrs) && Arrivals(g, arr) && WholeOnce(g, arr)
    ensures Channels(gs + [g], arrs + [arr]) && AllWhole(gs + [g], arrs + [arr])
    ensures Arrived(gs + [g], arrs + [arr]) == Arrived(gs, arrs) + Received(g, arr)
  {
    hide Arrivals, WholeOnce, Received;
    var all, ars, m := gs + [g], arrs + [arr], |gs|;
    forall k | 0 <= k < |all| ensures Arrivals(all[k], ars[k]) && WholeOnce(all[k], ars[k]) {
      if k < m { assert all[k] == gs[k] && ars[k] == arrs[k]; }
    }
    assert all[..m] == gs && ars[..m] == arrs;
  }

  lemma {:induction false} HeldNone(slots: Slots)
    requires forall i :: 0 <= i < |slots| ==> slots[i].None?
    ensures Held(slots) == []
  {
    if slots != [] { HeldNone(slots[..|slots| - 1]); }
  }

  lemma HeldFirst(g: Group, t: nat)
    requires t <= |g.data|
    ensures Held(Filled(g, InOrder(t))) == g.data[..t]
  {
    var slots := Filled(g, InOrder(t));
    forall i | 0 <= i < t ensures slots[i] == Some(g.data[i]) { assert InOrder(t)[i] == i; }
    assert slots == slots[..t] + slots[t..];
    HeldConcat(slots[..t], slots[t..]);
    HeldFull(slots[..t]);
    HeldNone(slots[t..]);
  }

  const FILLER := Audio(0, 0, 0, 0, [], NO_FLAGS)

  /** The group the sender would have made of a tail of `t` packets: all but
      those t never leave it. */
  function TailGroup(s: u16, n: nat, tail: seq<Audio>): Group
    requires 2 <= n <= 16 && |tail| < n
  {
    SentGroup(s, tail + seq(n - |tail|, i => FILLER))
  }

  lemma TailSent(s: u16, n: nat, tail: seq<Audio>)
    requires 2 <= n <= 16 && 0 < |tail| < n && Ordinary(tail)
    ensures var g, arr := TailGroup(s, n, tail), InOrder(|tail|);
            && WellSent(g) && Framed(g) && !Flagged(g.parity) && g.base == s && |g.data| == n
            && Arrivals(g, arr)
            && SendAll(Tx(s, n, []), tail).1 == g.data[..|tail|] == Received(g, arr)
            && Payloads(g.data[..|tail|]) == AudioPayloads(tail)
            && forall i :: 0 <= i < |tail| ==> Flagged(g.data[i]) == tail[i].flags.last
  {
    hide WellSent, Framed, SentGroup, SendAll, DataPackets, Payloads, AudioPayloads, Received, Arrivals;
    var all := tail + seq(n - |tail|, i => FILLER);
    assert all[..|tail|] == tail;
    OrdinaryTail(tail, all);
    SentWell(s, all);
    SendPartway(s, n, all, |tail|);
    SentBase(s, all);
    SentFlags(s, all);
    SentData(s, all);
    FirstPackets(TailGroup(s, n, tail), all, |tail|);
  }

  lemma OrdinaryTail(tail: seq<Audio>, all: seq<Audio>)
    requires Ordinary(tail) && tail <= all && forall i :: |tail| <= i < |all| ==> all[i] == FILLER
    ensures Ordinary(all)
  {
    assert forall i :: 0 <= i < |tail| ==> all[i] == tail[i];
  }

  lemma SentData(s: u16, audio: seq<Audio>)
    requires 2 <= |audio| <= 16
    ensures SentGroup(s, audio).data == DataPackets(s, |audio|, audio)
  {
  }

  lemma FirstPackets(g: Group, audio: seq<Audio>, t: nat)
    requires |g.data| == |audio| && Payloads(g.data) == AudioPayloads(audio) && t <= |audio|
    ensures Payloads(g.data[..t]) == AudioPayloads(audio[..t])
    ensures Arrivals(g, InOrder(t)) && Received(g, InOrder(t)) == g.data[..t]
  {
    forall i | 0 <= i < t ensures g.data[..t][i].payload == audio[i].payload {
      assert Payloads(g.data)[i] == AudioPayloads(audio)[i];
    }
    assert forall i :: 0 <= i < t ==> InOrder(t)[i] == i && Wire(g)[i] == g.data[i];
  }

  lemma SentFlags(s: u16, audio: seq<Audio>)
    requires 2 <= |audio| <= 16
    ensures forall i :: 0 <= i < |audio| ==> Flagged(SentGroup(s, audio).data[i]) == audio[i].flags.last
  {
    hide ParityOf;
  }

  lemma TailYields(out: seq<Packet>, g: Group, t: nat)
    requires 0 < t < |g.data| && Arrivals(g, InOrder(t)) && forall i :: 0 <= i < t - 1 ==> !Flagged(g.data[i])
    ensures LostIn(g, InOrder(t)) == |g.data| - t && Heard(g, InOrder(t))
    ensures Outcome(out, g, InOrder(t)) ==> out == g.data[..t]
  {
    var arr := InOrder(t);
    UsefulArrives(g, arr);
    assert Useful(g, arr) == arr;
    assert TakesIn(g, arr) == t && arr[..t] == arr && arr[t..] == [];
    HeldFirst(g, t);
    if Outcome(out, g, arr) { assert out[..|out| - 0] == out; }
  }

  /** A stream of payloads of at most 8192 bytes, delivered in full and in order,
      whose last group the sender never filled: every payload comes out, yet the
      flush counts the packets that were never sent as lost. The count is right
      exactly if the number of calls is a multiple of the group size. */
  lemma {:induction false} PartialTail(s: u16, n: nat, audio: seq<seq<Audio>>, tail: seq<Audio>)
      returns (rx: Rx, out: seq<Packet>)
    requires 2 <= n <= 16 && AllOrdinary(audio, n) && |tail| < n && Ordinary(tail)
    requires Small(tail) && forall k :: 0 <= k < |audio| ==> Small(audio[k])
    requires FlaggedAtEnd(tail) && forall k :: 0 <= k < |audio| ==> FlaggedAtEnd(audio[k])
    ensures var wire := SendAll(Tx(s, n, []), Concat(audio) + tail).1;
            && AllAcceptable(wire)
            && var (end, got) := ReceiveAll(FRESH, wire);
               rx == Flush(end).0 && out == got + Flush(end).1
    ensures Payloads(out) == AudioPayloads(Concat(audio) + tail)
    ensures rx.lost == if tail == [] then 0 else n - |tail|
    ensures rx.lost == 0 <==> |Concat(audio) + tail| % n == 0
  {
    hide Process, WellSent, Numbered, Arrived, SentGroups, Outcome, Settles, Arrivals, Stream, FlaggedAtEnd, Ordinary, Outcomes,
      Recovered, Payloads, AudioPayloads, ReceiveAll, SendAll, WireAll, Concat, Remembers, AllWhole, Lost, AllAcceptable, Flush,
      Small, SmallGroup, Fittings;
    var gs, arrs := SentGroups(s, n, audio), Everything(|audio|, n);
    AllInOrder(s, n, audio);
    CallCount(n, audio, |tail|);
    if tail == [] {
      var outs;
      assert Concat(audio) + tail == Concat(audio);
      AllSentSmall(s, n, audio);
      AllFit(gs, arrs);
      rx, out, outs := EndToEnd(s, n, audio, arrs);
      FlushNothing(rx, out);
    } else {
      rx, out := WithTail(s, n, audio, tail);
    }
  }

  lemma AllFit(gs: seq<Group>, arrs: seq<seq<nat>>)
    requires Channels(gs, arrs) && forall k :: 0 <= k < |gs| ==> SmallGroup(gs[k])
    ensures Fittings(gs, arrs) == arrs
  {
    hide Fitting, Arrivals, WellSent, Framed;
    forall k | 0 <= k < |gs| ensures Fittings(gs, arrs)[k] == arrs[k] { SmallFits(gs[k], arrs[k]); }
  }

  lemma {:induction false} WithTail(s: u16, n: nat, audio: seq<seq<Audio>>, tail: seq<Audio>)
      returns (rx: Rx, out: seq<Packet>)
    requires 2 <= n <= 16 && AllOrdinary(audio, n) && 0 < |tail| < n && Ordinary(tail)
    requires Small(tail) && forall k :: 0 <= k < |audio| ==> Small(audio[k])
    requires FlaggedAtEnd(tail) && forall k :: 0 <= k < |audio| ==> FlaggedAtEnd(audio[k])
    ensures var wire := SendAll(Tx(s, n, []), Concat(audio) + tail).1;
            && AllAcceptable(wire)
            && var (end, got) := ReceiveAll(FRESH, wire);
               rx == Flush(end).0 && out == got + Flush(end).1
    ensures Payloads(out) == AudioPayloads(Concat(audio) + tail)
    ensures rx.lost == n - |tail|
  {
    hide Process, WellSent, Numbered, Arrived, SentGroups, Outcome, Settles, Arrivals, Stream, Ordinary, Outcomes, WholeOnce,
      Recovered, Payloads, AudioPayloads, ProcessAll, ReceiveAll, SendAll, WireAll, Concat, Remembers, AllWhole, Lost,
      AllAcceptable, Flush, Heard, Small, SmallGroup, Framed;
    var gs, arrs, b := SentGroups(s, n, audio), Everything(|audio|, n), WrapSub(s, n + 1);
    AllInOrder(s, n, audio);
    SenderStream(s, n, audio);
    WholeIsStream(gs, arrs, b, n);
    var base := NextBase(gs, s, n);
    var g := TailGroup(base, n, tail);
    TailSent(base, n, tail);
    NumberedSnoc(gs, g, s, n);
    SendAllConcat(Tx(s, n, []), Concat(audio), tail, SendAll(Tx(s, n, []), Concat(audio)), SendAll(Tx(base, n, []), tail));
    TailYields([], g, |tail|);
    StreamSnoc(gs, arrs, g, InOrder(|tail|), b, n);
    var all, ars := gs + [g], arrs + [InOrder(|tail|)];
    var end, got, outs := StreamProcessed(all, ars);
    AllSentSmall(s, n, audio);
    SmallTail(base, n, tail);
    SmallArrived(all, ars);
    FreshFacts();
    SmallReceived(FRESH, Arrived(all, ars));
    rx, out := Flush(end).0, got + Flush(end).1;
    TailPayloads(outs, gs, arrs, g, audio, tail);
  }

  lemma SmallTail(s: u16, n: nat, tail: seq<Audio>)
    requires 2 <= n <= 16 && |tail| < n && Ordinary(tail) && Small(tail)
    ensures SmallGroup(TailGroup(s, n, tail))
  {
    hide SentGroup, SmallGroup;
    var all := tail + seq(n - |tail|, i => FILLER);
    OrdinaryTail(tail, all);
    assert forall i :: 0 <= i < |tail| ==> all[i] == tail[i];
    SentSmall(s, all);
  }

  lemma CallCount(n: nat, audio: seq<seq<Audio>>, t: nat)
    requires t < n && forall k :: 0 <= k < |audio| ==> |audio[k]| == n
    ensures (|Concat(audio)| + t) % n == t
  {
    ConcatSize(n, audio);
    DivUnique(|Concat(audio)| + t, |audio|, t, n);
  }

  lemma {:induction false} ConcatSize(n: nat, audio: seq<seq<Audio>>)
    requires forall k :: 0 <= k < |audio| ==> |audio[k]| == n
    ensures |Concat(audio)| == |audio| * n
  {
    if audio != [] { ConcatSize(n, audio[..|audio| - 1]); }
  }

  /** One more group heard. */
  lemma {:induction false} StreamSnoc(gs: seq<Group>, arrs: seq<seq<nat>>, g: Group, arr: seq<nat>, b: u16, n: nat)
    requires Numbered(gs + [g], b, n) && Channels(gs, arrs) && Arrivals(g, arr) && Heard(g, arr)
    requires forall k :: 0 <= k < |gs| ==> Heard(gs[k], arrs[k])
    ensures Stream(gs + [g], arrs + [arr])
    ensures Arrived(gs + [g], arrs + [arr]) == Arrived(gs, arrs) + Received(g, arr)
    ensures Lost(gs + [g], arrs + [arr]) == Lost(gs, arrs) + LostIn(g, arr)
  {
    hide Arrivals, Heard, Received, LostIn, Numbered;
    var all, ars, m := gs + [g], arrs + [arr], |gs|;
    NumberedSize(all, b, n);
    forall k | 0 <= k < |all| ensures Arrivals(all[k], ars[k]) && ToldApart(all, ars, n, k) {
      assert all[..k] == gs[..k] && ars[..k] == arrs[..k];
      AllHeard(gs[..k], arrs[..k]);
      FewAgo(Ages(all[..k], ars[..k]).0, n);
      FewAgo(Ages(all[..k], ars[..k]).1, n);
    }
    NumberedIsStream(all, ars, b, n);
    assert all[..m] == gs && ars[..m] == arrs;
  }

  lemma NumberedSize(gs: seq<Group>, b: u16, n: nat)
    requires Numbered(gs, b, n)
    ensures 2 <= n <= 16
  {
  }

  lemma {:induction false} TailPayloads(outs: seq<seq<Packet>>, gs: seq<Group>, arrs: seq<seq<nat>>, g: Group,
                                        audio: seq<seq<Audio>>, tail: seq<Audio>)
    requires Channels(gs, arrs) && AllWhole(gs, arrs) && CarriesAll(gs, audio)
    requires 0 < |tail| < |g.data| && Payloads(g.data[..|tail|]) == AudioPayloads(tail)
    requires Channels(gs + [g], arrs + [InOrder(|tail|)]) && Outcomes(outs, gs + [g], arrs + [InOrder(|tail|)])
    requires forall k :: 0 <= k < |gs| ==> gs[k].data != []
    requires forall i :: 0 <= i < |tail| - 1 ==> !Flagged(g.data[i])
    ensures Payloads(Concat(outs)) == AudioPayloads(Concat(audio) + tail)
  {
    hide Outcome, WholeOnce, Arrivals, Payloads, AudioPayloads, Concat;
    var all, ars, calls, m := gs + [g], arrs + [InOrder(|tail|)], audio + [tail], |gs|;
    forall k | 0 <= k < |outs| ensures Payloads(outs[k]) == AudioPayloads(calls[k]) {
      assert Outcome(outs[k], all[k], ars[k]);
      if k < m {
        GroupWhole(outs[k], gs[k], arrs[k]);
      } else {
        TailYields(outs[k], g, |tail|);
      }
    }
    ConcatPayloads(outs, calls);
    ConcatPlus(audio, [tail]);
    ConcatOne(tail);
  }

  lemma ConcatOne(tail: seq<Audio>)
    ensures Concat([tail]) == tail
  {
    assert [tail][..0] == [];
  }
}
