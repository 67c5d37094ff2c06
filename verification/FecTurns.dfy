/** What the receiver makes of groups it cannot tell apart: after an outage, a
    group numbered like one it remembers. */
module FecTurns {
  import opened Bytes
  import opened Packets
  import opened FecEncoding
  import opened FecReceiving
  import opened FecGroups
  import opened AudioLoop
  import opened Datagrams
  import opened FecSending
  import opened FecStreams
  import opened FecNumbers
  import opened FecEndToEnd

  /** An outage: of the first group `first` arrives, of the last `last`, of those between nothing. */
  function Outage(m: nat, first: seq<nat>, last: seq<nat>): (r: seq<seq<nat>>)
    requires m >= 1
    ensures |r| == m + 1
  {
    [first] + seq(m - 1, i => []) + [last]
  }

  lemma {:induction false} BaseAt(gs: seq<Group>, b: u16, n: nat, k: nat)
    requires Numbered(gs, b, n) && k < |gs|
    ensures gs[k].base == WrapAdd(gs[0].base, k * (n + 1))
  {
    hide WellSent, Framed;
    assert NumberedAt(gs, b, n, k);
    if k > 0 {
      BaseAt(gs, b, n, k - 1);
      assert k * (n + 1) == (k - 1) * (n + 1) + (n + 1);
      WrapTwice(gs[0].base, (k - 1) * (n + 1), n + 1);
    }
  }

  lemma WrapTwice(x: u16, a: int, d: int)
    ensures WrapAdd(WrapAdd(x, a), d) == WrapAdd(x, a + d)
  {
  }

  lemma WrapWhole(x: u16, m: int)
    requires m % 0x1_0000 == 0
    ensures WrapAdd(x, m) == x
  {
  }

  /** Of an outage only the first and the last group arrive. */
  lemma {:induction false} OutageArrives(gs: seq<Group>, first: seq<nat>, m: nat)
    requires gs != [] && Arrivals(gs[0], first) && m == |gs|
    ensures var arrs := [first] + seq(m - 1, i => []);
            Channels(gs, arrs) && Arrived(gs, arrs) == Received(gs[0], first)
    decreases m
  {
    var arrs := [first] + seq(m - 1, i => []);
    if m == 1 {
      assert gs[..0] == [] && arrs[..0] == [];
      assert Arrived(gs, arrs) == [] + Received(gs[0], first);
    } else {
      OutageArrives(gs[..m - 1], first, m - 1);
      assert arrs[..m - 1] == [first] + seq(m - 2, i => []);
      assert Received(gs[m - 1], arrs[m - 1]) == [];
      assert Arrived(gs, arrs) == Received(gs[0], first) + [];
    }
  }

  lemma OutageSplits(gs: seq<Group>, first: seq<nat>, last: seq<nat>, m: nat)
    requires m >= 1 && |gs| == m + 1 && Arrivals(gs[0], first) && Arrivals(gs[m], last)
    ensures Channels(gs, Outage(m, first, last))
    ensures Arrived(gs, Outage(m, first, last)) == Received(gs[0], first) + Received(gs[m], last)
  {
    hide Arrivals, Received;
    var arrs := Outage(m, first, last);
    OutageArrives(gs[..m], first, m);
    assert arrs[..m] == [first] + seq(m - 1, i => []);
    forall k | 0 <= k < |gs| ensures Arrivals(gs[k], arrs[k]) {
      if k < m { assert gs[k] == gs[..m][k] && arrs[k] == arrs[..m][k]; }
    }
  }

  /** A group delivered whole, in order, then packets of one with its number. */
  lemma {:induction false} AfterWhole(g: Group, h: Group, last: seq<nat>) returns (rx: Rx)
    requires SmallGroup(g) && SmallGroup(h) && g.base == h.base && !Flagged(g.parity) && !Flagged(h.parity)
    requires Arrivals(g, InOrder(|g.data| + 1)) && WholeOnce(g, InOrder(|g.data| + 1)) && Arrivals(h, last)
    ensures var ps := Received(g, InOrder(|g.data| + 1)) + Received(h, last);
            && AllAcceptable(ps) && ReceiveAll(FRESH, ps) == (rx, g.data + DataOf(h, last))
            && rx.lost == 0 && rx.recovered == 0
  {
    hide Process, WellSent, Framed, WholeOnce, ReceiveAll, ProcessAll, Received, AllAcceptable, SmallPackets, DataOf, Arrivals,
      Sound;
    var arr := InOrder(|g.data| + 1);
    rx := WholeFirst(g);
    LateArrivals(rx, h, last);
    JoinReceived(Received(g, arr), Received(h, last), rx, g.data, rx, DataOf(h, last));
    SmallArrivals(g, arr);
    SmallArrivals(h, last);
    SmallBoth(Received(g, arr), Received(h, last));
    FreshFacts();
    SmallReceived(FRESH, Received(g, arr) + Received(h, last));
  }

  lemma {:induction false} WholeFirst(g: Group) returns (next: Rx)
    requires WellSent(g) && !Flagged(g.parity)
    requires Arrivals(g, InOrder(|g.data| + 1)) && WholeOnce(g, InOrder(|g.data| + 1))
    ensures AllAcceptable(Received(g, InOrder(|g.data| + 1)))
    ensures ProcessAll(FRESH, Received(g, InOrder(|g.data| + 1))) == (next, g.data)
    ensures Valid(next) && next.base.None? && next.prev == Some(g.base) && next.lost == 0 && next.recovered == 0
  {
    assert |g.data| >= 2;
    hide Process, WellSent, Outcome, LostIn, RecoveredIn, Flush, WholeOnce, ProcessAll, Received, Remembering, AllAcceptable,
      Delivers, Arrivals, NewTo, Sound, InOrder, Useful, MemoryOf;
    var arr := InOrder(|g.data| + 1);
    FreshFacts();
    NewToFresh(g, arr);
    var got, out;
    next, got, out := GroupStep(FRESH, g, arr);
    GroupWhole(out, g, arr);
    WholeInOrder(out, next, g);
    FlushNothing(next, got);
    NothingBefore(out);
  }

  lemma NewToFresh(g: Group, arr: seq<nat>)
    ensures NewTo(MemoryOf(FRESH), g, arr)
  {
  }

  lemma SmallBoth(a: seq<Packet>, b: seq<Packet>)
    requires SmallPackets(a) && SmallPackets(b)
    ensures SmallPackets(a + b)
  {
  }

  lemma WholeInOrder(out: seq<Packet>, next: Rx, g: Group)
    requires g.data != [] && Arrivals(g, InOrder(|g.data| + 1)) && WholeOnce(g, InOrder(|g.data| + 1))
    requires Delivers(out, g, Useful(g, InOrder(|g.data| + 1))[..|g.data|])
    requires MemoryOf(next) == Remembering(MemoryOf(FRESH), g, InOrder(|g.data| + 1))
    ensures out == g.data && next.base.None? && next.prev == Some(g.base)
    ensures LostIn(g, InOrder(|g.data| + 1)) == 0 && RecoveredIn(g, InOrder(|g.data| + 1)) == 0
  {
    hide Delivers, FirstFlag;
    var n, arr := |g.data|, InOrder(|g.data| + 1);
    UsefulArrives(g, arr);
    assert Useful(g, arr) == arr;
    AllDelivered(out, g);
  }

  lemma AllDelivered(out: seq<Packet>, g: Group)
    requires Delivers(out, g, InOrder(|g.data| + 1)[..|g.data|])
    ensures out == g.data
  {
    hide Restores;
    var xs := InOrder(|g.data| + 1)[..|g.data|];
    forall i | 0 <= i < |out| ensures out[i] == g.data[i] { assert xs[i] == i && i in xs; }
  }

  ghost predicate AllSmall(gs: seq<Group>) { forall k :: 0 <= k < |gs| ==> SmallGroup(gs[k]) }

  /** A whole turn of the numbers after a group that came out whole, a group is
      taken for late packets of that one: its data go through as they come, a
      packet it loses is neither rebuilt nor counted. */
  lemma {:induction false} FullTurn(gs: seq<Group>, b: u16, n: nat, m: nat, last: seq<nat>) returns (rx: Rx)
    requires Numbered(gs, b, n) && AllSmall(gs) && |gs| == m + 1 && FullTurnAgo(m, n)
    requires |gs[0].data| == n && Arrivals(gs[0], InOrder(n + 1)) && WholeOnce(gs[0], InOrder(n + 1)) && Arrivals(gs[m], last)
    ensures var arrs := Outage(m, InOrder(n + 1), last);
            && Channels(gs, arrs) && AllAcceptable(Arrived(gs, arrs))
            && ReceiveAll(FRESH, Arrived(gs, arrs)) == (rx, gs[0].data + DataOf(gs[m], last))
            && rx.lost == 0 && rx.recovered == 0
  {
    hide WellSent, Framed, SmallGroup, Arrivals, Received, Arrived, ReceiveAll, AllAcceptable, DataOf, WholeOnce, Channels, Outage;
    BaseAt(gs, b, n, m);
    WrapWhole(gs[0].base, m * (n + 1));
    assert NumberedAt(gs, b, n, 0) && NumberedAt(gs, b, n, m);
    OutageSplits(gs, InOrder(n + 1), last, m);
    rx := AfterWhole(gs[0], gs[m], last);
  }

  lemma {:induction false} FirstInOrder(s: u16, n: nat, audio: seq<seq<Audio>>)
    requires 2 <= n <= 16 && forall k :: 0 <= k < |audio| ==> |audio[k]| == n
    requires audio != [] && FlaggedAtEnd(audio[0])
    ensures var g := SentGroups(s, n, audio)[0];
            Arrivals(g, InOrder(n + 1)) && WholeOnce(g, InOrder(n + 1))
    decreases |audio|
  {
    hide WholeOnce, Arrivals, FlaggedAtEnd, SentGroup, InOrder;
    if |audio| == 1 {
      SentInOrder(s, audio[0]);
      assert audio[..0] == [];
    } else {
      FirstInOrder(s, n, audio[..|audio| - 1]);
    }
  }

  /** With 15 packets a group, 4095 groups of silence, and then all but the first
      packet of a group: 14 of its 15 payloads come out, though 15 of its 16
      packets arrived. */
  lemma FullTurnUnprotected(s: u16, audio: seq<seq<Audio>>) returns (gs: seq<Group>, rx: Rx)
    requires AllOrdinary(audio, 15) && |audio| == 4097 && FlaggedAtEnd(audio[0])
    requires forall k :: 0 <= k < |audio| ==> Small(audio[k])
    ensures gs == SentGroups(s, 15, audio) && |gs[4096].data| == 15
    ensures var arrs := Outage(4096, InOrder(16), AllBut(15, 0));
            && Channels(gs, arrs) && AllAcceptable(Arrived(gs, arrs))
            && ReceiveAll(FRESH, Arrived(gs, arrs)) == (rx, gs[0].data + gs[4096].data[1..])
            && rx.lost == 0 && rx.recovered == 0
  {
    hide SentGroups, WellSent, Framed, Ordinary, Small, SmallGroup, Received, Arrived, ReceiveAll, AllAcceptable, FlaggedAtEnd,
      Channels, Outage, DataOf, WholeOnce, Arrivals, AllBut, InOrder, Numbered, CarriesAll, SendAll, WireAll, Concat, NextBase;
    gs := SentGroups(s, 15, audio);
    SenderStream(s, 15, audio);
    AllSentSmall(s, 15, audio);
    NumberedSize(gs, WrapSub(s, 16), 15, 0);
    NumberedSize(gs, WrapSub(s, 16), 15, 4096);
    FirstInOrder(s, 15, audio);
    AllButArrives(gs[4096], 15);
    rx := FullTurn(gs, WrapSub(s, 16), 15, 4096, AllBut(15, 0));
    DataFrom(gs[4096], 15);
  }

  lemma NumberedSize(gs: seq<Group>, b: u16, n: nat, k: nat)
    requires Numbered(gs, b, n) && k < |gs|
    ensures |gs[k].data| == n
  {
    assert NumberedAt(gs, b, n, k);
  }

  lemma AllButArrives(g: Group, n: nat)
    requires |g.data| == n
    ensures Arrivals(g, AllBut(n, 0))
  {
  }

  lemma {:induction false} DataFrom(g: Group, k: nat)
    requires k <= |g.data|
    ensures DataOf(g, AllBut(k, 0)) == if k < |g.data| then g.data[1..k + 1] else if k == 0 then [] else g.data[1..]
    decreases k
  {
    hide DataOf, AllBut;
    if k == 0 {
      NoneBut(g);
    } else {
      DataFrom(g, k - 1);
      OneMoreBut(g, k);
      if k < |g.data| { assert g.data[1..k] + [g.data[k]] == g.data[1..k + 1]; } else { assert g.data[1..k] == g.data[1..]; }
    }
  }

  lemma NoneBut(g: Group)
    ensures DataOf(g, AllBut(0, 0)) == []
  {
  }

  lemma OneMoreBut(g: Group, k: nat)
    requires 1 <= k <= |g.data|
    ensures DataOf(g, AllBut(k, 0)) == DataOf(g, AllBut(k - 1, 0)) + if k < |g.data| then [g.data[k]] else []
  {
    assert AllBut(k, 0)[..k - 1] == AllBut(k - 1, 0);
  }

  /** With two packets a group and the first group still open, a whole turn later
      the two groups merge: what comes out as one group is half of each. */
  lemma {:induction false} TurnMixes(s: u16, audio: seq<seq<Audio>>) returns (rx: Rx)
    requires AllOrdinary(audio, 2) && |audio| == 65537 && forall k :: 0 <= k < |audio| ==> Small(audio[k])
    requires !audio[0][0].flags.last && !audio[65536][1].flags.last
    ensures var gs := SentGroups(s, 2, audio);
            && |gs[0].data| == |gs[65536].data| == 2
            && Channels(gs, Outage(65536, [0], [1])) && AllAcceptable(Arrived(gs, Outage(65536, [0], [1])))
            && ReceiveAll(FRESH, Arrived(gs, Outage(65536, [0], [1]))) == (rx, [gs[0].data[0], gs[65536].data[1]])
    ensures rx.lost == 0
  {
    hide SentGroups, WellSent, Framed, Ordinary, Small, SmallGroup, Arrived, ReceiveAll, AllAcceptable, Channels, Outage, Received;
    var gs, b := SentGroups(s, 2, audio), WrapSub(s, 3);
    SenderStream(s, 2, audio);
    AllSentSmall(s, 2, audio);
    BaseAt(gs, b, 2, 65536);
    WrapWhole(gs[0].base, 65536 * 3);
    assert NumberedAt(gs, b, 2, 0) && NumberedAt(gs, b, 2, 65536);
    FlagsSent(s, 2, audio, 0, 0);
    FlagsSent(s, 2, audio, 65536, 1);
    OutageSplits(gs, [0], [1], 65536);
    rx := HalfOfEach(gs[0], gs[65536]);
  }

  lemma {:induction false} FlagsSent(s: u16, n: nat, audio: seq<seq<Audio>>, k: nat, i: nat)
    requires 2 <= n <= 16 && forall k :: 0 <= k < |audio| ==> |audio[k]| == n
    requires k < |audio| && i < n
    ensures |SentGroups(s, n, audio)[k].data| == n
    ensures Flagged(SentGroups(s, n, audio)[k].data[i]) == audio[k][i].flags.last
    decreases |audio|
  {
    hide SentGroup, Flagged;
    var front := audio[..|audio| - 1];
    if k < |front| {
      FlagsSent(s, n, front, k, i);
    } else {
      var base := NextBase(SentGroups(s, n, front), s, n);
      SentFlags(base, audio[k]);
      SentData(base, audio[k]);
    }
  }

  lemma HalfOfEach(g: Group, h: Group) returns (rx: Rx)
    requires SmallGroup(g) && SmallGroup(h) && |g.data| == |h.data| == 2 && g.base == h.base
    requires !Flagged(g.parity) && !Flagged(g.data[0]) && !Flagged(h.data[1])
    requires Arrivals(g, [0]) && Arrivals(h, [1])
    ensures var ps := Received(g, [0]) + Received(h, [1]);
            && AllAcceptable(ps) && ReceiveAll(FRESH, ps) == (rx, [g.data[0], h.data[1]]) && rx.lost == 0
  {
    hide Process, WellSent, Framed, ReceiveAll, ProcessAll, AllAcceptable, SmallPackets, Sound;
    FreshFacts();
    FirstPacket(g);
    var open := Assembling(FRESH, g, [0]);
    SecondPacket(open, g, h);
    var r := ProcessAll(open, Received(h, [1]));
    JoinReceived(Received(g, [0]), Received(h, [1]), open, [], r.0, r.1);
    SmallArrivals(g, [0]);
    SmallArrivals(h, [1]);
    SmallBoth(Received(g, [0]), Received(h, [1]));
    SmallReceived(FRESH, Received(g, [0]) + Received(h, [1]));
    rx := r.0;
    assert [] + r.1 == r.1;
  }

  lemma FirstPacket(g: Group)
    requires WellSent(g) && |g.data| == 2 && !Flagged(g.data[0])
    ensures Arrivals(g, [0]) && AllAcceptable(Received(g, [0]))
    ensures Valid(Assembling(FRESH, g, [0]))
    ensures ProcessAll(FRESH, Received(g, [0])) == (Assembling(FRESH, g, [0]), [])
  {
    hide Feed, Assembling;
    FreshFacts();
    assert Arrivals(g, [0]);
    Assembly(FRESH, g, [0]);
    ReceivedOne(g, 0);
    FlushAtEnd(FRESH, Received(g, [0]));
  }

  lemma SecondPacket(open: Rx, g: Group, h: Group)
    requires WellSent(g) && WellSent(h) && |g.data| == |h.data| == 2 && g.base == h.base && !Flagged(h.data[1])
    requires open == Assembling(FRESH, g, [0]) && Valid(open)
    ensures Arrivals(h, [1]) && AllAcceptable(Received(h, [1]))
    ensures ProcessAll(open, Received(h, [1])).1 == [g.data[0], h.data[1]]
    ensures ProcessAll(open, Received(h, [1])).0.lost == 0
  {
    hide WellSent, Process, Feed;
    assert Arrivals(h, [1]);
    ReceivedAcceptable(h, [1]);
    assert open.slots == [Some(g.data[0]), None];
    var full := Overlay(open.slots, h, [1]);
    assert full == [Some(g.data[0]), Some(h.data[1])];
    MissingNone(full);
    assert [1][..0] == [] && Overlay(open.slots, h, []) == open.slots;
    MissingSome(open.slots, 1);
    MergeEmitsMixture(open, h, [1]);
    ReceivedOne(h, 1);
    WireBase(h, 1);
    LostStays(open, h.data[1]);
  }

  lemma LostStays(rx: Rx, p: Packet)
    requires Valid(rx) && Acceptable(p.header) && IsData(p.header) && rx.base == Some(BaseOf(p.header)) && !Flagged(p)
    ensures AllAcceptable([p]) && ProcessAll(rx, [p]).0.lost == rx.lost
  {
    hide Missing, Held, Rebuild;
    var none: seq<Packet>, ps := [], [p];
    assert ps[..0] == none && ps[0] == p && ProcessAll(rx, none) == (rx, none);
    StoreValid(rx, p);
    CompleteValid(Store(rx, p));
  }
}
