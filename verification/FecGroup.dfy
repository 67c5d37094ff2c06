/** What a receiver does with one group: any n of its n + 1 packets, in any
    order that starts with a data packet, give back the whole group. */
module FecGroups {
  import opened Bytes
  import opened Arithmetic
  import opened Xor
  import opened Packets
  import opened FecEncoding
  import opened FecReceiving
  import opened FecTimes

  datatype Group = Group(base: u16, data: seq<Packet>, parity: Packet)

  ghost predicate DataOk(g: Group, i: nat)
    requires i < |g.data|
  {
    var h := g.data[i].header;
    && !h.flags.fec
    && h.fecGroupSize == |g.data|
    && h.fecIndex == i
    && h.sequence == WrapAdd(g.base, i)
    && |g.data[i].payload| < 0x1_0000
  }

  ghost predicate ParityOk(g: Group) {
    var h := g.parity.header;
    && h.flags.fec
    && h.fecGroupSize == |g.data|
    && h.sequence == WrapAdd(g.base, |g.data|)
    && Parity(g.parity.payload, h.fecLenXor) == ParityOf(Payloads(g.data))
  }

  /** A group numbered and protected as section 9.1.1 of the OAAT specification says. */
  ghost predicate WellSent(g: Group) {
    && 2 <= |g.data| <= 16
    && (forall i :: 0 <= i < |g.data| ==> DataOk(g, i))
    && ParityOk(g)
  }

  /** The group on the wire: position n is the parity. */
  function Wire(g: Group): seq<Packet> { g.data + [g.parity] }

  /** Arrivals name wire positions; a duplicate-free channel never repeats one. */
  ghost predicate Arrivals(g: Group, arr: seq<nat>) {
    && (forall k :: 0 <= k < |arr| ==> arr[k] <= |g.data|)
    && (forall j, k :: 0 <= j < k < |arr| ==> arr[j] != arr[k])
  }

  ghost function Received(g: Group, arr: seq<nat>): (r: seq<Packet>)
    requires Arrivals(g, arr)
    ensures |r| == |arr|
  {
    seq(|arr|, k requires 0 <= k < |arr| => Wire(g)[arr[k]])
  }

  lemma Snoc(arr: seq<nat>)
    requires arr != []
    ensures arr == arr[..|arr| - 1] + [arr[|arr| - 1]]
  {
  }

  lemma ReceivedPrefix(g: Group, arr: seq<nat>, k: nat)
    requires Arrivals(g, arr) && k <= |arr|
    ensures Arrivals(g, arr[..k])
    ensures Received(g, arr)[..k] == Received(g, arr[..k])
    ensures k < |arr| ==> arr[k] <= |g.data| && Received(g, arr)[k] == Wire(g)[arr[k]]
    ensures k == |arr| - 1 ==> Received(g, arr) == Received(g, arr[..k]) + [Wire(g)[arr[k]]]
  {
  }

  lemma ReceivedSplit(g: Group, arr: seq<nat>, k: nat)
    requires Arrivals(g, arr) && k <= |arr|
    ensures Arrivals(g, arr[..k]) && Arrivals(g, arr[k..])
    ensures Received(g, arr) == Received(g, arr[..k]) + Received(g, arr[k..])
  {
  }

  lemma ReceivedOne(g: Group, x: nat)
    requires x <= |g.data|
    ensures Received(g, [x]) == [Wire(g)[x]]
  {
  }

  ghost predicate AllAcceptable(ps: seq<Packet>) {
    forall k :: 0 <= k < |ps| ==> Acceptable(ps[k].header)
  }

  function FeedAll(rx: Rx, ps: seq<Packet>): (r: (Rx, seq<Packet>))
    requires Valid(rx) && AllAcceptable(ps)
    ensures Valid(r.0)
  {
    if ps == [] then (rx, [])
    else
      var (mid, out) := FeedAll(rx, ps[..|ps| - 1]);
      var (next, more) := Feed(mid, ps[|ps| - 1]);
      (next, out + more)
  }

  lemma {:induction false} FeedAllConcat(rx: Rx, a: seq<Packet>, b: seq<Packet>)
    requires Valid(rx) && AllAcceptable(a) && AllAcceptable(b)
    ensures var (mid, out) := FeedAll(rx, a);
            var (next, more) := FeedAll(mid, b);
            FeedAll(rx, a + b) == (next, out + more)
  {
    hide Feed;
    if b == [] {
      assert a + b == a;
      assert FeedAll(rx, a).1 + [] == FeedAll(rx, a).1;
    } else {
      FeedAllConcat(rx, a, b[..|b| - 1]);
      assert (a + b)[..|a + b| - 1] == a + b[..|b| - 1];
      var (mid, out) := FeedAll(rx, a);
      var (part, more) := FeedAll(mid, b[..|b| - 1]);
      var last := Feed(part, b[|b| - 1]).1;
      assert (out + more) + last == out + (more + last);
    }
  }

  // ----- The state of a group under assembly -----

  function Filled(g: Group, arr: seq<nat>): Slots {
    seq(|g.data|, i requires 0 <= i < |g.data| => if i in arr then Some(g.data[i]) else None)
  }

  /** The receiver `idle` after the arrivals `arr` of the open group `g`. */
  function Assembling(idle: Rx, g: Group, arr: seq<nat>): Rx
    requires |g.data| < 0x100
  {
    idle.(base := Some(g.base), groupSize := |g.data|, slots := Filled(g, arr),
          parity := if |g.data| in arr
                    then Some(Parity(g.parity.payload, g.parity.header.fecLenXor)) else None)
  }

  lemma WrapCancel(base: u16, i: nat)
    ensures WrapSub(WrapAdd(base, i), i) == base
  {
  }

  lemma WireBase(g: Group, x: nat)
    requires WellSent(g) && x <= |g.data|
    ensures BaseOf(Wire(g)[x].header) == g.base
    ensures Acceptable(Wire(g)[x].header)
    ensures x < |g.data| ==> IsData(Wire(g)[x].header)
  {
    WrapCancel(g.base, x);
    if x < |g.data| { assert DataOk(g, x); }
  }

  lemma ReceivedAcceptable(g: Group, arr: seq<nat>)
    requires WellSent(g) && Arrivals(g, arr)
    ensures AllAcceptable(Received(g, arr))
  {
    forall k | 0 <= k < |arr| ensures Acceptable(Received(g, arr)[k].header) { WireBase(g, arr[k]); }
  }

  /** Slots still empty after `arr`: all but the data packets among the arrivals. */
  lemma {:induction false} FilledMissing(g: Group, arr: seq<nat>)
    requires Arrivals(g, arr)
    ensures Missing(Filled(g, arr)) == |g.data| - |arr| + (if |g.data| in arr then 1 else 0)
  {
    hide Missing;
    if arr == [] {
      MissingAll(Filled(g, arr));
    } else {
      var rest, x := arr[..|arr| - 1], arr[|arr| - 1];
      assert arr == rest + [x];
      FilledMissing(g, rest);
      FilledSnoc(g, rest, x);
      if x < |g.data| {
        MissingUpdate(Filled(g, rest), x, Some(g.data[x]));
      }
    }
  }

  lemma FilledSnoc(g: Group, rest: seq<nat>, x: nat)
    ensures Filled(g, rest + [x]) == if x < |g.data| then Filled(g, rest)[x := Some(g.data[x])] else Filled(g, rest)
  {
  }

  /** The group is new to the receiver: its number is neither that of the group
      open nor that of the group closed last. */
  ghost predicate Ready(rx: Rx, g: Group) {
    Valid(rx) && rx.base != Some(g.base) && rx.prev != Some(g.base)
  }

  lemma FirstArrival(rx: Rx, g: Group, x: nat)
    requires WellSent(g) && x < |g.data| && Ready(rx, g)
    ensures Acceptable(Wire(g)[x].header)
    ensures Feed(rx, Wire(g)[x]) == (Assembling(Flush(rx).0, g, [x]), Flush(rx).1)
  {
    WireBase(g, x);
    assert DataOk(g, x);
    var p := g.data[x];
    var open := OpenGroup(rx, p.header).0;
    assert Store(open, p) == Assembling(Flush(rx).0, g, [x]) by {
      assert open.slots[x := Some(p)] == Filled(g, [x]);
    }
    FilledMissing(g, [x]);
    assert Flush(rx).1 + [] == Flush(rx).1;
  }

  /** The receiver's next step on an open group, before it looks for completion. */
  lemma NextArrival(idle: Rx, g: Group, arr: seq<nat>, x: nat)
    requires WellSent(g) && Arrivals(g, arr) && x <= |g.data|
    requires Valid(Assembling(idle, g, arr))
    ensures Acceptable(Wire(g)[x].header)
    ensures Rebuildable(Assembling(idle, g, arr + [x]))
    ensures Feed(Assembling(idle, g, arr), Wire(g)[x]) == TryComplete(Assembling(idle, g, arr + [x]))
  {
    WireBase(g, x);
    var rx := Assembling(idle, g, arr);
    if x < |g.data| {
      assert DataOk(g, x);
      assert rx.slots[x := Some(g.data[x])] == Filled(g, arr + [x]);
      assert Store(rx, g.data[x]) == Assembling(idle, g, arr + [x]);
      assert [] + TryComplete(Store(rx, g.data[x])).1 == TryComplete(Store(rx, g.data[x])).1;
    } else {
      assert Filled(g, arr + [x]) == Filled(g, arr);
    }
  }

  lemma NothingYet(idle: Rx, g: Group, arr: seq<nat>)
    requires WellSent(g) && Arrivals(g, arr) && |arr| < |g.data|
    ensures Rebuildable(Assembling(idle, g, arr))
    ensures TryComplete(Assembling(idle, g, arr)) == (Assembling(idle, g, arr), [])
  {
    FilledMissing(g, arr);
  }

  lemma AssemblyFirst(rx: Rx, g: Group, x: nat)
    requires WellSent(g) && Ready(rx, g) && x < |g.data|
    ensures AllAcceptable(Received(g, [x]))
    ensures FeedAll(rx, Received(g, [x])) == (Assembling(Flush(rx).0, g, [x]), Flush(rx).1)
  {
    hide Feed, Assembling;
    ReceivedAcceptable(g, [x]);
    FirstArrival(rx, g, x);
    assert Received(g, [x]) == [] + [Wire(g)[x]];
    FeedSnoc(rx, [], Wire(g)[x], (rx, []), (Assembling(Flush(rx).0, g, [x]), Flush(rx).1));
    assert [] + Flush(rx).1 == Flush(rx).1;
  }

  /** Fewer than n arrivals are all held back. */
  lemma {:induction false} Assembly(rx: Rx, g: Group, arr: seq<nat>)
    requires WellSent(g) && Arrivals(g, arr) && Ready(rx, g)
    requires 1 <= |arr| < |g.data| && arr[0] < |g.data|
    ensures AllAcceptable(Received(g, arr))
    ensures FeedAll(rx, Received(g, arr)) == (Assembling(Flush(rx).0, g, arr), Flush(rx).1)
  {
    hide Feed, TryComplete, Rebuildable, Assembling, Panics;
    ReceivedAcceptable(g, arr);
    var n := |arr| - 1;
    if n == 0 {
      assert arr == [arr[0]];
      AssemblyFirst(rx, g, arr[0]);
    } else {
      ReceivedPrefix(g, arr, n);
      Assembly(rx, g, arr[..n]);
      NothingYet(Flush(rx).0, g, arr);
      LastArrival(rx, Flush(rx).0, Flush(rx).1, g, arr, (Assembling(Flush(rx).0, g, arr), []));
      assert Flush(rx).1 + [] == Flush(rx).1;
    }
  }

  lemma FeedSnoc(rx: Rx, ps: seq<Packet>, p: Packet, before: (Rx, seq<Packet>), r: (Rx, seq<Packet>))
    requires Valid(rx) && AllAcceptable(ps) && Acceptable(p.header) && FeedAll(rx, ps) == before
    requires Feed(before.0, p) == r
    ensures FeedAll(rx, ps + [p]) == (r.0, before.1 + r.1)
  {
    hide Feed;
    assert (ps + [p])[..|ps|] == ps;
  }

  /** One more arrival on a group under assembly: everything turns on completion. */
  lemma LastArrival(rx: Rx, idle: Rx, out: seq<Packet>, g: Group, arr: seq<nat>, r: (Rx, seq<Packet>))
    requires WellSent(g) && Arrivals(g, arr) && |arr| > 0 && Arrivals(g, arr[..|arr| - 1])
    requires Valid(rx) && AllAcceptable(Received(g, arr)) && AllAcceptable(Received(g, arr[..|arr| - 1]))
    requires FeedAll(rx, Received(g, arr[..|arr| - 1])) == (Assembling(idle, g, arr[..|arr| - 1]), out)
    requires Rebuildable(Assembling(idle, g, arr)) && TryComplete(Assembling(idle, g, arr)) == r
    ensures FeedAll(rx, Received(g, arr)) == (r.0, out + r.1)
  {
    hide Feed, TryComplete, Rebuildable, Valid, Assembling, Received;
    var n := |arr| - 1;
    ReceivedPrefix(g, arr, n);
    Snoc(arr);
    NextArrival(idle, g, arr[..n], arr[n]);
    FeedSnoc(rx, Received(g, arr[..n]), Wire(g)[arr[n]], (Assembling(idle, g, arr[..n]), out), r);
  }

  // ----- Completion -----

  /** What the group looks like when it comes out: received packets untouched,
      a rebuilt one with the exact payload, length, sequence and position, on
      the stream of the first other packet of the group, its flags lost and its times
      extrapolated. */
  ghost predicate Delivers(out: seq<Packet>, g: Group, arr: seq<nat>) {
    && |out| == |g.data|
    && forall i :: 0 <= i < |out| ==> if i in arr then out[i] == g.data[i] else Restores(out[i], g, i)
  }

  ghost predicate Restores(p: Packet, g: Group, i: nat)
    requires i < |g.data|
  {
    && |g.data| >= 2
    && p.payload == g.data[i].payload
    && p.header.sequence == g.data[i].header.sequence
    && p.header.payloadLen == |p.payload|
    && p.header.fecIndex == i
    && p.header.fecGroupSize == |g.data|
    && p.header.fecLenXor == 0
    && p.header.flags == NO_FLAGS
    && Stamped(p.header, g.data, i)
    && SameStream(p.header, g.data[if i == 0 then 1 else 0].header)
  }

  predicate SameStream(a: Header, b: Header) {
    a.version == b.version && a.format == b.format && a.streamId == b.streamId
  }

  /** The times of the packets rebuilt in a group of three or more: steps of `s`
      or `s + 1` put a timestamp within the extrapolation slack of the lost one,
      uniform steps make timestamp and sample offset exact, in each case if and
      only if the estimate fits 63 bits. Packets that arrived keep theirs. */
  ghost predicate Timely(out: seq<Packet>, g: Group, arr: seq<nat>, s: int)
    requires |out| == |g.data| >= 3
  {
    forall i :: 0 <= i < |out| && i !in arr ==> TimelyAt(out[i].header, g.data, i, s)
  }

  ghost predicate TimelyAt(now: Header, data: seq<Packet>, i: nat, s: int)
    requires i < |data| && |data| >= 3
  {
    var was := data[i].header;
    && (Steady(PtsOf(data), s) ==> (-Slack(i) <= now.ptsNs - was.ptsNs <= Slack(i) <==> Fits(PtsOf(data), i)))
    && (Uniform(PtsOf(data), s) ==> (now.ptsNs == was.ptsNs <==> Fits(PtsOf(data), i)))
    && (Uniform(OffsetsOf(data), s) ==> (now.sampleOffset == was.sampleOffset <==> Fits(OffsetsOf(data), i)))
  }

  lemma DeliveredTimes(out: seq<Packet>, g: Group, arr: seq<nat>, s: int)
    requires 3 <= |g.data| <= 16 && Delivers(out, g, arr)
    ensures Timely(out, g, arr, s)
  {
    hide Steady, Uniform, Stamped, Fits;
    forall i | 0 <= i < |out| && i !in arr ensures TimelyAt(out[i].header, g.data, i, s) {
      assert Restores(out[i], g, i);
      RebuiltTimes(out[i].header, g.data, i, s);
    }
  }

  lemma {:induction false} HeldFull(slots: Slots)
    requires forall i :: 0 <= i < |slots| ==> slots[i].Some?
    ensures |Held(slots)| == |slots|
    ensures forall i :: 0 <= i < |slots| ==> Held(slots)[i] == slots[i].value
  {
    if slots != [] { HeldFull(slots[..|slots| - 1]); }
  }

  lemma HeldGap(slots: Slots, e: nat)
    requires e < |slots| && slots[e].None?
    requires forall i :: 0 <= i < |slots| && i != e ==> slots[i].Some?
    ensures |Held(slots)| == |slots| - 1
    ensures forall i :: 0 <= i < |slots| - 1 ==> Held(slots)[i] == slots[if i < e then i else i + 1].value
  {
    assert slots == slots[..e] + ([None] + slots[e + 1..]);
    HeldConcat(slots[..e], [None] + slots[e + 1..]);
    HeldConcat([None], slots[e + 1..]);
    var gap: Slots := [None];
    assert gap[..0] == [];
    HeldFull(slots[..e]);
    HeldFull(slots[e + 1..]);
  }

  /** XOR recovery is exact: any one payload of a group comes back byte for
      byte and at its own length, whatever the lengths of the others. */
  lemma RebuildExact(ps: seq<seq<byte>>, e: nat)
    requires e < |ps| && |ps[e]| < 0x1_0000
    ensures RebuildPayload(ParityOf(ps), Without(ps, e)) == ps[e]
  {
    var full := Unmask(ParityOf(ps).payload, Without(ps, e));
    LongestBounds(ps, e);
    LenXorErasure(ps, e);
    forall j | 0 <= j < |ps[e]| ensures full[j] == ps[e][j] { ColumnErasure(ps, e, j); }
    assert full[..|ps[e]|] == ps[e];
  }

  /** With exactly one empty slot, every other slot is filled. */
  lemma OneGap(slots: Slots, e: nat, i: nat, filler: Packet)
    requires Missing(slots) == 1 && e < |slots| && slots[e].None?
    requires i < |slots| && i != e
    ensures slots[i].Some?
  {
    MissingUpdate(slots, e, Some(filler));
    if slots[i].None? { MissingSome(slots[e := Some(filler)], i); }
  }

  /** n distinct arrivals without the parity: nothing is missing. */
  lemma {:induction false} NoGap(slots: Slots, i: nat)
    requires Missing(slots) == 0 && i < |slots|
    ensures slots[i].Some?
  {
    if slots[i].None? { MissingSome(slots, i); }
  }

  /** The state after a group closed with nothing lost. */
  function Closed(idle: Rx, g: Group, rebuilt: bool): Rx
    requires |g.data| < 0x100
  {
    idle.(prev := Some(g.base), base := None, slots := [], parity := None, groupSize := |g.data|,
          recovered := idle.recovered + if rebuilt then 1 else 0)
  }

  lemma CompleteFull(idle: Rx, g: Group, arr: seq<nat>)
    requires WellSent(g) && Arrivals(g, arr) && |arr| == |g.data| && |g.data| !in arr
    ensures Rebuildable(Assembling(idle, g, arr))
    ensures var r := TryComplete(Assembling(idle, g, arr));
            r.0 == Closed(idle, g, false) && Delivers(r.1, g, arr)
  {
    var slots := Filled(g, arr);
    FilledMissing(g, arr);
    forall i | 0 <= i < |slots| ensures slots[i].Some? { NoGap(slots, i); }
    HeldFull(slots);
  }

  lemma CompleteRebuilt(idle: Rx, g: Group, arr: seq<nat>)
    requires WellSent(g) && Arrivals(g, arr) && |arr| == |g.data| && |g.data| in arr
    ensures Rebuildable(Assembling(idle, g, arr))
    ensures var r := TryComplete(Assembling(idle, g, arr));
            r.0 == Closed(idle, g, true) && Delivers(r.1, g, arr)
  {
    hide Restores, Held, Missing, ParityOf, Rebuild;
    var rx := Assembling(idle, g, arr);
    var slots := rx.slots;
    FilledMissing(g, arr);
    OneMissing(slots);
    var e := Find(slots, false, 0);
    assert DataOk(g, e);
    forall i | 0 <= i < |slots| ensures (i in arr <==> i != e) && (i != e ==> slots[i] == Some(g.data[i])) {
      if i != e { OneGap(slots, e, i, g.parity); }
    }
    RebuiltPacket(rx, g, e);
    var p := Rebuild(rx);
    DeliversFilled(slots[e := Some(p)], g, arr, e);
  }

  lemma DeliversFilled(full: Slots, g: Group, arr: seq<nat>, e: nat)
    requires |full| == |g.data| && e < |full| && full[e].Some?
    requires forall i :: 0 <= i < |full| && i != e ==> full[i] == Some(g.data[i])
    requires forall i :: 0 <= i < |full| ==> (i in arr <==> i != e)
    requires Restores(full[e].value, g, e)
    ensures Delivers(Held(full), g, arr)
  {
    HeldFull(full);
  }

  lemma KnownPayloads(slots: Slots, data: seq<Packet>, e: nat)
    requires |slots| == |data| && e < |slots| && slots[e].None?
    requires forall i :: 0 <= i < |slots| && i != e ==> slots[i] == Some(data[i])
    ensures Payloads(Held(slots)) == Without(Payloads(data), e)
  {
    HeldGap(slots, e);
  }

  lemma RebuiltPacket(rx: Rx, g: Group, e: nat)
    requires 2 <= |g.data| <= 16 && e < |g.data| && DataOk(g, e) && e == Find(rx.slots, false, 0)
    requires rx.base == Some(g.base) && rx.groupSize == |g.data| == |rx.slots|
    requires rx.parity == Some(ParityOf(Payloads(g.data)))
    requires Missing(rx.slots) == 1
    requires forall i :: 0 <= i < |rx.slots| && i != e ==> rx.slots[i] == Some(g.data[i])
    ensures Restores(Rebuild(rx), g, e)
  {
    hide RebuildPayload, ParityOf, Held, Missing, Extrapolate, Stamped;
    KnownPayloads(rx.slots, g.data, e);
    RebuildExact(Payloads(g.data), e);
    OneMissing(rx.slots);
    var k := Find(rx.slots, true, 0);
    var p := Rebuild(rx);
    SynthesizedTimes(rx.slots, g.data, e, rx.base.value, rx.groupSize, |p.payload| % 0x1_0000);
    assert k != e && SameStream(p.header, g.data[k].header);
  }

  /** A receiver fed any n of the n + 1 packets of a group, in any order that
      starts with a data packet, emits exactly the n packets, in index order,
      at the n-th arrival; it counts a recovery iff the parity is among them. */
  lemma AnyNOfGroup(rx: Rx, g: Group, arr: seq<nat>) returns (out: seq<Packet>)
    requires WellSent(g) && Arrivals(g, arr) && Ready(rx, g)
    requires |arr| == |g.data| && arr[0] < |g.data|
    ensures AllAcceptable(Received(g, arr))
    ensures FeedAll(rx, Received(g, arr)) ==
            (Closed(Flush(rx).0, g, |g.data| in arr), Flush(rx).1 + out)
    ensures Delivers(out, g, arr)
    ensures |g.data| >= 3 ==> forall s :: Timely(out, g, arr, s)
  {
    hide Timely, Delivers;
    ReceivedAcceptable(g, arr);
    ReceivedPrefix(g, arr, |arr| - 1);
    Assembly(rx, g, arr[..|arr| - 1]);
    if |g.data| in arr {
      CompleteRebuilt(Flush(rx).0, g, arr);
    } else {
      CompleteFull(Flush(rx).0, g, arr);
    }
    var r := TryComplete(Assembling(Flush(rx).0, g, arr));
    out := r.1;
    DeliversAll(out, g, arr);
    if |g.data| >= 3 {
      forall s ensures Timely(out, g, arr, s) { DeliveredTimes(out, g, arr, s); }
    }
    LastArrival(rx, Flush(rx).0, Flush(rx).1, g, arr, r);
  }

  /** Once a group is closed, its parity is dropped and a late original comes
      out a second time: duplicates are a property of the receiver. */
  lemma AfterClosed(idle: Rx, g: Group, rebuilt: bool, x: nat)
    requires WellSent(g) && x <= |g.data|
    ensures Acceptable(Wire(g)[x].header) && Valid(Closed(idle, g, rebuilt))
    ensures Feed(Closed(idle, g, rebuilt), Wire(g)[x]) ==
            (Closed(idle, g, rebuilt), if x == |g.data| then [] else [g.data[x]])
  {
    WireBase(g, x);
  }

  /** A parity that arrives before any data packet of its group is thrown away,
      so that group then needs all of its data packets. */
  lemma ParityFirst(rx: Rx, g: Group)
    requires WellSent(g) && Ready(rx, g)
    ensures Acceptable(g.parity.header)
    ensures Feed(rx, g.parity) == (rx, [])
  {
    WireBase(g, |g.data|);
  }

  /** All n + 1 packets delivered in any order: the group comes out once, without
      a repeat, if and only if the parity is the first or the last to arrive. */
  lemma WholeGroup(rx: Rx, g: Group, arr: seq<nat>) returns (out: seq<Packet>)
    requires WellSent(g) && Arrivals(g, arr) && Ready(rx, g) && rx.base.None?
    requires |arr| == |g.data| + 1
    ensures AllAcceptable(Received(g, arr))
    ensures FeedAll(rx, Received(g, arr)).1 == out
    ensures |out| >= |g.data|
    ensures |out| == |g.data| <==> arr[0] == |g.data| || arr[|g.data|] == |g.data|
    ensures Delivers(out[..|g.data|], g, if arr[0] == |g.data| then arr[1..] else arr[..|g.data|])
    ensures arr[0] < |g.data| && arr[|g.data|] < |g.data| ==> out[|g.data|..] == [g.data[arr[|g.data|]]]
  {
    hide Feed, Rebuildable, Valid, WellSent, Assembling, Delivers, Received;
    ReceivedAcceptable(g, arr);
    var n := |g.data|;
    if arr[0] == n {
      out := ParityThenData(rx, g, arr);
      assert out[..n] == out;
    } else {
      var rest := arr[..n];
      ReceivedPrefix(g, arr, n);
      var first := AnyNOfGroup(rx, g, rest);
      DeliversAll(first, g, rest);
      AfterClosed(Flush(rx).0, g, n in rest, arr[n]);
      out := first + if arr[n] == n then [] else [g.data[arr[n]]];
      assert Flush(rx).1 + first == first;
      assert out[..n] == first;
    }
  }

  /** With its parity wasted, a group still comes out whole from its n data packets. */
  lemma ParityThenData(rx: Rx, g: Group, arr: seq<nat>) returns (out: seq<Packet>)
    requires WellSent(g) && Arrivals(g, arr) && Ready(rx, g) && rx.base.None?
    requires |arr| == |g.data| + 1 && arr[0] == |g.data|
    ensures AllAcceptable(Received(g, arr))
    ensures FeedAll(rx, Received(g, arr)).1 == out
    ensures |out| == |g.data| && Delivers(out, g, arr[1..])
  {
    assert |g.data| >= 2;
    hide Feed, Rebuildable, Valid, WellSent, Assembling, Received, Delivers, Flush;
    ReceivedAcceptable(g, arr);
    var rest := arr[1..];
    ReceivedSplit(g, arr, 1);
    ReceivedOne(g, |g.data|);
    assert arr[..1] == [|g.data|];
    assert rest[0] == arr[1] != arr[0];
    ParityFirst(rx, g);
    FeedSnoc(rx, [], g.parity, (rx, []), (rx, []));
    assert [] + [g.parity] == [g.parity];
    out := AnyNOfGroup(rx, g, rest);
    FeedAllConcat(rx, [g.parity], Received(g, rest));
    FlushIdle(rx, out);
    DeliversAll(out, g, rest);
  }

  lemma FlushIdle(rx: Rx, out: seq<Packet>)
    requires rx.base.None?
    ensures Flush(rx).1 + out == out
  {
  }

  lemma DeliversAll(out: seq<Packet>, g: Group, arr: seq<nat>)
    requires Delivers(out, g, arr)
    ensures |out| == |g.data|
  {
  }
}
