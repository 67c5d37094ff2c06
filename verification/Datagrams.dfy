/** The endpoint's receive loop: datagrams are read into a buffer for 8192 bytes
    of payload, and one whose length is not the one its header gives is dropped. */
module Datagrams {
  import opened Bytes
  import opened Arithmetic
  import opened Xor
  import opened Packets
  import opened FecEncoding
  import opened FecReceiving
  import opened FecGroups
  import opened AudioLoop

  const MAX_AUDIO_PAYLOAD: nat := 8192

  /** A packet as the socket hands it over: what does not fit the buffer is gone. */
  function Read(p: Packet): Packet {
    p.(payload := p.payload[..Min(|p.payload|, MAX_AUDIO_PAYLOAD)])
  }

  predicate Passes(p: Packet) { |Read(p).payload| == p.header.payloadLen }

  function Receive(rx: Rx, p: Packet): (r: (Rx, seq<Packet>))
    requires Valid(rx) && Acceptable(p.header)
    ensures Valid(r.0)
  {
    if Passes(p) then Process(rx, Read(p)) else (rx, [])
  }

  function ReceiveAll(rx: Rx, ps: seq<Packet>): (r: (Rx, seq<Packet>))
    requires Valid(rx) && AllAcceptable(ps)
    ensures Valid(r.0)
  {
    if ps == [] then (rx, [])
    else
      var (mid, out) := ReceiveAll(rx, ps[..|ps| - 1]);
      var (next, more) := Receive(mid, ps[|ps| - 1]);
      (next, out + more)
  }

  /** The loop itself, over everything that arrives. */
  method ReceiveLoop(fec: FecReceiver, ps: seq<Packet>) returns (deliverable: seq<Packet>)
    requires Valid(fec.State()) && AllAcceptable(ps)
    modifies fec
    ensures (fec.State(), deliverable) == ReceiveAll(old(fec.State()), ps)
  {
    hide Feed, Flush, Sound;
    deliverable := [];
    for k := 0 to |ps|
      invariant (fec.State(), deliverable) == ReceiveAll(old(fec.State()), ps[..k])
    {
      assert ps[..k + 1][..k] == ps[..k];
      ghost var before := fec.State();
      assert Acceptable(ps[k].header);
      var n := Min(|ps[k].payload|, MAX_AUDIO_PAYLOAD);
      if n != ps[k].header.payloadLen {
        assert deliverable + [] == deliverable;
        continue;
      }
      var p := Packet(ps[k].header, ps[k].payload[..n]);
      ValidTakes(before, p);
      var more := fec.FeedPacket(p);
      if p.header.flags.last {
        var rest := fec.FlushGroup();
        more := more + rest;
      }
      assert (fec.State(), more) == Receive(before, ps[k]);
      deliverable := deliverable + more;
    }
    assert ps[..|ps|] == ps;
  }

  /** A datagram counts if and only if what was read of it has the announced length,
      and then it is fed with exactly that many bytes; otherwise nothing happens. */
  lemma DropsExactly(rx: Rx, p: Packet)
    requires Valid(rx) && Acceptable(p.header)
    ensures var n := p.header.payloadLen;
            if n == |p.payload| <= 8192 || n == 8192 <= |p.payload|
            then Receive(rx, p) == Process(rx, Packet(p.header, p.payload[..n]))
            else Receive(rx, p) == (rx, [])
  {
    hide Process, Sound;
  }

  /** The packets the loop keeps, as it reads them. */
  function Kept(ps: seq<Packet>): seq<Packet> {
    if ps == [] then []
    else
      var p := ps[|ps| - 1];
      Kept(ps[..|ps| - 1]) + if Passes(p) then [Read(p)] else []
  }

  /** Dropping is all the size check does. */
  lemma {:induction false} ReceiveKept(rx: Rx, ps: seq<Packet>)
    requires Valid(rx) && AllAcceptable(ps)
    ensures AllAcceptable(Kept(ps)) && ReceiveAll(rx, ps) == ProcessAll(rx, Kept(ps))
  {
    hide Process, Sound;
    if ps != [] {
      var front, p := ps[..|ps| - 1], ps[|ps| - 1];
      ReceiveKept(rx, front);
      var out := ProcessAll(rx, Kept(front)).1;
      if Passes(p) {
        assert (Kept(front) + [Read(p)])[..|Kept(front)|] == Kept(front);
      } else {
        assert Kept(front) + [] == Kept(front) && out + [] == out;
      }
    }
  }

  lemma {:induction false} KeptConcat(a: seq<Packet>, b: seq<Packet>)
    ensures Kept(a + b) == Kept(a) + Kept(b)
  {
    hide Passes, Read;
    if b == [] {
      assert a + b == a;
    } else {
      KeptConcat(a, b[..|b| - 1]);
      assert (a + b)[..|a + b| - 1] == a + b[..|b| - 1];
    }
  }

  // ----- Without error correction -----

  /** Packets outside any group, that pass the size check. */
  ghost predicate PlainAndSmall(p: Packet) {
    IsPlain(p.header) && p.header.payloadLen == |p.payload| <= 8192
  }

  /** They come out at once and as they arrive, after all that the receiver held
      when the first of them came. */
  lemma {:induction false} PlainInOrder(rx: Rx, ps: seq<Packet>)
    requires Valid(rx) && forall k :: 0 <= k < |ps| ==> PlainAndSmall(ps[k])
    ensures AllAcceptable(ps)
    ensures ReceiveAll(rx, ps) == if ps == [] then (rx, []) else (Flush(rx).0, Held(rx.slots) + ps)
  {
    hide Sound, Held;
    if ps != [] {
      var front, p := ps[..|ps| - 1], ps[|ps| - 1];
      PlainInOrder(rx, front);
      ReadWhole(p);
      PlainStep(ReceiveAll(rx, front).0, p);
      HoldsIdle(rx);
      assert ps == front + [p];
      assert (Held(rx.slots) + front) + [p] == Held(rx.slots) + ps;
      if front == [] { NothingBefore(Held(rx.slots) + [p]); } else { NothingBefore([p]); }
    }
  }

  lemma PlainStep(rx: Rx, p: Packet)
    requires Valid(rx) && IsPlain(p.header)
    ensures Process(rx, p) == (Flush(rx).0, Held(rx.slots) + [p])
    ensures Flush(Flush(rx).0) == (Flush(rx).0, []) && Held(Flush(rx).0.slots) == []
  {
    var out := Held(rx.slots) + [p];
    assert Flush(rx).1 == Held(rx.slots);
    assert out + [] == out;
  }

  lemma HoldsIdle(rx: Rx)
    requires Valid(rx)
    ensures Valid(Flush(rx).0) && Flush(Flush(rx).0).0 == Flush(rx).0 && Held(Flush(rx).0.slots) == []
  {
  }

  // ----- Groups -----

  /** Headers give the length of what they head. */
  ghost predicate Framed(g: Group) {
    forall x :: 0 <= x <= |g.data| ==> FramedAt(g, x)
  }

  ghost predicate FramedAt(g: Group, x: nat)
    requires x <= |g.data|
  {
    Wire(g)[x].header.payloadLen == |Wire(g)[x].payload|
  }

  /** The arrivals the loop does not drop. */
  ghost function Fitting(g: Group, arr: seq<nat>): seq<nat>
    requires Arrivals(g, arr)
  {
    if arr == [] then []
    else
      var x := arr[|arr| - 1];
      Fitting(g, arr[..|arr| - 1]) + if Passes(Wire(g)[x]) then [x] else []
  }

  lemma {:induction false} FittingIn(g: Group, arr: seq<nat>)
    requires Arrivals(g, arr)
    ensures Arrivals(g, Fitting(g, arr))
    ensures forall x :: x in Fitting(g, arr) <==> x in arr && Passes(Wire(g)[x])
  {
    hide Passes;
    if arr != [] {
      var front, x := arr[..|arr| - 1], arr[|arr| - 1];
      FittingIn(g, front);
      assert arr == front + [x] && x !in front;
    }
  }

  /** For a group, the size check is one more way to lose packets. */
  lemma {:induction false} KeptReceived(g: Group, arr: seq<nat>)
    requires Framed(g) && Arrivals(g, arr)
    ensures Arrivals(g, Fitting(g, arr))
    ensures Kept(Received(g, arr)) == Received(g, Fitting(g, arr))
  {
    hide Passes;
    FittingIn(g, arr);
    if arr != [] {
      var k := |arr| - 1;
      var p := Wire(g)[arr[k]];
      KeptReceived(g, arr[..k]);
      ReceivedPrefix(g, arr, k);
      var ps := Received(g, arr);
      assert ps[..k] == Received(g, arr[..k]) && ps[k] == p;
      assert FramedAt(g, arr[k]);
      if Passes(p) { ReadWhole(p); }
    }
  }

  lemma ReadWhole(p: Packet)
    requires p.header.payloadLen == |p.payload|
    ensures Passes(p) <==> |p.payload| <= 8192
    ensures Passes(p) ==> Read(p) == p
  {
  }

  /** A data packet passes if and only if its payload is at most 8192 bytes, the
      parity if and only if all of the group's are. */
  lemma SizesDecide(g: Group, i: nat)
    requires WellSent(g) && Framed(g) && i < |g.data|
    ensures Passes(g.data[i]) <==> |g.data[i].payload| <= 8192
    ensures Passes(g.parity) <==> forall k :: 0 <= k < |g.data| ==> |g.data[k].payload| <= 8192
  {
    hide Passes;
    assert FramedAt(g, i) && FramedAt(g, |g.data|);
    ReadWhole(g.data[i]);
    ReadWhole(g.parity);
    LongestAtMost(Payloads(g.data), 8192);
    assert forall k :: 0 <= k < |g.data| ==> Payloads(g.data)[k] == g.data[k].payload;
  }

  lemma {:induction false} LongestAtMost(ps: seq<seq<byte>>, m: nat)
    ensures Longest(ps) <= m <==> forall k :: 0 <= k < |ps| ==> |ps[k]| <= m
  {
    if ps != [] {
      var front := ps[..|ps| - 1];
      LongestAtMost(front, m);
      assert forall k :: 0 <= k < |front| ==> front[k] == ps[k];
    }
  }

  /** With nothing too large, nothing is dropped. */
  lemma {:induction false} SmallFits(g: Group, arr: seq<nat>)
    requires WellSent(g) && Framed(g) && Arrivals(g, arr)
    requires forall k :: 0 <= k < |g.data| ==> |g.data[k].payload| <= 8192
    ensures Fitting(g, arr) == arr
  {
    assert |g.data| >= 2;
    hide Passes, WellSent;
    if arr != [] {
      var k := |arr| - 1;
      SmallFits(g, arr[..k]);
      SizesDecide(g, if arr[k] < |g.data| then arr[k] else 0);
      assert arr == arr[..k] + [arr[k]];
    }
  }

  /** One payload of more than 8192 bytes costs a group that packet and its
      parity, so that it cannot come out whole, whatever arrives. */
  lemma {:induction false} OversizeSpoils(g: Group, arr: seq<nat>, i: nat)
    requires WellSent(g) && Framed(g) && Arrivals(g, arr) && i < |g.data| && |g.data[i].payload| > 8192
    ensures Arrivals(g, Fitting(g, arr)) && !WholeOnce(g, Fitting(g, arr))
  {
    hide Passes, WellSent, FirstFlag;
    FittingIn(g, arr);
    SizesDecide(g, i);
    var fit, n := Fitting(g, arr), |g.data|;
    assert Wire(g)[i] == g.data[i] && Wire(g)[n] == g.parity;
    FilledMissing(g, fit);
    MissingSome(Filled(g, fit), i);
    assert |Useful(g, fit)| <= |fit| < n;
  }
}
