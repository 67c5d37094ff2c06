/** The receiving half: reorders a group, rebuilds one missing packet from the
    parity, and emits packets in index order. `Rx` and the functions over it
    are the specification; class `FecReceiver` is the mutable receiver. */
module FecReceiving {
  import opened Bytes
  import opened Arithmetic
  import opened Xor
  import opened Packets
  import opened FecEncoding

  type Slots = seq<Option<Packet>>

  datatype Rx = Rx(
    base: Option<u16>,
    prev: Option<u16>,
    slots: Slots,
    parity: Option<Parity>,
    groupSize: u8,
    recovered: nat,
    lost: nat)

  const FRESH := Rx(None, None, [], None, 0, 0, 0)

  function Missing(slots: Slots): (r: nat)
    ensures r <= |slots|
  {
    if slots == [] then 0
    else Missing(slots[..|slots| - 1]) + if slots[|slots| - 1].None? then 1 else 0
  }

  /** The packets held, in index order. */
  function Held(slots: Slots): seq<Packet> {
    if slots == [] then []
    else
      var last := slots[|slots| - 1];
      Held(slots[..|slots| - 1]) + if last.None? then [] else [last.value]
  }

  /** First index from `i` on whose occupancy is `full`; the length if none. */
  function Find(slots: Slots, full: bool, i: nat): (r: nat)
    requires i <= |slots|
    ensures i <= r <= |slots|
    ensures r < |slots| ==> slots[r].Some? == full
    ensures forall k :: i <= k < r ==> slots[k].Some? != full
    decreases |slots| - i
  {
    if i == |slots| || slots[i].Some? == full then i else Find(slots, full, i + 1)
  }

  // ----- Rebuilding one packet -----

  /** Two's complement wrap-around of an i64. */
  function WrapI64(x: int): int { (x + TWO63) % TWO64 - TWO63 }

  /** Integer division rounding toward zero. */
  function TruncDiv(a: int, b: int): int
    requires b > 0
  {
    if a >= 0 then a / b else -(-a / b)
  }

  /** Value `d` steps away from `x0`, the step being `(x1 - x0) / di`. */
  function Extrapolate(x0: int, x1: int, di: int, d: int): u64
    requires di > 0
  {
    var x := WrapI64(x0 + TruncDiv(WrapI64(x1 - x0), di) * d);
    if x < 0 then 0 else x
  }

  function SynthesizeHeader(slots: Slots, base: u16, groupSize: u8, idx: nat, payloadLen: u16): Header
    requires idx < |slots| && idx < 0x100
    requires Find(slots, true, 0) < |slots|
  {
    var i0 := Find(slots, true, 0);
    var h0 := slots[i0].value.header;
    var i1 := Find(slots, true, i0 + 1);
    var (pts, offset) :=
      if i1 < |slots| then
        var h1 := slots[i1].value.header;
        (Extrapolate(h0.ptsNs, h1.ptsNs, i1 - i0, idx - i0),
         Extrapolate(h0.sampleOffset, h1.sampleOffset, i1 - i0, idx - i0))
      else
        (h0.ptsNs, h0.sampleOffset);
    Header(h0.version, NO_FLAGS, h0.format, WrapAdd(base, idx), h0.streamId, pts, offset,
           payloadLen, groupSize, idx, 0)
  }

  /** The parity payload with every known payload XORed out of it. */
  function Unmask(parity: seq<byte>, known: seq<seq<byte>>): seq<byte> {
    seq(|parity|, j requires 0 <= j < |parity| => parity[j] ^ Column(known, j))
  }

  /** The missing payload: unmasked parity cut to the length the XOR of the
      lengths gives (`truncate` never extends). */
  function RebuildPayload(parity: Parity, known: seq<seq<byte>>): seq<byte> {
    var full := Unmask(parity.payload, known);
    var len := XorNat(parity.lenXor, LenXor(known));
    if len < |full| then full[..len] else full
  }

  // ----- The receiver as a state machine -----

  /** At least one other packet of the group is at hand when one is rebuilt. */
  ghost predicate Rebuildable(rx: Rx) {
    && |rx.slots| < 0x100
    && (Missing(rx.slots) == 1 && rx.parity.Some? ==> rx.base.Some? && |rx.slots| >= 2)
  }

  function Rebuild(rx: Rx): Packet
    requires Missing(rx.slots) == 1 && rx.base.Some? && 2 <= |rx.slots| < 0x100
    requires rx.parity.Some?
  {
    OneMissing(rx.slots);
    var payload := RebuildPayload(rx.parity.value, Payloads(Held(rx.slots)));
    var idx := Find(rx.slots, false, 0);
    Packet(SynthesizeHeader(rx.slots, rx.base.value, rx.groupSize, idx, |payload| % 0x1_0000), payload)
  }

  function TakeGroup(rx: Rx): (Rx, seq<Packet>) {
    (rx.(prev := rx.base, base := None, slots := [], parity := None), Held(rx.slots))
  }

  function TryComplete(rx: Rx): (Rx, seq<Packet>)
    requires Rebuildable(rx)
  {
    if Missing(rx.slots) == 0 && rx.slots != [] then
      TakeGroup(rx)
    else if Missing(rx.slots) == 1 && rx.parity.Some? then
      OneMissing(rx.slots);
      var idx := Find(rx.slots, false, 0);
      TakeGroup(rx.(slots := rx.slots[idx := Some(Rebuild(rx))], parity := None, recovered := rx.recovered + 1))
    else
      (rx, [])
  }

  function Flush(rx: Rx): (Rx, seq<Packet>) {
    if rx.base.None? then (rx, [])
    else TakeGroup(rx.(lost := rx.lost + Missing(rx.slots)))
  }

  predicate IsPlain(h: Header) { h.fecGroupSize == 0 && !h.flags.fec }

  predicate IsData(h: Header) { h.fecGroupSize != 0 && !h.flags.fec }

  /** First sequence number of the group a data or a parity packet belongs to. */
  function BaseOf(h: Header): u16 {
    WrapSub(h.sequence, if h.flags.fec then h.fecGroupSize else h.fecIndex)
  }

  /** Between two calls: an idle receiver holds nothing, an open group lacks a
      packet, and one that has its parity lacks at least two. */
  ghost predicate Sound(rx: Rx) {
    && (rx.base.None? ==> rx.slots == [] && rx.parity.None?)
    && (rx.base.Some? ==>
          && |rx.slots| == rx.groupSize >= 1
          && Missing(rx.slots) >= (if rx.parity.Some? then 2 else 1))
  }

  /** The one packet the receiver cannot take: the parity of an open group of
      one. There is then no packet left to take a header from. */
  ghost predicate Panics(rx: Rx, p: Packet) {
    p.header.flags.fec && rx.base == Some(BaseOf(p.header)) && |rx.slots| == 1
  }

  /** A receiver that has met only acceptable headers has no open group of one. */
  ghost predicate Valid(rx: Rx) {
    Sound(rx) && (rx.base.Some? ==> |rx.slots| >= 2)
  }

  predicate Acceptable(h: Header) {
    IsData(h) && h.fecGroupSize == 1 ==> h.fecIndex == 0
  }

  /** The parity of an open group is refused exactly when it would have one
      packet to rebuild and none to extrapolate from. */
  lemma PanicsExactly(rx: Rx, p: Packet)
    requires Sound(rx) && p.header.flags.fec && rx.base == Some(BaseOf(p.header))
    ensures Panics(rx, p) <==> Missing(rx.slots) == 1 && Find(rx.slots, true, 0) == |rx.slots|
  {
    MissingPositive(rx.slots);
  }

  /** Two packets that bring it about, neither of which the wire format forbids:
      a data packet of a group of one with an index above 0, then its parity. */
  lemma GroupOfOne(rx: Rx, p: Packet, q: Packet)
    requires Sound(rx) && IsData(p.header) && p.header.fecGroupSize == 1 && p.header.fecIndex > 0
    requires rx.base != Some(BaseOf(p.header)) && rx.prev != Some(BaseOf(p.header))
    requires q.header.flags.fec && BaseOf(q.header) == BaseOf(p.header)
    ensures !Panics(rx, p) && Panics(Feed(rx, p).0, q)
  {
    MissingAll(seq(1, i => None));
  }

  function OpenGroup(rx: Rx, h: Header): (Rx, seq<Packet>) {
    var (idle, out) := Flush(rx);
    (idle.(base := Some(BaseOf(h)), groupSize := h.fecGroupSize, parity := None,
           slots := seq(h.fecGroupSize, i => None)), out)
  }

  function Store(rx: Rx, p: Packet): Rx {
    if p.header.fecIndex < |rx.slots| then rx.(slots := rx.slots[p.header.fecIndex := Some(p)]) else rx
  }

  function Feed(rx: Rx, p: Packet): (r: (Rx, seq<Packet>))
    requires Sound(rx) && !Panics(rx, p)
    ensures Sound(r.0)
    ensures Valid(rx) && Acceptable(p.header) ==> Valid(r.0)
  {
    var h := p.header;
    if IsPlain(h) then
      var (idle, out) := Flush(rx);
      (idle, out + [p])
    else if h.flags.fec then
      if rx.base == Some(BaseOf(h)) then
        var stored := rx.(parity := Some(Parity(p.payload, h.fecLenXor)));
        CompleteValid(stored);
        TryComplete(stored)
      else
        (rx, [])
    else if rx.prev == Some(BaseOf(h)) && rx.base != Some(BaseOf(h)) then
      (rx, [p])
    else
      var (open, flushed) := if rx.base == Some(BaseOf(h)) then (rx, []) else OpenGroup(rx, h);
      var stored := Store(open, p);
      StoreValid(rx, p);
      CompleteValid(stored);
      var (next, out) := TryComplete(stored);
      (next, flushed + out)
  }

  lemma {:induction false} MissingUpdate(slots: Slots, i: nat, v: Option<Packet>)
    requires i < |slots|
    ensures Missing(slots[i := v]) ==
            Missing(slots) + (if v.None? then 1 else 0) - (if slots[i].None? then 1 else 0)
  {
    var n := |slots| - 1;
    if i < n {
      MissingUpdate(slots[..n], i, v);
      assert slots[i := v][..n] == slots[..n][i := v];
    } else {
      assert slots[i := v][..n] == slots[..n];
    }
  }

  lemma {:induction false} MissingAll(slots: Slots)
    requires forall i :: 0 <= i < |slots| ==> slots[i].None?
    ensures Missing(slots) == |slots|
  {
    if slots != [] { MissingAll(slots[..|slots| - 1]); }
  }

  lemma {:induction false} MissingNone(slots: Slots)
    requires forall i :: 0 <= i < |slots| ==> slots[i].Some?
    ensures Missing(slots) == 0
  {
    if slots != [] { MissingNone(slots[..|slots| - 1]); }
  }

  lemma {:induction false} MissingSome(slots: Slots, i: nat)
    requires i < |slots| && slots[i].None?
    ensures Missing(slots) >= 1
  {
    if i < |slots| - 1 { MissingSome(slots[..|slots| - 1], i); }
  }

  lemma {:induction false} HeldConcat(a: Slots, b: Slots)
    ensures Held(a + b) == Held(a) + Held(b)
  {
    if b == [] {
      assert a + b == a;
    } else {
      HeldConcat(a, b[..|b| - 1]);
      assert (a + b)[..|a + b| - 1] == a + b[..|b| - 1];
    }
  }

  lemma MissingPositive(slots: Slots)
    ensures Missing(slots) >= 1 <==> Find(slots, false, 0) < |slots|
    ensures Missing(slots) < |slots| <==> Find(slots, true, 0) < |slots|
  {
    var gap, hit := Find(slots, false, 0), Find(slots, true, 0);
    if gap < |slots| { MissingSome(slots, gap); } else { MissingNone(slots); }
    if hit < |slots| {
      MissingUpdate(slots, hit, None);
      assert Missing(slots[hit := None]) <= |slots|;
    } else {
      MissingAll(slots);
    }
  }

  lemma OneMissing(slots: Slots)
    requires Missing(slots) == 1
    ensures Find(slots, false, 0) < |slots|
    ensures |slots| >= 2 ==> Find(slots, true, 0) < |slots|
  {
    MissingPositive(slots);
  }

  lemma StoreValid(rx: Rx, p: Packet)
    requires Sound(rx) && IsData(p.header)
    ensures var open := (if rx.base == Some(BaseOf(p.header)) then (rx, []) else OpenGroup(rx, p.header)).0;
            var s := Store(open, p);
            && s.base.Some? && |s.slots| == s.groupSize >= 1
            && (s.parity.Some? ==> Missing(s.slots) >= 1 && |s.slots| >= 2)
            && (Valid(rx) && Acceptable(p.header) && |s.slots| == 1 ==> Missing(s.slots) == 0)
  {
    var open := (if rx.base == Some(BaseOf(p.header)) then (rx, []) else OpenGroup(rx, p.header)).0;
    MissingAll(seq(p.header.fecGroupSize, i => None));
    if p.header.fecIndex < |open.slots| {
      MissingUpdate(open.slots, p.header.fecIndex, Some(p));
    }
  }

  lemma FlushValid(rx: Rx)
    requires Sound(rx)
    ensures Valid(Flush(rx).0)
  {
  }

  lemma CompleteValid(rx: Rx)
    requires rx.base.Some? && |rx.slots| == rx.groupSize >= 1
    requires rx.parity.Some? ==> Missing(rx.slots) >= 1 && |rx.slots| >= 2
    ensures Rebuildable(rx) && Sound(TryComplete(rx).0)
    ensures (|rx.slots| == 1 ==> Missing(rx.slots) == 0) ==> Valid(TryComplete(rx).0)
  {
  }

  // ----- The mutable receiver -----

  class FecReceiver {
    var baseSeq: Option<u16>
    var prevBaseSeq: Option<u16>
    var slots: Slots
    var parity: Option<Parity>
    var groupSize: u8
    var recovered: nat
    var lost: nat

    function State(): Rx
      reads this
    {
      Rx(baseSeq, prevBaseSeq, slots, parity, groupSize, recovered, lost)
    }

    constructor ()
      ensures State() == FRESH
    {
      baseSeq, prevBaseSeq, slots, parity, groupSize, recovered, lost := None, None, [], None, 0, 0, 0;
    }

    method FeedPacket(p: Packet) returns (out: seq<Packet>)
      requires Sound(State()) && !Panics(State(), p)
      modifies this
      ensures Sound(State())
      ensures (State(), out) == Feed(old(State()), p)
    {
      hide TryComplete, Flush, Rebuild;
      var h := p.header;
      if h.fecGroupSize == 0 && !h.flags.fec {
        FlushValid(State());
        out := FlushGroup();
        return out + [p];
      }
      if h.flags.fec {
        var base := WrapSub(h.sequence, h.fecGroupSize);
        if baseSeq == Some(base) {
          parity := Some(Parity(p.payload, h.fecLenXor));
          CompleteValid(State());
          out := Complete();
          return;
        }
        return [];
      }
      var base := WrapSub(h.sequence, h.fecIndex);
      if prevBaseSeq == Some(base) && baseSeq != Some(base) {
        return [p];
      }
      StoreValid(State(), p);
      out := [];
      if baseSeq != Some(base) {
        out := FlushGroup();
        baseSeq := Some(base);
        groupSize := h.fecGroupSize;
        slots := seq(h.fecGroupSize, i => None);
        parity := None;
      }
      if h.fecIndex < |slots| {
        slots := slots[h.fecIndex := Some(p)];
      }
      CompleteValid(State());
      var more := Complete();
      out := out + more;
    }

    /** Emits a full group, or rebuilds its one missing packet if it can. */
    method Complete() returns (out: seq<Packet>)
      requires Rebuildable(State())
      modifies this
      ensures (State(), out) == TryComplete(old(State()))
    {
      var missing := Missing(slots);
      if missing == 0 && slots != [] {
        out := Take();
        return;
      }
      if missing == 1 && parity.Some? {
        OneMissing(slots);
        var idx := Find(slots, false, 0);
        var payload := XorOut(slots, parity.value);
        var header := SynthesizeHeader(slots, baseSeq.value, groupSize, idx, |payload| % 0x1_0000);
        parity := None;
        slots := slots[idx := Some(Packet(header, payload))];
        recovered := recovered + 1;
        out := Take();
        return;
      }
      return [];
    }

    method Take() returns (out: seq<Packet>)
      modifies this
      ensures (State(), out) == TakeGroup(old(State()))
    {
      prevBaseSeq, baseSeq := baseSeq, None;
      parity := None;
      out := Held(slots);
      slots := [];
    }

    /** Stream end: emits what the open group holds, counting the rest as lost. */
    method FlushGroup() returns (out: seq<Packet>)
      modifies this
      ensures (State(), out) == Flush(old(State()))
    {
      if baseSeq.None? {
        return [];
      }
      lost := lost + Missing(slots);
      out := Take();
    }
  }

  /** The rebuild loop: XORs every held payload and its length out of the parity. */
  method XorOut(slots: Slots, parity: Parity) returns (payload: seq<byte>)
    ensures payload == RebuildPayload(parity, Payloads(Held(slots)))
  {
    hide XorNat, Column, Held;
    payload := parity.payload;
    var len: nat := parity.lenXor;
    XorNatUnit(len);
    UnmaskNothing(parity.payload);
    for i := 0 to |slots|
      invariant payload == Unmask(parity.payload, Payloads(Held(slots[..i])))
      invariant len == XorNat(parity.lenXor, LenXor(Payloads(Held(slots[..i]))))
    {
      ghost var known := Payloads(Held(slots[..i]));
      HeldNext(slots, i);
      if slots[i].Some? {
        var p := slots[i].value.payload;
        var next := XorInto(payload, p);
        UnmaskNext(parity, known, p, next);
        payload := next;
        len := XorNat(len, |p| % 0x1_0000);
      }
    }
    assert slots[..|slots|] == slots;
    if len < |payload| {
      payload := payload[..len];
    }
  }

  lemma UnmaskNothing(parity: seq<byte>)
    ensures Unmask(parity, Payloads(Held([]))) == parity && LenXor(Payloads(Held([]))) == 0
  {
    assert Payloads(Held([])) == [];
    assert forall j :: 0 <= j < |parity| ==> parity[j] ^ 0 == parity[j];
  }

  lemma HeldNext(slots: Slots, i: nat)
    requires i < |slots|
    ensures var before, after := Payloads(Held(slots[..i])), Payloads(Held(slots[..i + 1]));
            after == if slots[i].Some? then before + [slots[i].value.payload] else before
  {
    assert slots[..i + 1][..i] == slots[..i];
  }

  /** One more payload XORed out. */
  lemma UnmaskNext(parity: Parity, known: seq<seq<byte>>, p: seq<byte>, next: seq<byte>)
    requires |next| == |parity.payload|
    requires forall j :: 0 <= j < |next| ==> next[j] == Unmask(parity.payload, known)[j] ^ At(p, j)
    ensures next == Unmask(parity.payload, known + [p])
    ensures XorNat(XorNat(parity.lenXor, LenXor(known)), |p| % 0x1_0000) == XorNat(parity.lenXor, LenXor(known + [p]))
  {
    hide XorNat;
    var more := known + [p];
    assert more[..|known|] == known;
    XorNatAssoc(parity.lenXor, LenXor(known), |p| % 0x1_0000);
    forall j | 0 <= j < |next| ensures next[j] == parity.payload[j] ^ Column(more, j) {
      ByteAssoc(parity.payload[j], Column(known, j), At(p, j));
    }
  }

  lemma ByteAssoc(a: byte, b: byte, c: byte)
    ensures (a ^ b) ^ c == a ^ (b ^ c)
  {
  }
}
