/** The controller's numbering of packets. */
module FecSending {
  import opened Bytes
  import opened Packets
  import opened FecEncoding
  import opened FecGroups

  /** One call of `send_audio_all`. */
  datatype Audio = Audio(streamId: nat, format: nat, ptsNs: u64, sampleOffset: u64, payload: seq<byte>, flags: Flags)

  /** The sender's state: next sequence number, group size (0 when FEC is off)
      and the payloads of the group being filled. */
  datatype Tx = Tx(sequence: u16, groupSize: u8, pending: seq<seq<byte>>)

  const VERSION := 1

  function DataPacket(tx: Tx, a: Audio): Packet
    requires |tx.pending| < 0x100
  {
    Packet(Header(VERSION, a.flags, a.format, tx.sequence, a.streamId, a.ptsNs, a.sampleOffset,
                  |a.payload| % 0x1_0000, tx.groupSize, |tx.pending|, 0), a.payload)
  }

  /** The parity takes the number after the group's last data packet. */
  function ParityPacket(tx: Tx, a: Audio, parity: Parity): Packet {
    Packet(Header(VERSION, FEC_FLAG, a.format, WrapAdd(tx.sequence, 1), a.streamId, a.ptsNs, a.sampleOffset,
                  |parity.payload| % 0x1_0000, tx.groupSize, 0, parity.lenXor), parity.payload)
  }

  function Send(tx: Tx, a: Audio): (Tx, seq<Packet>)
    requires |tx.pending| < 0x100
  {
    var data := DataPacket(tx, a);
    var group := tx.pending + [a.payload];
    if tx.groupSize == 0 then
      (tx.(sequence := WrapAdd(tx.sequence, 1)), [data])
    else if |group| < tx.groupSize then
      (tx.(sequence := WrapAdd(tx.sequence, 1), pending := group), [data])
    else
      (tx.(sequence := WrapAdd(tx.sequence, 2), pending := []), [data, ParityPacket(tx, a, ParityOf(group))])
  }

  class Zone {
    var sequence: u16
    var fec: FecEncoder?

    ghost predicate Valid()
      reads this, fec
    {
      fec != null ==> fec.Valid()
    }

    ghost function State(): Tx
      requires Valid()
      reads this, fec
    {
      if fec == null then Tx(sequence, 0, []) else Tx(sequence, fec.groupSize, fec.Group)
    }

    constructor ()
      ensures Valid() && State() == Tx(0, 0, [])
    {
      sequence, fec := 0, null;
    }

    method EnableFec(groupSize: u8)
      requires 2 <= groupSize <= 16
      modifies this
      ensures Valid() && State() == Tx(old(sequence), groupSize, [])
    {
      fec := new FecEncoder(groupSize);
    }

    method SendAudioAll(a: Audio) returns (wire: seq<Packet>)
      requires Valid()
      modifies this, fec
      ensures Valid() && fec == old(fec)
      ensures (State(), wire) == Send(old(State()), a)
    {
      hide ParityOf;
      ghost var before := State();
      var size, index := 0, 0;
      if fec != null {
        size, index := fec.groupSize, fec.count;
      }
      var header := Header(VERSION, a.flags, a.format, sequence, a.streamId, a.ptsNs, a.sampleOffset,
                           |a.payload| % 0x1_0000, size, index, 0);
      assert header == DataPacket(before, a).header;
      sequence := WrapAdd(sequence, 1);
      wire := [Packet(header, a.payload)];
      if fec != null {
        var parity := fec.Feed(a.payload);
        if parity.Some? {
          var p := parity.value;
          var ph := Header(VERSION, FEC_FLAG, a.format, sequence, a.streamId, a.ptsNs, a.sampleOffset,
                           |p.payload| % 0x1_0000, size, 0, p.lenXor);
          sequence := WrapAdd(sequence, 1);
          wire := wire + [Packet(ph, p.payload)];
          assert sequence == WrapAdd(before.sequence, 2);
          assert wire == [DataPacket(before, a), ParityPacket(before, a, p)];
        }
      }
    }
  }

  /** FEC is off, or a group of the configured size is being filled. */
  ghost predicate Sendable(tx: Tx) {
    (tx.groupSize == 0 && tx.pending == []) || (2 <= tx.groupSize <= 16 && |tx.pending| < tx.groupSize)
  }

  function SendAll(tx: Tx, audio: seq<Audio>): (r: (Tx, seq<Packet>))
    requires Sendable(tx)
    ensures Sendable(r.0) && r.0.groupSize == tx.groupSize
  {
    if audio == [] then (tx, [])
    else
      var (mid, out) := SendAll(tx, audio[..|audio| - 1]);
      var (next, more) := Send(mid, audio[|audio| - 1]);
      (next, out + more)
  }

  /** Calls made in two portions; `first` and `second` are what each comes to. */
  lemma {:induction false} SendAllConcat(tx: Tx, a: seq<Audio>, b: seq<Audio>, first: (Tx, seq<Packet>), second: (Tx, seq<Packet>))
    requires Sendable(tx) && SendAll(tx, a) == first && SendAll(first.0, b) == second
    ensures SendAll(tx, a + b) == (second.0, first.1 + second.1)
  {
    hide Send;
    if b == [] {
      assert a + b == a;
      assert first.1 + [] == first.1;
    } else {
      var front, all := b[..|b| - 1], a + b;
      var before := SendAll(first.0, front);
      SendAllConcat(tx, a, front, first, before);
      assert all[..|all| - 1] == a + front && all[|all| - 1] == b[|b| - 1];
      var last := Send(before.0, b[|b| - 1]).1;
      assert (first.1 + before.1) + last == first.1 + (before.1 + last);
    }
  }

  // ----- What each packet says of the audio it carries -----

  /** The packet brings the payload of the call with that call's own stream,
      format, presentation time, sample offset and flags. */
  ghost predicate Carries(p: Packet, a: Audio) {
    && p.payload == a.payload
    && p.header.streamId == a.streamId
    && p.header.format == a.format
    && p.header.ptsNs == a.ptsNs
    && p.header.sampleOffset == a.sampleOffset
    && p.header.flags == a.flags
    && p.header.version == 1
  }

  /** The data packets of a wire, in order. */
  function DataIn(ps: seq<Packet>): seq<Packet> {
    if ps == [] then []
    else
      var p := ps[|ps| - 1];
      DataIn(ps[..|ps| - 1]) + if p.header.flags.fec then [] else [p]
  }

  /** A parity follows a data packet, has the FEC flag alone, and repeats that
      packet's stream, format and times. */
  ghost predicate FollowsData(ps: seq<Packet>, j: nat)
    requires j < |ps|
  {
    ps[j].header.flags.fec ==>
      && j > 0 && !ps[j - 1].header.flags.fec
      && ps[j].header.flags == FEC_FLAG
      && ps[j].header.streamId == ps[j - 1].header.streamId
      && ps[j].header.format == ps[j - 1].header.format
      && ps[j].header.ptsNs == ps[j - 1].header.ptsNs
      && ps[j].header.sampleOffset == ps[j - 1].header.sampleOffset
  }

  lemma {:induction false} DataInConcat(a: seq<Packet>, b: seq<Packet>)
    ensures DataIn(a + b) == DataIn(a) + DataIn(b)
  {
    hide DataIn;
    if b == [] {
      DataInNone();
      assert a + b == a && DataIn(a) + [] == DataIn(a);
    } else {
      var front, p := b[..|b| - 1], b[|b| - 1];
      DataInConcat(a, front);
      LastSplit(a, b);
      DataInSnoc(a + front, p);
      DataInSnoc(front, p);
      Associate(DataIn(a), DataIn(front), if p.header.flags.fec then [] else [p]);
    }
  }

  lemma DataInNone()
    ensures DataIn([]) == []
  {
  }

  lemma LastSplit(a: seq<Packet>, b: seq<Packet>)
    requires b != []
    ensures b == b[..|b| - 1] + [b[|b| - 1]] && a + b == (a + b[..|b| - 1]) + [b[|b| - 1]]
  {
  }

  lemma Associate(a: seq<Packet>, b: seq<Packet>, c: seq<Packet>)
    ensures (a + b) + c == a + (b + c)
  {
  }

  lemma DataInSnoc(ps: seq<Packet>, p: Packet)
    ensures DataIn(ps + [p]) == DataIn(ps) + if p.header.flags.fec then [] else [p]
  {
    assert (ps + [p])[..|ps|] == ps;
  }

  lemma SendCarries(tx: Tx, a: Audio)
    requires Sendable(tx) && !a.flags.fec
    ensures var ps := Send(tx, a).1;
            && 1 <= |ps| <= 2 && DataIn(ps) == [ps[0]] && Carries(ps[0], a)
            && !ps[0].header.flags.fec
            && (|ps| == 2 ==> FollowsData(ps, 1) && ps[1].header.flags.fec)
  {
    hide ParityOf;
    var ps := Send(tx, a).1;
    assert DataIn([]) == [];
    assert ps[..1][..0] == [] && DataIn(ps[..1]) == [ps[0]];
    if |ps| == 1 { assert ps[..1] == ps; }
  }

  /** Over any number of calls, FEC on or off: the k-th data packet on the wire
      carries the k-th call, and every parity repeats the packet before it. */
  lemma {:induction false} SentFields(tx: Tx, audio: seq<Audio>)
    requires Sendable(tx) && forall i :: 0 <= i < |audio| ==> !audio[i].flags.fec
    ensures var wire := SendAll(tx, audio).1;
            && |DataIn(wire)| == |audio|
            && (forall k :: 0 <= k < |audio| ==> Carries(DataIn(wire)[k], audio[k]))
            && (forall j :: 0 <= j < |wire| ==> FollowsData(wire, j))
  {
    hide Send, Carries, DataIn, FollowsData;
    if audio == [] {
      DataInNone();
    } else {
      var k := |audio| - 1;
      SentFields(tx, audio[..k]);
      var (mid, out) := SendAll(tx, audio[..k]);
      var ps := Send(mid, audio[k]).1;
      SendCarries(mid, audio[k]);
      DataInConcat(out, ps);
      FollowsJoin(out, ps);
    }
  }

  lemma FollowsJoin(out: seq<Packet>, ps: seq<Packet>)
    requires forall j :: 0 <= j < |out| ==> FollowsData(out, j)
    requires 1 <= |ps| <= 2 && !ps[0].header.flags.fec && (|ps| == 2 ==> FollowsData(ps, 1))
    ensures forall j :: 0 <= j < |out + ps| ==> FollowsData(out + ps, j)
  {
    var wire := out + ps;
    forall j | 0 <= j < |wire| ensures FollowsData(wire, j) {
      if j < |out| { assert FollowsData(out, j); }
    }
  }

  function AudioPayloads(audio: seq<Audio>): (r: seq<seq<byte>>)
    ensures |r| == |audio|
  {
    seq(|audio|, i requires 0 <= i < |audio| => audio[i].payload)
  }

  /** Ordinary audio: the FEC flag is the sender's own, and a payload length fits its 16 bits. */
  ghost predicate Ordinary(audio: seq<Audio>) {
    forall i :: 0 <= i < |audio| ==> !audio[i].flags.fec && |audio[i].payload| < 0x1_0000
  }

  /** Sender state after `k` packets of a group begun at `sequence`. */
  function Partway(sequence: u16, n: u8, audio: seq<Audio>, k: nat): Tx
    requires k <= |audio|
  {
    Tx(WrapAdd(sequence, k), n, AudioPayloads(audio[..k]))
  }

  function DataPackets(sequence: u16, n: u8, audio: seq<Audio>): seq<Packet>
    requires |audio| <= 0x100
  {
    seq(|audio|, i requires 0 <= i < |audio| => DataPacket(Partway(sequence, n, audio, i), audio[i]))
  }

  /** The group the sender makes of `audio` when its first number is `sequence`. */
  function SentGroup(sequence: u16, audio: seq<Audio>): Group
    requires 2 <= |audio| <= 16
  {
    var n := |audio|;
    Group(sequence, DataPackets(sequence, n, audio),
          ParityPacket(Partway(sequence, n, audio, n - 1), audio[n - 1], ParityOf(AudioPayloads(audio))))
  }

  lemma PayloadsSnoc(audio: seq<Audio>, k: nat)
    requires k < |audio|
    ensures AudioPayloads(audio[..k + 1]) == AudioPayloads(audio[..k]) + [audio[k].payload]
  {
  }

  lemma SendNext(sequence: u16, n: u8, audio: seq<Audio>, k: nat)
    requires 2 <= n == |audio| <= 16 && k + 1 < n
    ensures Send(Partway(sequence, n, audio, k), audio[k]) ==
            (Partway(sequence, n, audio, k + 1), [DataPackets(sequence, n, audio)[k]])
  {
    hide ParityOf;
    PayloadsSnoc(audio, k);
  }

  lemma {:induction false} SendPartway(sequence: u16, n: u8, audio: seq<Audio>, k: nat)
    requires 2 <= n == |audio| <= 16 && k < n
    ensures SendAll(Tx(sequence, n, []), audio[..k]) ==
            (Partway(sequence, n, audio, k), DataPackets(sequence, n, audio)[..k])
  {
    hide Send, DataPacket;
    if k == 0 {
      assert AudioPayloads(audio[..0]) == [];
    } else {
      SendPartway(sequence, n, audio, k - 1);
      SendNext(sequence, n, audio, k - 1);
      assert audio[..k][..k - 1] == audio[..k - 1];
      var data := DataPackets(sequence, n, audio);
      assert data[..k] == data[..k - 1] + [data[k - 1]];
    }
  }

  lemma {:induction false} SentWell(sequence: u16, audio: seq<Audio>)
    requires 2 <= |audio| <= 16 && Ordinary(audio)
    ensures var g := SentGroup(sequence, audio);
            WellSent(g) && |g.data| == |audio| && Payloads(g.data) == AudioPayloads(audio)
  {
    hide ParityOf;
    var g := SentGroup(sequence, audio);
    assert Payloads(g.data) == AudioPayloads(audio);
    forall i | 0 <= i < |audio| ensures DataOk(g, i) { }
  }

  /** The packets of a group carry its calls, one for one. */
  lemma SentCarries(sequence: u16, audio: seq<Audio>)
    requires 2 <= |audio| <= 16
    ensures var g := SentGroup(sequence, audio);
            |g.data| == |audio| && forall i :: 0 <= i < |audio| ==> Carries(g.data[i], audio[i])
  {
    hide ParityOf;
  }

  lemma {:induction false} SendLast(sequence: u16, n: u8, audio: seq<Audio>)
    requires 2 <= n == |audio| <= 16
    ensures var g := SentGroup(sequence, audio);
            Send(Partway(sequence, n, audio, n - 1), audio[n - 1]) ==
            (Tx(WrapAdd(sequence, n + 1), n, []), [g.data[n - 1], g.parity])
  {
    hide ParityOf, ParityPacket, AudioPayloads, DataPacket, WrapAdd;
    PayloadsSnoc(audio, n - 1);
    assert audio[..n] == audio;
    TwoFurther(sequence, n);
  }

  lemma TwoFurther(sequence: u16, n: nat)
    requires n >= 1
    ensures WrapAdd(WrapAdd(sequence, n - 1), 2) == WrapAdd(sequence, n + 1)
  {
  }

  /** n calls make one well-formed group: consecutive wrapping numbers, the
      parity right after, and the next group starts n + 1 further. */
  lemma {:induction false} SendGroup(sequence: u16, audio: seq<Audio>)
    requires 2 <= |audio| <= 16 && Ordinary(audio)
    ensures var n := |audio|;
            var g := SentGroup(sequence, audio);
            && SendAll(Tx(sequence, n, []), audio) == (Tx(WrapAdd(sequence, n + 1), n, []), Wire(g))
            && WellSent(g) && |g.data| == n && Payloads(g.data) == AudioPayloads(audio)
  {
    hide Send, DataPacket, ParityPacket, WellSent;
    var n := |audio|;
    var g := SentGroup(sequence, audio);
    SentWell(sequence, audio);
    SendPartway(sequence, n, audio, n - 1);
    SendLast(sequence, n, audio);
    assert g.data[..n - 1] + [g.data[n - 1], g.parity] == Wire(g);
  }
}
