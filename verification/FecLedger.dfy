/** Accounting over every run of the receiver: no packet appears or vanishes
    unexplained, and every slot opened is emitted, lost or still open. */
module FecLedger {
  import opened Bytes
  import opened Packets
  import opened FecEncoding
  import opened FecReceiving

  datatype Event = Arrive(packet: Packet) | EndOfStream

  ghost predicate Legal(e: Event) {
    e.Arrive? ==> Acceptable(e.packet.header)
  }

  function Step(rx: Rx, e: Event): (r: (Rx, seq<Packet>))
    requires Valid(rx) && Legal(e)
    ensures Valid(r.0)
  {
    match e
    case Arrive(p) => Feed(rx, p)
    case EndOfStream => Flush(rx)
  }

  ghost predicate Straggler(rx: Rx, h: Header) {
    IsData(h) && rx.prev == Some(BaseOf(h)) && rx.base != Some(BaseOf(h))
  }

  ghost predicate Opens(rx: Rx, h: Header) {
    IsData(h) && !Straggler(rx, h) && rx.base != Some(BaseOf(h))
  }

  /** The receiver just before it looks for completion. */
  ghost function Staged(rx: Rx, p: Packet): Rx {
    var h := p.header;
    if IsPlain(h) then Flush(rx).0
    else if h.flags.fec then
      if rx.base == Some(BaseOf(h)) then rx.(parity := Some(Parity(p.payload, h.fecLenXor))) else rx
    else if Straggler(rx, h) then rx
    else Store(if Opens(rx, h) then OpenGroup(rx, h).0 else rx, p)
  }

  // What one step adds to each column of the ledger.

  ghost function Fed(e: Event): multiset<Packet> {
    if e.Arrive? && !e.packet.header.flags.fec then multiset{e.packet} else multiset{}
  }

  ghost function Rebuilt(rx: Rx, e: Event): multiset<Packet>
    requires Valid(rx) && Legal(e)
  {
    if e.EndOfStream? then multiset{}
    else
      var s := Staged(rx, e.packet);
      StagedValid(rx, e.packet);
      if Missing(s.slots) == 1 && s.parity.Some? then multiset{Rebuild(s)} else multiset{}
  }

  /** A same-slot duplicate replaces the copy held; a packet whose index its
      group does not have is dropped. */
  ghost function Discarded(rx: Rx, e: Event): multiset<Packet> {
    if e.EndOfStream? || !IsData(e.packet.header) || Straggler(rx, e.packet.header) then multiset{}
    else
      var h := e.packet.header;
      var slots := if Opens(rx, h) then OpenGroup(rx, h).0.slots else rx.slots;
      if h.fecIndex >= |slots| then multiset{e.packet}
      else if slots[h.fecIndex].Some? then multiset{slots[h.fecIndex].value}
      else multiset{}
  }

  ghost function Opened(rx: Rx, e: Event): nat {
    if e.Arrive? && Opens(rx, e.packet.header) then e.packet.header.fecGroupSize else 0
  }

  /** Packets that bypass the groups: no FEC, or late for a closed group. */
  ghost function Direct(rx: Rx, e: Event): nat {
    if e.Arrive? && (IsPlain(e.packet.header) || Straggler(rx, e.packet.header)) then 1 else 0
  }

  ghost function Keeps(rx: Rx): multiset<Packet> { multiset(Held(rx.slots)) }

  // ----- One step balances -----

  lemma {:induction false} HeldCount(slots: Slots)
    ensures |Held(slots)| + Missing(slots) == |slots|
  {
    if slots != [] { HeldCount(slots[..|slots| - 1]); }
  }

  lemma HeldSplit(slots: Slots, i: nat)
    requires i < |slots|
    ensures multiset(Held(slots)) == multiset(Held(slots[..i])) + multiset(Held(slots[i + 1..])) +
            (if slots[i].Some? then multiset{slots[i].value} else multiset{})
  {
    hide Held;
    var one := [slots[i]];
    assert slots == slots[..i] + (one + slots[i + 1..]);
    HeldConcat(slots[..i], one + slots[i + 1..]);
    HeldConcat(one, slots[i + 1..]);
    HeldOne(slots[i]);
    Split3(Held(slots[..i]), Held(one), Held(slots[i + 1..]));
  }

  lemma HeldOne(s: Option<Packet>)
    ensures multiset(Held([s])) == if s.Some? then multiset{s.value} else multiset{}
  {
    assert [s][..0] == [];
  }

  lemma Split3(a: seq<Packet>, b: seq<Packet>, c: seq<Packet>)
    ensures multiset(a + (b + c)) == multiset(a) + multiset(c) + multiset(b)
  {
    assert multiset(b + c) == multiset(b) + multiset(c);
    assert multiset(a + (b + c)) == multiset(a) + multiset(b + c);
  }

  lemma HeldUpdate(slots: Slots, i: nat, p: Packet)
    requires i < |slots|
    ensures multiset(Held(slots[i := Some(p)])) + (if slots[i].Some? then multiset{slots[i].value} else multiset{})
         == multiset(Held(slots)) + multiset{p}
  {
    var upd := slots[i := Some(p)];
    HeldSplit(slots, i);
    HeldSplit(upd, i);
    assert upd[..i] == slots[..i] && upd[i + 1..] == slots[i + 1..];
  }

  lemma StagedValid(rx: Rx, p: Packet)
    requires Valid(rx) && Acceptable(p.header)
    ensures Rebuildable(Staged(rx, p))
    ensures var s := Staged(rx, p);
            Missing(s.slots) == 1 && s.parity.Some? ==> s.base.Some? && 2 <= |s.slots| < 0x100
  {
    if IsData(p.header) && !Straggler(rx, p.header) {
      StoreValid(rx, p);
    }
  }

  lemma FlushBalance(rx: Rx)
    requires Valid(rx)
    ensures var (r, out) := Flush(rx);
            && |out| + r.lost + |r.slots| == rx.lost + |rx.slots|
            && multiset(out) == Keeps(rx) && r.slots == [] && Held(r.slots) == []
            && r.recovered == rx.recovered
  {
    HeldCount(rx.slots);
  }

  lemma CompleteBalance(rx: Rx)
    requires Rebuildable(rx)
    ensures var (r, out) := TryComplete(rx);
            var rebuilt := if Missing(rx.slots) == 1 && rx.parity.Some? then multiset{Rebuild(rx)} else multiset{};
            && |out| + r.lost + |r.slots| == rx.lost + |rx.slots|
            && multiset(out) + Keeps(r) == Keeps(rx) + rebuilt
            && r.recovered == rx.recovered + |rebuilt|
  {
    HeldCount(rx.slots);
    if Missing(rx.slots) == 1 && rx.parity.Some? {
      OneMissing(rx.slots);
      var idx, p := Find(rx.slots, false, 0), Rebuild(rx);
      var full := rx.slots[idx := Some(p)];
      HeldUpdate(rx.slots, idx, p);
      MissingUpdate(rx.slots, idx, Some(p));
      HeldCount(full);
    }
  }

  /** A packet stored in its group: its slot's former occupant is discarded. */
  lemma StoreBalance(rx: Rx, p: Packet)
    ensures var r := Store(rx, p);
            var gone := if p.header.fecIndex >= |rx.slots| then multiset{p}
                        else if rx.slots[p.header.fecIndex].Some? then multiset{rx.slots[p.header.fecIndex].value}
                        else multiset{};
            && Keeps(r) + gone == Keeps(rx) + multiset{p}
            && |r.slots| == |rx.slots| && r.lost == rx.lost && r.recovered == rx.recovered
  {
    if p.header.fecIndex < |rx.slots| { HeldUpdate(rx.slots, p.header.fecIndex, p); }
  }

  lemma OpenEmpty(rx: Rx, h: Header)
    ensures Held(OpenGroup(rx, h).0.slots) == []
  {
    var slots: Slots := seq(h.fecGroupSize, i => None);
    MissingAll(slots);
    HeldCount(slots);
  }

  /** Content: what was held, fed or rebuilt comes out, is held, or is discarded. */
  ghost predicate ContentKept(rx: Rx, e: Event)
    requires Valid(rx) && Legal(e)
  {
    var (r, out) := Step(rx, e);
    Keeps(rx) + Fed(e) + Rebuilt(rx, e) == multiset(out) + Keeps(r) + Discarded(rx, e)
  }

  /** Slots: each is emitted, lost or still open; recoveries count rebuilt packets. */
  ghost predicate SlotsKept(rx: Rx, e: Event)
    requires Valid(rx) && Legal(e)
  {
    var (r, out) := Step(rx, e);
    && |out| + r.lost + |r.slots| == rx.lost + |rx.slots| + Opened(rx, e) + Direct(rx, e)
    && r.recovered == rx.recovered + |Rebuilt(rx, e)|
  }

  lemma Chain(held: multiset<Packet>, fed: multiset<Packet>, rebuilt: multiset<Packet>, flushed: multiset<Packet>,
              open: multiset<Packet>, gone: multiset<Packet>, staged: multiset<Packet>, out: multiset<Packet>, after: multiset<Packet>)
    requires held == flushed + open && staged + gone == open + fed && out + after == staged + rebuilt
    ensures held + fed + rebuilt == (flushed + out) + after + gone
  {
    calc {
      held + fed + rebuilt;
    ==
      flushed + (open + fed) + rebuilt;
    ==
      flushed + (staged + rebuilt) + gone;
    ==
      (flushed + out) + after + gone;
    }
  }

  /** The stages a data packet goes through: flush, store, complete. */
  lemma DataStages(rx: Rx, p: Packet) returns (open: Rx, flushed: seq<Packet>, r: Rx, out: seq<Packet>)
    requires Valid(rx) && Acceptable(p.header) && IsData(p.header) && !Straggler(rx, p.header)
    ensures (open, flushed) == if Opens(rx, p.header) then OpenGroup(rx, p.header) else (rx, [])
    ensures Staged(rx, p) == Store(open, p) && Rebuildable(Staged(rx, p))
    ensures (r, out) == TryComplete(Staged(rx, p))
    ensures Feed(rx, p) == (r, flushed + out)
  {
    hide TryComplete, Rebuildable, Store;
    StagedValid(rx, p);
    open, flushed := if Opens(rx, p.header) then OpenGroup(rx, p.header).0 else rx,
                     if Opens(rx, p.header) then OpenGroup(rx, p.header).1 else [];
    r, out := TryComplete(Staged(rx, p)).0, TryComplete(Staged(rx, p)).1;
  }

  lemma DataContent(rx: Rx, p: Packet)
    requires Valid(rx) && Acceptable(p.header) && IsData(p.header) && !Straggler(rx, p.header)
    ensures ContentKept(rx, Arrive(p))
  {
    hide TryComplete, Rebuild, Rebuildable, Store, Keeps, Feed, OpenGroup, Valid, Missing;
    var open, flushed, r, out := DataStages(rx, p);
    StoreBalance(open, p);
    CompleteBalance(Staged(rx, p));
    if Opens(rx, p.header) { OpenBalance(rx, p.header); }
    Chain(Keeps(rx), multiset{p}, Rebuilt(rx, Arrive(p)), multiset(flushed), Keeps(open),
          Discarded(rx, Arrive(p)), Keeps(Staged(rx, p)), multiset(out), Keeps(r));
    assert multiset(flushed + out) == multiset(flushed) + multiset(out);
  }

  lemma DataSlots(rx: Rx, p: Packet)
    requires Valid(rx) && Acceptable(p.header) && IsData(p.header) && !Straggler(rx, p.header)
    ensures SlotsKept(rx, Arrive(p))
  {
    hide TryComplete, Rebuild, Rebuildable, Store, Keeps, Feed, OpenGroup, Valid, Missing;
    var open, flushed, r, out := DataStages(rx, p);
    StoreBalance(open, p);
    CompleteBalance(Staged(rx, p));
    if Opens(rx, p.header) { OpenBalance(rx, p.header); }
  }

  lemma OpenBalance(rx: Rx, h: Header)
    requires Valid(rx)
    ensures var (open, flushed) := OpenGroup(rx, h);
            && Keeps(rx) == multiset(flushed) + Keeps(open)
            && |flushed| + open.lost == rx.lost + |rx.slots|
            && |open.slots| == h.fecGroupSize && open.recovered == rx.recovered
  {
    FlushBalance(rx);
    OpenEmpty(rx, h);
  }

  lemma ParityBalance(rx: Rx, p: Packet)
    requires Valid(rx) && p.header.flags.fec && rx.base == Some(BaseOf(p.header))
    ensures ContentKept(rx, Arrive(p)) && SlotsKept(rx, Arrive(p))
  {
    hide Rebuild, Rebuildable, TryComplete, Keeps;
    StagedValid(rx, p);
    CompleteBalance(Staged(rx, p));
    assert Keeps(Staged(rx, p)) == Keeps(rx) by { KeepsSlots(rx, Staged(rx, p)); }
  }

  lemma KeepsSlots(a: Rx, b: Rx)
    requires a.slots == b.slots
    ensures Keeps(a) == Keeps(b)
  {
  }

  lemma PlainBalance(rx: Rx, p: Packet)
    requires Valid(rx) && IsPlain(p.header)
    ensures ContentKept(rx, Arrive(p)) && SlotsKept(rx, Arrive(p))
  {
    hide Rebuild, Held;
    FlushBalance(rx);
    var (r, out) := Flush(rx);
    assert Feed(rx, p) == (r, out + [p]);
    assert Rebuilt(rx, Arrive(p)) == multiset{};
    assert multiset(out + [p]) == multiset(out) + multiset{p};
  }

  /** A straggler goes straight through; a parity of no open group vanishes. */
  lemma BypassBalance(rx: Rx, p: Packet)
    requires Valid(rx) && Acceptable(p.header)
    requires Straggler(rx, p.header) || (p.header.flags.fec && rx.base != Some(BaseOf(p.header)))
    ensures ContentKept(rx, Arrive(p)) && SlotsKept(rx, Arrive(p))
  {
    hide Rebuild, Held;
    assert Feed(rx, p) == (rx, if p.header.flags.fec then [] else [p]);
    assert Rebuilt(rx, Arrive(p)) == multiset{};
  }

  lemma StepBalance(rx: Rx, e: Event)
    requires Valid(rx) && Legal(e)
    ensures ContentKept(rx, e) && SlotsKept(rx, e)
  {
    hide ContentKept, SlotsKept;
    match e
    case EndOfStream =>
      EndBalance(rx);
    case Arrive(p) =>
      if IsData(p.header) && !Straggler(rx, p.header) {
        DataContent(rx, p);
        DataSlots(rx, p);
      } else if p.header.flags.fec && rx.base == Some(BaseOf(p.header)) {
        ParityBalance(rx, p);
      } else if IsPlain(p.header) {
        PlainBalance(rx, p);
      } else {
        BypassBalance(rx, p);
      }
  }

  lemma EndBalance(rx: Rx)
    requires Valid(rx)
    ensures ContentKept(rx, EndOfStream) && SlotsKept(rx, EndOfStream)
  {
    FlushBalance(rx);
  }

  // ----- Whole runs -----

  datatype Ledger = Ledger(
    rx: Rx,
    out: seq<Packet>,
    fed: multiset<Packet>,
    rebuilt: multiset<Packet>,
    discarded: multiset<Packet>,
    slotsOpened: nat,
    direct: nat)

  ghost function Run(events: seq<Event>): (l: Ledger)
    requires forall k :: 0 <= k < |events| ==> Legal(events[k])
    ensures Valid(l.rx)
  {
    if events == [] then Ledger(FRESH, [], multiset{}, multiset{}, multiset{}, 0, 0)
    else
      var l, e := Run(events[..|events| - 1]), events[|events| - 1];
      var (r, out) := Step(l.rx, e);
      Ledger(r, l.out + out, l.fed + Fed(e), l.rebuilt + Rebuilt(l.rx, e), l.discarded + Discarded(l.rx, e),
             l.slotsOpened + Opened(l.rx, e), l.direct + Direct(l.rx, e))
  }

  /** Over every sequence of arrivals and flushes: what was fed or rebuilt is
      exactly what was emitted, is still held, or was discarded, packet for
      packet; every slot opened was emitted, lost, or is still open; and one
      packet was rebuilt per recovery counted. */
  lemma {:induction false} RunBalances(events: seq<Event>)
    requires forall k :: 0 <= k < |events| ==> Legal(events[k])
    ensures var l := Run(events);
            && l.fed + l.rebuilt == multiset(l.out) + Keeps(l.rx) + l.discarded
            && |l.out| - l.direct + l.rx.lost + |l.rx.slots| == l.slotsOpened
            && l.rx.recovered == |l.rebuilt|
  {
    hide Step, Rebuilt, Discarded, Opened, Direct, Fed, Valid, Legal;
    if events != [] {
      var front, e := events[..|events| - 1], events[|events| - 1];
      RunBalances(front);
      var l := Run(front);
      StepBalance(l.rx, e);
      var (r, out) := Step(l.rx, e);
      assert multiset(l.out + out) == multiset(l.out) + multiset(out);
      Post(l.fed, l.rebuilt, multiset(l.out), Keeps(l.rx), l.discarded,
           Fed(e), Rebuilt(l.rx, e), multiset(out), Keeps(r), Discarded(l.rx, e));
    }
  }

  /** Two balanced accounts that meet in what is held add up. */
  lemma Post(fed: multiset<Packet>, rebuilt: multiset<Packet>, out: multiset<Packet>, held: multiset<Packet>,
             gone: multiset<Packet>, fed1: multiset<Packet>, rebuilt1: multiset<Packet>, out1: multiset<Packet>,
             held1: multiset<Packet>, gone1: multiset<Packet>)
    requires fed + rebuilt == out + held + gone
    requires held + fed1 + rebuilt1 == out1 + held1 + gone1
    ensures (fed + fed1) + (rebuilt + rebuilt1) == (out + out1) + held1 + (gone + gone1)
  {
    calc {
      (fed + fed1) + (rebuilt + rebuilt1);
    ==
      (fed + rebuilt) + (fed1 + rebuilt1);
    ==
      (out + gone) + (held + fed1 + rebuilt1);
    ==
      (out + out1) + held1 + (gone + gone1);
    }
  }

  /** Neither the slots nor the output ever contain a parity packet. */
  lemma {:induction false} NoParityOut(events: seq<Event>)
    requires forall k :: 0 <= k < |events| ==> Legal(events[k])
    ensures forall p :: p in Run(events).out || p in Held(Run(events).rx.slots) ==> !p.header.flags.fec
  {
    if events != [] {
      var front, e := events[..|events| - 1], events[|events| - 1];
      NoParityOut(front);
      var rx := Run(front).rx;
      var (r, out) := Step(rx, e);
      StepBalance(rx, e);
      forall p | p in out || p in Held(r.slots) ensures !p.header.flags.fec {
        assert p in multiset(out) + Keeps(r) + Discarded(rx, e);
        assert p in Keeps(rx) || p in Fed(e) || p in Rebuilt(rx, e);
      }
    }
  }
}
