/** What the endpoint's receive loop does with the packets it keeps: each goes
    through the receiver, and one flagged as the stream's last flushes it at once.
    What one group then yields, whatever arrives of it and in whatever order. */
module AudioLoop {
  import opened Bytes
  import opened Arithmetic
  import opened Packets
  import opened FecEncoding
  import opened FecReceiving
  import opened FecGroups

  predicate Flagged(p: Packet) { p.header.flags.last }

  function Process(rx: Rx, p: Packet): (r: (Rx, seq<Packet>))
    requires Valid(rx) && Acceptable(p.header)
    ensures Valid(r.0)
  {
    var (mid, out) := Feed(rx, p);
    if Flagged(p) then
      FlushValid(mid);
      (Flush(mid).0, out + Flush(mid).1)
    else
      (mid, out)
  }

  function ProcessAll(rx: Rx, ps: seq<Packet>): (r: (Rx, seq<Packet>))
    requires Valid(rx) && AllAcceptable(ps)
    ensures Valid(r.0)
  {
    if ps == [] then (rx, [])
    else
      var (mid, out) := ProcessAll(rx, ps[..|ps| - 1]);
      var (next, more) := Process(mid, ps[|ps| - 1]);
      (next, out + more)
  }

  lemma ValidTakes(rx: Rx, p: Packet)
    requires Valid(rx)
    ensures Sound(rx) && !Panics(rx, p)
  {
  }

  lemma {:induction false} ProcessAllConcat(rx: Rx, a: seq<Packet>, b: seq<Packet>)
    requires Valid(rx) && AllAcceptable(a) && AllAcceptable(b)
    ensures var (mid, out) := ProcessAll(rx, a);
            var (next, more) := ProcessAll(mid, b);
            ProcessAll(rx, a + b) == (next, out + more)
  {
    hide Process;
    if b == [] {
      assert a + b == a;
      assert ProcessAll(rx, a).1 + [] == ProcessAll(rx, a).1;
    } else {
      ProcessAllConcat(rx, a, b[..|b| - 1]);
      assert (a + b)[..|a + b| - 1] == a + b[..|b| - 1];
      var (mid, out) := ProcessAll(rx, a);
      var (part, more) := ProcessAll(mid, b[..|b| - 1]);
      var last := Process(part, b[|b| - 1]).1;
      assert (out + more) + last == out + (more + last);
    }
  }

  /** Nothing but the last packet flagged: the loop feeds, and flushes at most once. */
  lemma {:induction false} FlushAtEnd(rx: Rx, ps: seq<Packet>)
    requires Valid(rx) && AllAcceptable(ps)
    requires forall k :: 0 <= k < |ps| - 1 ==> !Flagged(ps[k])
    ensures var (r, out) := FeedAll(rx, ps);
            ProcessAll(rx, ps) ==
            if ps != [] && Flagged(ps[|ps| - 1]) then (Flush(r).0, out + Flush(r).1) else (r, out)
  {
    hide Feed, Flush, Sound;
    if ps != [] {
      var front, p := ps[..|ps| - 1], ps[|ps| - 1];
      FlushAtEnd(rx, front);
      var (r, out) := FeedAll(rx, front);
      ValidTakes(r, p);
      var (next, more) := Feed(r, p);
      assert (out + more) + Flush(next).1 == out + (more + Flush(next).1);
    }
  }

  // ----- What becomes of one group -----

  /** The arrivals that count: a parity ahead of all data is thrown away. */
  function Useful(g: Group, arr: seq<nat>): seq<nat> {
    if arr != [] && arr[0] == |g.data| then arr[1..] else arr
  }

  /** First arrival from `i` on that is flagged last; their number if none is. */
  ghost function FirstFlag(g: Group, arr: seq<nat>, i: nat): (r: nat)
    requires Arrivals(g, arr) && i <= |arr|
    ensures i <= r <= |arr|
    ensures r < |arr| ==> Flagged(Wire(g)[arr[r]])
    ensures forall k :: i <= k < r ==> !Flagged(Wire(g)[arr[k]])
    decreases |arr| - i
  {
    if i == |arr| || Flagged(Wire(g)[arr[i]]) then i else FirstFlag(g, arr, i + 1)
  }

  /** Useful arrivals the group takes in: it closes at its n-th or with the first
      flagged one, whichever comes first, and else stays open. */
  ghost function TakesIn(g: Group, u: seq<nat>): (c: nat)
    requires Arrivals(g, u)
    ensures c <= |u| && c <= |g.data|
    ensures u != [] && g.data != [] ==> c >= 1
  {
    Min(|g.data|, Min(|u|, FirstFlag(g, u, 0) + 1))
  }

  ghost predicate Closes(g: Group, u: seq<nat>)
    requires Arrivals(g, u)
  {
    |u| >= |g.data| || FirstFlag(g, u, 0) < |u|
  }

  /** Data packets in order of arrival. */
  function DataOf(g: Group, xs: seq<nat>): seq<Packet> {
    if xs == [] then []
    else
      var x := xs[|xs| - 1];
      DataOf(g, xs[..|xs| - 1]) + if x < |g.data| then [g.data[x]] else []
  }

  /** What the group itself emits after taking in `xs`: all of it, the packet
      missing rebuilt, after n arrivals; otherwise what it holds. */
  ghost predicate Emits(out: seq<Packet>, g: Group, xs: seq<nat>) {
    if |xs| == |g.data| then Delivers(out, g, xs) else out == Held(Filled(g, xs))
  }

  /** Everything that comes out of a group: what it emits when it closes, then
      data packets that come later, one by one. */
  ghost predicate Yields(out: seq<Packet>, g: Group, u: seq<nat>)
    requires Arrivals(g, u)
  {
    var c := TakesIn(g, u);
    var late := DataOf(g, u[c..]);
    if u == [] then out == []
    else |late| <= |out| && out[|out| - |late|..] == late && Emits(out[..|out| - |late|], g, u[..c])
  }

  ghost function LostFrom(g: Group, u: seq<nat>): int
    requires Arrivals(g, u)
  {
    var c := TakesIn(g, u);
    if u == [] || c == |g.data| then 0 else |g.data| - c + if |g.data| in u[..c] then 1 else 0
  }

  ghost function RecoveredFrom(g: Group, u: seq<nat>): nat
    requires Arrivals(g, u)
  {
    var c := TakesIn(g, u);
    if c == |g.data| && |g.data| in u[..c] then 1 else 0
  }

  ghost predicate Outcome(out: seq<Packet>, g: Group, arr: seq<nat>)
    requires Arrivals(g, arr)
  {
    UsefulArrives(g, arr);
    Yields(out, g, Useful(g, arr))
  }

  ghost function LostIn(g: Group, arr: seq<nat>): int
    requires Arrivals(g, arr)
  {
    UsefulArrives(g, arr);
    LostFrom(g, Useful(g, arr))
  }

  ghost function RecoveredIn(g: Group, arr: seq<nat>): nat
    requires Arrivals(g, arr)
  {
    UsefulArrives(g, arr);
    RecoveredFrom(g, Useful(g, arr))
  }

  lemma UsefulArrives(g: Group, arr: seq<nat>)
    ensures Arrivals(g, arr) ==> Arrivals(g, Useful(g, arr))
    ensures Arrivals(g, arr) && Useful(g, arr) != [] ==> Useful(g, arr)[0] < |g.data|
  {
    var u := Useful(g, arr);
    if arr != u && Arrivals(g, arr) {
      assert forall k :: 0 <= k < |u| ==> u[k] == arr[k + 1];
    }
  }

  // ----- The receiver's memory of earlier groups -----

  /** Data of the group arrived. */
  ghost predicate Heard(g: Group, arr: seq<nat>) { Useful(g, arr) != [] }

  /** The group leaves nothing held: it is complete or flushed. */
  ghost predicate Settles(g: Group, arr: seq<nat>)
    requires Arrivals(g, arr)
  {
    UsefulArrives(g, arr);
    Closes(g, Useful(g, arr))
  }

  /** All the receiver knows of earlier groups: the number of the one it has open
      and that of the one it closed last. */
  datatype Memory = Memory(open: Option<u16>, closed: Option<u16>)

  function MemoryOf(rx: Rx): Memory { Memory(rx.base, rx.prev) }

  /** What arrives of the group is not mistaken for a group remembered. */
  ghost predicate NewTo(m: Memory, g: Group, arr: seq<nat>) {
    arr == [] || (m.open != Some(g.base) && (Heard(g, arr) ==> m.closed != Some(g.base)))
  }

  /** The memory after a group: one that is heard closes the group before it. */
  ghost function Remembering(m: Memory, g: Group, arr: seq<nat>): Memory
    requires Arrivals(g, arr)
  {
    if !Heard(g, arr) then m
    else if Settles(g, arr) then Memory(None, Some(g.base))
    else Memory(Some(g.base), if m.open.Some? then m.open else m.closed)
  }

  // ----- Groups that are mistaken -----

  /** A group that bears the number of the one closed last, or belongs to it: its
      data packets go straight through and its parity is dropped, whether or not
      another group is open. */
  lemma {:induction false} LateArrivals(rx: Rx, g: Group, xs: seq<nat>)
    requires WellSent(g) && Arrivals(g, xs) && !Flagged(g.parity)
    requires Valid(rx) && rx.base != Some(g.base) && rx.prev == Some(g.base)
    requires rx.base.None? || forall k :: 0 <= k < |xs| ==> !Flagged(Wire(g)[xs[k]])
    ensures AllAcceptable(Received(g, xs))
    ensures ProcessAll(rx, Received(g, xs)) == (rx, DataOf(g, xs))
  {
    hide Feed, Sound;
    ReceivedAcceptable(g, xs);
    if xs != [] {
      var k := |xs| - 1;
      ReceivedPrefix(g, xs, k);
      LateArrivals(rx, g, xs[..k]);
      LateArrival(rx, g, xs[k]);
      var ps := Received(g, xs);
      assert ps[..k] == Received(g, xs[..k]) && ps[k] == Wire(g)[xs[k]];
    }
  }

  /** One such packet; flagged last, it flushes the group that is open. */
  lemma LateArrival(rx: Rx, g: Group, x: nat)
    requires WellSent(g) && x <= |g.data| && !Flagged(g.parity)
    requires Valid(rx) && rx.base != Some(g.base) && rx.prev == Some(g.base)
    ensures Acceptable(Wire(g)[x].header)
    ensures Process(rx, Wire(g)[x]) ==
            if x == |g.data| then (rx, [])
            else if Flagged(g.data[x]) then (Flush(rx).0, [g.data[x]] + Flush(rx).1)
            else (rx, [g.data[x]])
    ensures rx.base.None? ==> Flush(rx) == (rx, []) && (x < |g.data| ==> [g.data[x]] + Flush(rx).1 == [g.data[x]])
  {
    WireBase(g, x);
  }

  /** The slots of an open group once packets `ys` of `g` have been put in. */
  function Overlay(slots: Slots, g: Group, ys: seq<nat>): Slots {
    seq(|slots|, i requires 0 <= i < |slots| => if i < |g.data| && i in ys then Some(g.data[i]) else slots[i])
  }

  lemma {:induction false} OverlayFills(slots: Slots, g: Group, ys: seq<nat>, k: nat)
    requires |slots| == |g.data| && k <= |ys| && forall j :: 0 <= j < |ys| ==> ys[j] < |g.data|
    ensures |Overlay(slots, g, ys)| == |Overlay(slots, g, ys[..k])| == |slots|
    ensures Missing(Overlay(slots, g, ys)) <= Missing(Overlay(slots, g, ys[..k]))
    ensures k < |ys| ==> Overlay(slots, g, ys[..k + 1]) == Overlay(slots, g, ys[..k])[ys[k] := Some(g.data[ys[k]])]
    decreases |ys| - k
  {
    if k == |ys| {
      assert ys[..k] == ys;
    } else {
      hide Missing;
      OverlayFills(slots, g, ys, k + 1);
      assert ys[..k + 1] == ys[..k] + [ys[k]];
      var before := Overlay(slots, g, ys[..k]);
      assert Overlay(slots, g, ys[..k + 1]) == before[ys[k] := Some(g.data[ys[k]])];
      MissingUpdate(before, ys[k], Some(g.data[ys[k]]));
    }
  }

  /** Missing enough for a group to stay open. */
  ghost predicate Incomplete(rx: Rx, slots: Slots) { Missing(slots) >= if rx.parity.Some? then 2 else 1 }

  /** A group that bears the number of the one that is open merges into it: its
      data packets take the slots of the group before. */
  lemma {:induction false} MergesOpen(rx: Rx, g: Group, ys: seq<nat>)
    requires WellSent(g) && Arrivals(g, ys) && forall k :: 0 <= k < |ys| ==> ys[k] < |g.data| && !Flagged(g.data[ys[k]])
    requires Valid(rx) && rx.base == Some(g.base) && |rx.slots| == |g.data|
    requires Incomplete(rx, Overlay(rx.slots, g, ys))
    ensures AllAcceptable(Received(g, ys))
    ensures ProcessAll(rx, Received(g, ys)) == (rx.(slots := Overlay(rx.slots, g, ys)), [])
  {
    hide Process, Missing, WellSent;
    ReceivedAcceptable(g, ys);
    if ys == [] {
      assert Overlay(rx.slots, g, ys) == rx.slots;
    } else {
      var k := |ys| - 1;
      ReceivedPrefix(g, ys, k);
      OverlayFills(rx.slots, g, ys, k);
      assert ys[..k + 1] == ys;
      MergesOpen(rx, g, ys[..k]);
      var mid := rx.(slots := Overlay(rx.slots, g, ys[..k]));
      MergeOne(mid, g, ys[k]);
      var ps := Received(g, ys);
      assert ps[..k] == Received(g, ys[..k]) && ps[k] == g.data[ys[k]];
      var none: seq<Packet> := [];
      assert ProcessAll(rx, ps[..k]) == (mid, none) && Process(mid, ps[k]) == (rx.(slots := Overlay(rx.slots, g, ys)), none);
      assert none + none == none;
    }
  }

  lemma MergeOne(rx: Rx, g: Group, x: nat)
    requires WellSent(g) && x < |g.data| && !Flagged(g.data[x])
    requires Valid(rx) && rx.base == Some(g.base) && |rx.slots| == |g.data|
    ensures Acceptable(g.data[x].header)
    ensures var full := rx.slots[x := Some(g.data[x])];
            && (Incomplete(rx, full) ==> Process(rx, g.data[x]) == (rx.(slots := full), []))
            && (Missing(full) == 0 ==> Process(rx, g.data[x]).1 == Held(full))
  {
    WireBase(g, x);
    assert DataOk(g, x);
    assert Store(rx, g.data[x]) == rx.(slots := rx.slots[x := Some(g.data[x])]);
    var none: seq<Packet> := [];
    assert forall s: seq<Packet> :: none + s == s;
  }

  /** When it fills the last gap, what comes out as one group is a mixture: the
      new group's packets, and the old group's in the other places. */
  lemma {:induction false} MergeEmitsMixture(rx: Rx, g: Group, ys: seq<nat>)
    requires WellSent(g) && Arrivals(g, ys) && forall k :: 0 <= k < |ys| ==> ys[k] < |g.data| && !Flagged(g.data[ys[k]])
    requires Valid(rx) && rx.base == Some(g.base) && |rx.slots| == |g.data| && rx.parity.None?
    requires ys != [] && Missing(Overlay(rx.slots, g, ys)) == 0
    requires Missing(Overlay(rx.slots, g, ys[..|ys| - 1])) >= 1
    ensures AllAcceptable(Received(g, ys))
    ensures var out := ProcessAll(rx, Received(g, ys)).1;
            && |out| == |g.data|
            && forall i :: 0 <= i < |out| ==>
                 if i in ys then out[i] == g.data[i] else rx.slots[i] == Some(out[i])
  {
    hide Missing, WellSent, Held, Process, Overlay, ProcessAll, Received, Sound;
    ReceivedAcceptable(g, ys);
    var k := |ys| - 1;
    ReceivedPrefix(g, ys, k);
    OverlayFills(rx.slots, g, ys, k);
    assert ys[..k + 1] == ys;
    MergesOpen(rx, g, ys[..k]);
    var mid := rx.(slots := Overlay(rx.slots, g, ys[..k]));
    MergeOne(mid, g, ys[k]);
    var r := Process(mid, g.data[ys[k]]);
    ProcessSnoc(rx, Received(g, ys[..k]), g.data[ys[k]], (mid, []), r);
    NothingBefore(r.1);
    MixtureHeld(rx.slots, g, ys);
    assert Wire(g)[ys[k]] == g.data[ys[k]];
  }

  lemma ProcessSnoc(rx: Rx, ps: seq<Packet>, p: Packet, before: (Rx, seq<Packet>), r: (Rx, seq<Packet>))
    requires Valid(rx) && AllAcceptable(ps) && Acceptable(p.header) && ProcessAll(rx, ps) == before
    requires Process(before.0, p) == r
    requires AllAcceptable(ps + [p])
    ensures ProcessAll(rx, ps + [p]) == (r.0, before.1 + r.1)
  {
    hide Process, Sound, AllAcceptable, Acceptable;
    var all := ps + [p];
    assert all[..|ps|] == ps;
    assert all[|all| - 1] == p;
  }

  lemma NothingBefore(out: seq<Packet>)
    ensures [] + out == out
  {
  }

  lemma MixtureHeld(slots: Slots, g: Group, ys: seq<nat>)
    requires |slots| == |g.data| && Missing(Overlay(slots, g, ys)) == 0
    ensures var out := Held(Overlay(slots, g, ys));
            && |out| == |g.data|
            && forall i :: 0 <= i < |out| ==> if i in ys then out[i] == g.data[i] else slots[i] == Some(out[i])
  {
    hide Missing, Held;
    var full := Overlay(slots, g, ys);
    forall i | 0 <= i < |full| ensures full[i].Some? { NoGap(full, i); }
    HeldFull(full);
  }

  // ----- The group's own packets -----

  /** The state and output once the receiver `idle` has taken in what it can of `u`. */
  ghost predicate Took(idle: Rx, g: Group, u: seq<nat>, next: Rx, more: seq<Packet>)
    requires Arrivals(g, u) && |g.data| < 0x100
  {
    var c := TakesIn(g, u);
    if c == |g.data| then next == Closed(idle, g, |g.data| in u[..c]) && Delivers(more, g, u[..c])
    else if Closes(g, u) then (next, more) == Flush(Assembling(idle, g, u[..c]))
    else next == Assembling(idle, g, u[..c]) && more == []
  }

  /** Up to its closing, the group behaves as if fed without flags; a flag on the
      closing arrival flushes what a group of fewer than n packets holds. */
  lemma {:induction false} TakeIn(rx: Rx, g: Group, u: seq<nat>) returns (next: Rx, more: seq<Packet>)
    requires WellSent(g) && Arrivals(g, u) && Ready(rx, g) && u != [] && u[0] < |g.data|
    ensures var c := TakesIn(g, u);
            && Arrivals(g, u[..c]) && AllAcceptable(Received(g, u[..c]))
            && ProcessAll(rx, Received(g, u[..c])) == (next, Flush(rx).1 + more)
            && Took(Flush(rx).0, g, u, next, more)
  {
    assert 1 <= |g.data| < 0x100;
    hide Feed, Delivers, Sound, WellSent, Flush, Received, Assembling;
    var c := TakesIn(g, u);
    var xs := u[..c];
    ReceivedPrefix(g, u, c);
    ReceivedAcceptable(g, xs);
    UnflaggedBefore(g, u, c);
    FlushAtEnd(rx, Received(g, xs));
    if c == |g.data| {
      more := AnyNOfGroup(rx, g, xs);
      next := Closed(Flush(rx).0, g, c in xs);
      FlushNothing(next, Flush(rx).1 + more);
    } else {
      Assembly(rx, g, xs);
      var open := Assembling(Flush(rx).0, g, xs);
      next, more := if Closes(g, u) then Flush(open).0 else open, if Closes(g, u) then Flush(open).1 else [];
      assert Flush(rx).1 + [] == Flush(rx).1;
    }
  }

  lemma UnflaggedBefore(g: Group, u: seq<nat>, c: nat)
    requires Arrivals(g, u) && c == TakesIn(g, u) && Arrivals(g, u[..c]) && c >= 1
    ensures var ps := Received(g, u[..c]);
            && (forall k :: 0 <= k < c - 1 ==> !Flagged(ps[k]))
            && (c < |g.data| ==> (Flagged(ps[c - 1]) <==> Closes(g, u)))
  {
  }

  lemma Regroup(a: seq<Packet>, b: seq<Packet>, c: seq<Packet>)
    ensures (a + b) + c == a + (b + c)
    ensures b == [] ==> a + b == a
  {
  }

  lemma FlushLeavesIdle(rx: Rx)
    ensures Flush(rx).0.base.None?
  {
  }

  lemma FlushNothing(rx: Rx, out: seq<Packet>)
    requires rx.base.None?
    ensures Flush(rx) == (rx, []) && out + Flush(rx).1 == out
  {
  }

  // ----- One group, whatever arrives of it -----

  /** A parity ahead of its group's data leaves no trace. */
  lemma ParityIgnored(rx: Rx, g: Group, arr: seq<nat>)
    requires WellSent(g) && Arrivals(g, arr) && !Flagged(g.parity)
    requires Valid(rx) && rx.base != Some(g.base)
    ensures Arrivals(g, Useful(g, arr))
    ensures AllAcceptable(Received(g, arr)) && AllAcceptable(Received(g, Useful(g, arr)))
    ensures ProcessAll(rx, Received(g, arr)) == ProcessAll(rx, Received(g, Useful(g, arr)))
  {
    hide Feed, Sound, Flush, Received, ProcessAll;
    UsefulArrives(g, arr);
    ReceivedAcceptable(g, arr);
    ReceivedAcceptable(g, Useful(g, arr));
    var n := |g.data|;
    if arr != [] && arr[0] == n {
      ReceivedSplit(g, arr, 1);
      ReceivedOne(g, n);
      assert arr[..1] == [n];
      WireBase(g, n);
      OneDropped(rx, g.parity);
      ProcessAllConcat(rx, [g.parity], Received(g, arr[1..]));
      var r := ProcessAll(rx, Received(g, arr[1..]));
      assert [] + r.1 == r.1;
    }
  }

  lemma OneDropped(rx: Rx, p: Packet)
    requires Valid(rx) && Acceptable(p.header) && p.header.flags.fec && !Flagged(p) && rx.base != Some(BaseOf(p.header))
    ensures AllAcceptable([p]) && ProcessAll(rx, [p]) == (rx, [])
  {
    var none: seq<Packet>, ps := [], [p];
    assert ps[..0] == none && ps[0] == p;
    assert Process(rx, p) == (rx, none) && ProcessAll(rx, none) == (rx, none);
    assert none + none == none;
  }

  /** A group of which nothing arrives, or only the parity, changes nothing:
      it is neither delivered nor counted. */
  lemma SilentGroup(rx: Rx, g: Group, arr: seq<nat>)
    requires WellSent(g) && Arrivals(g, arr) && !Flagged(g.parity) && Useful(g, arr) == []
    requires Valid(rx) && rx.base != Some(g.base)
    ensures AllAcceptable(Received(g, arr))
    ensures ProcessAll(rx, Received(g, arr)) == (rx, [])
  {
    ParityIgnored(rx, g, arr);
  }

  /** One group under any loss, any order and any flags: what the loop delivers,
      plus what it still holds, grows by exactly the group's outcome. */
  lemma {:induction false} GroupStep(rx: Rx, g: Group, arr: seq<nat>)
      returns (next: Rx, got: seq<Packet>, out: seq<Packet>)
    requires WellSent(g) && Arrivals(g, arr) && !Flagged(g.parity)
    requires Valid(rx) && NewTo(MemoryOf(rx), g, arr)
    ensures AllAcceptable(Received(g, arr))
    ensures ProcessAll(rx, Received(g, arr)) == (next, got) && Valid(next)
    ensures got + Flush(next).1 == Flush(rx).1 + out && Outcome(out, g, arr)
    ensures MemoryOf(next) == Remembering(MemoryOf(rx), g, arr)
    ensures Flush(next).0.lost == Flush(rx).0.lost + LostIn(g, arr)
    ensures Flush(next).0.recovered == Flush(rx).0.recovered + RecoveredIn(g, arr)
  {
    assert |g.data| >= 2;
    hide Sound, WellSent, Received, ProcessAll, Yields, TakesIn, Closes, LostFrom, RecoveredFrom, AllAcceptable, Arrivals;
    UsefulArrives(g, arr);
    var u := Useful(g, arr);
    if arr == [] {
      NothingReceived(rx, g);
      next, got, out := rx, [], [];
      SilentYields(g, u);
    } else if u == [] {
      SilentGroup(rx, g, arr);
      next, got, out := rx, [], [];
      SilentYields(g, u);
    } else {
      ParityIgnored(rx, g, arr);
      next, got, out := HeardGroup(rx, g, u);
    }
  }

  lemma NothingReceived(rx: Rx, g: Group)
    requires Valid(rx)
    ensures Arrivals(g, []) && AllAcceptable(Received(g, [])) && ProcessAll(rx, Received(g, [])) == (rx, [])
  {
  }

  lemma SilentYields(g: Group, u: seq<nat>)
    requires Arrivals(g, u) && u == [] && g.data != []
    ensures Yields([], g, u) && LostFrom(g, u) == 0 && RecoveredFrom(g, u) == 0 && !Closes(g, u)
  {
  }

  lemma {:induction false} HeardGroup(rx: Rx, g: Group, u: seq<nat>)
      returns (next: Rx, got: seq<Packet>, out: seq<Packet>)
    requires WellSent(g) && Arrivals(g, u) && !Flagged(g.parity) && Ready(rx, g) && u != [] && u[0] < |g.data|
    ensures AllAcceptable(Received(g, u))
    ensures ProcessAll(rx, Received(g, u)) == (next, got)
    ensures got + Flush(next).1 == Flush(rx).1 + out && Yields(out, g, u)
    ensures Valid(next)
    ensures if Closes(g, u) then next.base.None? && next.prev == Some(g.base)
            else next.base == Some(g.base) && next.prev == Flush(rx).0.prev
    ensures Flush(next).0.lost == Flush(rx).0.lost + LostFrom(g, u)
    ensures Flush(next).0.recovered == Flush(rx).0.recovered + RecoveredFrom(g, u)
  {
    assert 2 <= |g.data| < 0x100;
    hide Sound, WellSent, Received, ProcessAll, Yields, TakesIn, Closes, LostFrom, RecoveredFrom, Flush,
      AllAcceptable, Arrivals, DataOf, Took;
    var c := TakesIn(g, u);
    ReceivedAcceptable(g, u);
    var flushed := Flush(rx).1;
    var more;
    next, more := TakeIn(rx, g, u);
    FlushLeavesIdle(rx);
    TakenIn(Flush(rx).0, g, u, next, more);
    if Closes(g, u) {
      ThenLate(rx, g, u, c, next, flushed + more);
      got, out := (flushed + more) + DataOf(g, u[c..]), more + DataOf(g, u[c..]);
      FlushNothing(next, got);
      Regroup(flushed, more, DataOf(g, u[c..]));
    } else {
      assert u[..c] == u;
      got, out := flushed, Flush(next).1;
      Regroup(flushed, more, []);
    }
  }

  lemma ThenLate(rx: Rx, g: Group, u: seq<nat>, c: nat, next: Rx, got: seq<Packet>)
    requires WellSent(g) && Arrivals(g, u) && !Flagged(g.parity) && c <= |u| && Arrivals(g, u[..c])
    requires AllAcceptable(Received(g, u)) && AllAcceptable(Received(g, u[..c]))
    requires Valid(rx) && ProcessAll(rx, Received(g, u[..c])) == (next, got)
    requires next.base.None? && next.prev == Some(g.base)
    ensures ProcessAll(rx, Received(g, u)) == (next, got + DataOf(g, u[c..]))
  {
    hide Sound, WellSent, Received, ProcessAll, AllAcceptable, Arrivals, DataOf;
    ReceivedSplit(g, u, c);
    LateArrivals(next, g, u[c..]);
    ProcessAllConcat(rx, Received(g, u[..c]), Received(g, u[c..]));
  }

  /** The state and output after taking in, in terms of the group's account. */
  lemma TakenIn(idle: Rx, g: Group, u: seq<nat>, next: Rx, more: seq<Packet>)
    requires 2 <= |g.data| < 0x100 && Arrivals(g, u) && u != [] && idle.base.None?
    requires Took(idle, g, u, next, more)
    ensures var c := TakesIn(g, u);
            var late := DataOf(g, u[c..]);
            if Closes(g, u) then next.base.None? && next.prev == Some(g.base) && Yields(more + late, g, u)
            else c == |u| && more == [] && next.base == Some(g.base) && next.prev == idle.prev && Yields(Flush(next).1, g, u)
    ensures Flush(next).0.lost == idle.lost + LostFrom(g, u)
    ensures Flush(next).0.recovered == idle.recovered + RecoveredFrom(g, u)
  {
    hide Delivers, Held, Missing, Filled, DataOf, TakesIn, Yields, FirstFlag, Arrivals;
    var c := TakesIn(g, u);
    TakesSome(g, u);
    FilledMissing(g, u[..c]);
    YieldsSplit(more, g, u);
    if !Closes(g, u) { YieldsAll(Flush(next).1, g, u); }
  }

  lemma TakesSome(g: Group, u: seq<nat>)
    requires Arrivals(g, u) && g.data != []
    ensures Arrivals(g, u[..TakesIn(g, u)])
    ensures TakesIn(g, u) == |g.data| ==> Closes(g, u)
    ensures !Closes(g, u) ==> TakesIn(g, u) == |u| && u[..TakesIn(g, u)] == u
  {
  }

  lemma YieldsSplit(more: seq<Packet>, g: Group, u: seq<nat>)
    requires Arrivals(g, u) && u != []
    ensures Emits(more, g, u[..TakesIn(g, u)]) ==> Yields(more + DataOf(g, u[TakesIn(g, u)..]), g, u)
  {
    hide Emits, TakesIn, DataOf;
    var late := DataOf(g, u[TakesIn(g, u)..]);
    assert (more + late)[..|more|] == more;
  }

  lemma YieldsAll(out: seq<Packet>, g: Group, u: seq<nat>)
    requires Arrivals(g, u) && u != [] && TakesIn(g, u) == |u|
    ensures Emits(out, g, u[..|u|]) ==> Yields(out, g, u)
  {
    hide Emits, TakesIn;
    assert u[|u|..] == [] && DataOf(g, []) == [];
    assert out[..|out| - 0] == out;
  }

  // ----- Exactly when a group comes out whole -----

  /** n useful arrivals, none of the first n - 1 flagged last, and no data after them. */
  ghost predicate WholeOnce(g: Group, arr: seq<nat>)
    requires Arrivals(g, arr)
  {
    UsefulArrives(g, arr);
    var n, u := |g.data|, Useful(g, arr);
    && |u| >= n
    && FirstFlag(g, u, 0) >= n - 1
    && forall k :: n <= k < |u| ==> u[k] == n
  }

  lemma {:induction false} NoData(g: Group, xs: seq<nat>)
    ensures DataOf(g, xs) == [] <==> forall k :: 0 <= k < |xs| ==> xs[k] >= |g.data|
  {
    if xs != [] {
      var front := xs[..|xs| - 1];
      NoData(g, front);
      assert forall k :: 0 <= k < |front| ==> front[k] == xs[k];
    }
  }

  /** A group comes out complete, once and with nothing counted lost, if and only
      if its arrivals are `WholeOnce`; its payloads are then the ones sent. */
  lemma {:induction false} GroupWhole(out: seq<Packet>, g: Group, arr: seq<nat>)
    requires g.data != [] && Arrivals(g, arr) && Outcome(out, g, arr)
    ensures |out| == |g.data| && LostIn(g, arr) == 0 <==> WholeOnce(g, arr)
    ensures WholeOnce(g, arr) ==> Delivers(out, g, Useful(g, arr)[..|g.data|]) && Payloads(out) == Payloads(g.data)
  {
    hide Held, Filled, Delivers, TakesIn, FirstFlag, LostFrom, DataOf, Arrivals;
    UsefulArrives(g, arr);
    var n, u := |g.data|, Useful(g, arr);
    TakesAll(g, u);
    if u != [] && LostFrom(g, u) == 0 {
      var late := DataOf(g, u[n..]);
      LateNone(g, u);
      var core := out[..|out| - |late|];
      DeliversAll(core, g, u[..n]);
      if late == [] {
        assert core == out;
        DeliveredPayloads(out, g, u[..n]);
      }
    }
  }

  lemma TakesAll(g: Group, u: seq<nat>)
    requires g.data != [] && Arrivals(g, u)
    ensures u != [] && LostFrom(g, u) == 0 <==> |u| >= |g.data| && FirstFlag(g, u, 0) >= |g.data| - 1
    ensures u != [] && LostFrom(g, u) == 0 ==> TakesIn(g, u) == |g.data|
  {
  }

  lemma LateNone(g: Group, u: seq<nat>)
    requires Arrivals(g, u) && |u| >= |g.data|
    ensures DataOf(g, u[|g.data|..]) == [] <==> forall k :: |g.data| <= k < |u| ==> u[k] == |g.data|
  {
    var n := |g.data|;
    var xs := u[n..];
    NoData(g, xs);
    assert forall k :: n <= k < |u| ==> u[k] == xs[k - n];
  }

  lemma DeliveredPayloads(out: seq<Packet>, g: Group, arr: seq<nat>)
    requires Delivers(out, g, arr)
    ensures Payloads(out) == Payloads(g.data)
  {
  }

  /** At least n of the n + 1 packets, data first, and the parity last if nothing
      is missing: only the end-of-stream flag can spoil that, and it does exactly
      when it is on one of the first n - 1 packets to arrive. */
  lemma FlagDecides(g: Group, arr: seq<nat>)
    requires Arrivals(g, arr) && 1 <= |g.data| <= |arr| <= |g.data| + 1
    requires arr[0] < |g.data| && (|arr| == |g.data| + 1 ==> arr[|g.data|] == |g.data|)
    ensures WholeOnce(g, arr) <==> forall k :: 0 <= k < |g.data| - 1 ==> !Flagged(Wire(g)[arr[k]])
  {
    UsefulArrives(g, arr);
    assert Useful(g, arr) == arr;
    var first := FirstFlag(g, arr, 0);
    if first < |g.data| - 1 { assert Flagged(Wire(g)[arr[first]]); }
  }

  /** The wire positions of a group in order, but for `x`. */
  function AllBut(n: nat, x: nat): seq<nat> { seq(n, i => if i < x then i else i + 1) }

  /** The last group of a stream, in order, its last data packet flagged and one
      packet lost: the flush comes before the parity, so the group is protected
      exactly against the loss of the flagged packet or of the parity. */
  lemma LastGroupInOrder(g: Group, x: nat)
    requires 2 <= |g.data| && x <= |g.data| && !Flagged(g.parity)
    requires forall i :: 0 <= i < |g.data| ==> (Flagged(g.data[i]) <==> i == |g.data| - 1)
    ensures Arrivals(g, AllBut(|g.data|, x))
    ensures var arr, n := AllBut(|g.data|, x), |g.data|;
            && (WholeOnce(g, arr) <==> x >= n - 1)
            && LostIn(g, arr) == (if x >= n - 1 then 0 else 1)
            && RecoveredIn(g, arr) == (if x == n - 1 then 1 else 0)
  {
    var arr, n := AllBut(|g.data|, x), |g.data|;
    UsefulArrives(g, arr);
    var u := Useful(g, arr);
    var first := FirstFlag(g, u, 0);
    assert u == arr;
    if x < n - 1 {
      assert arr[n - 2] == n - 1 && first == n - 2;
    } else {
      assert first >= n - 1;
      assert arr[n - 1] == (if x == n then n - 1 else n);
    }
  }
}
