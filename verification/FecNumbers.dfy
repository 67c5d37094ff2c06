/** Consecutive 16-bit numbers: the sender's groups, and which of them the
    receiver can tell from those it remembers. */
module FecNumbers {
  import opened Bytes
  import opened Arithmetic
  import opened Packets
  import opened FecEncoding
  import opened FecReceiving
  import opened FecGroups
  import opened AudioLoop
  import opened Datagrams
  import opened FecSending
  import opened FecStreams

  // ----- Consecutive numbers -----

  /** Groups of one size, each numbered n + 1 after the one before. */
  ghost predicate Numbered(gs: seq<Group>, b: u16, n: nat) {
    && 2 <= n <= 16
    && forall k :: 0 <= k < |gs| ==> NumberedAt(gs, b, n, k)
  }

  ghost predicate NumberedAt(gs: seq<Group>, b: u16, n: nat, k: nat)
    requires k < |gs|
  {
    && WellSent(gs[k]) && Framed(gs[k]) && !Flagged(gs[k].parity)
    && |gs[k].data| == n
    && gs[k].base == WrapAdd(if k == 0 then b else gs[k - 1].base, n + 1)
  }

  lemma NumberedPrefix(gs: seq<Group>, b: u16, n: nat)
    requires Numbered(gs, b, n) && gs != []
    ensures Numbered(gs[..|gs| - 1], b, n)
    ensures NumberedAt(gs, b, n, |gs| - 1)
  {
    hide WellSent;
    var front := gs[..|gs| - 1];
    forall k | 0 <= k < |front| ensures NumberedAt(front, b, n, k) {
      assert NumberedAt(gs, b, n, k);
    }
  }

  /** How many groups ago the group still open and the one closed last were sent;
      0 if there is none. */
  ghost function Ages(gs: seq<Group>, arrs: seq<seq<nat>>): (nat, nat)
    requires Channels(gs, arrs)
  {
    if gs == [] then (0, 0)
    else
      var k := |gs| - 1;
      var (open, closed) := Ages(gs[..k], arrs[..k]);
      if !Heard(gs[k], arrs[k]) then (Older(open), Older(closed))
      else if Settles(gs[k], arrs[k]) then (0, 1)
      else (1, Older(if open != 0 then open else closed))
  }

  function Older(age: nat): nat { if age == 0 then 0 else age + 1 }

  /** A multiple of 65536 packets ago. */
  predicate FullTurnAgo(age: nat, n: nat) { age != 0 && age * (n + 1) % 0x1_0000 == 0 }

  /** Of group `k` nothing arrives, or it was not sent a multiple of 65536 packets
      after the group still open, nor, if its data arrive, after the one closed last. */
  ghost predicate ToldApart(gs: seq<Group>, arrs: seq<seq<nat>>, n: nat, k: nat)
    requires Channels(gs, arrs) && k < |gs|
  {
    var (open, closed) := Ages(gs[..k], arrs[..k]);
    arrs[k] == [] || (!FullTurnAgo(open, n) && (Heard(gs[k], arrs[k]) ==> !FullTurnAgo(closed, n)))
  }

  ghost predicate Behind(base: Option<u16>, age: nat, next: u16, n: nat) {
    if base.None? then age == 0 else age >= 1 && base.value == WrapSub(next, age * (n + 1))
  }

  /** The base number of the group after `gs`. */
  ghost function Following(gs: seq<Group>, b: u16, n: nat): u16 {
    WrapAdd(if gs == [] then b else gs[|gs| - 1].base, n + 1)
  }

  lemma BehindNext(base: Option<u16>, age: nat, next: u16, n: nat)
    requires Behind(base, age, next, n)
    ensures Behind(base, Older(age), WrapAdd(next, n + 1), n)
  {
    if base.Some? {
      assert (age + 1) * (n + 1) == age * (n + 1) + (n + 1);
      WrapShift(next, age * (n + 1), n + 1);
    }
  }

  lemma WrapShift(x: u16, m: int, d: int)
    ensures WrapSub(WrapAdd(x, d), m + d) == WrapSub(x, m)
  {
  }

  lemma WrapSame(x: u16, m: int)
    ensures WrapSub(x, m) == x <==> m % 0x1_0000 == 0
  {
  }

  lemma {:induction false} AgesAre(gs: seq<Group>, arrs: seq<seq<nat>>, b: u16, n: nat)
    requires Numbered(gs, b, n) && Channels(gs, arrs)
    ensures var m := Remembers(gs, arrs);
            var (open, closed) := Ages(gs, arrs);
            Behind(m.open, open, Following(gs, b, n), n) && Behind(m.closed, closed, Following(gs, b, n), n)
    decreases |gs|
  {
    hide Behind, WellSent, Heard, Settles, Arrivals, Framed;
    NoneBehind(Following(gs, b, n), n);
    if gs != [] {
      var k := |gs| - 1;
      NumberedPrefix(gs, b, n);
      AgesAre(gs[..k], arrs[..k], b, n);
      var m := Remembers(gs[..k], arrs[..k]);
      var (open, closed) := Ages(gs[..k], arrs[..k]);
      var next := Following(gs[..k], b, n);
      assert gs[k].base == next;
      BehindNext(m.open, open, next, n);
      BehindNext(m.closed, closed, next, n);
      BehindSome(m.open, open, next, n);
      OneBehind(gs[k].base, n);
    }
  }

  lemma BehindSome(base: Option<u16>, age: nat, next: u16, n: nat)
    requires Behind(base, age, next, n)
    ensures base.Some? <==> age != 0
  {
  }

  lemma NoneBehind(next: u16, n: nat)
    ensures Behind(None, 0, next, n)
  {
  }

  lemma OneBehind(base: u16, n: nat)
    ensures Behind(Some(base), 1, WrapAdd(base, n + 1), n)
  {
    WrapCancel(base, n + 1);
  }

  /** By numbers, memory and age agree on whether group `k` is new. */
  lemma {:induction false} NewByAge(gs: seq<Group>, arrs: seq<seq<nat>>, b: u16, n: nat, k: nat)
    requires Numbered(gs, b, n) && Channels(gs, arrs) && k < |gs|
    ensures NewTo(Remembers(gs[..k], arrs[..k]), gs[k], arrs[k]) <==> ToldApart(gs, arrs, n, k)
  {
    hide WellSent, Arrivals, Ages, Remembers, Heard, Framed;
    NumberedUpTo(gs, b, n, k);
    AgesAre(gs[..k], arrs[..k], b, n);
    var (open, closed) := Ages(gs[..k], arrs[..k]);
    WrapSame(gs[k].base, open * (n + 1));
    WrapSame(gs[k].base, closed * (n + 1));
  }

  /** Consecutive numbering tells groups apart through any outage, except over
      whole turns of the 16-bit numbers. */
  lemma {:induction false} NumberedIsStream(gs: seq<Group>, arrs: seq<seq<nat>>, b: u16, n: nat)
    requires Numbered(gs, b, n) && Channels(gs, arrs)
    ensures Stream(gs, arrs) <==> forall k :: 0 <= k < |gs| ==> ToldApart(gs, arrs, n, k)
  {
    hide WellSent, Arrivals, Ages, Remembers, Framed, NewTo, ToldApart;
    forall k | 0 <= k < |gs| ensures StreamAt(gs, arrs, k) <==> ToldApart(gs, arrs, n, k) {
      NewByAge(gs, arrs, b, n, k);
      NumberedUpTo(gs, b, n, k);
    }
  }

  /** The receiver itself: as long as the groups before were told apart, group `k`
      is ready to be taken as a group of its own if and only if it is told apart.
      `Ready` is what `feed` checks of the numbers it remembers. */
  lemma {:induction false} ReadyExactly(gs: seq<Group>, arrs: seq<seq<nat>>, b: u16, n: nat, k: nat)
    requires Numbered(gs, b, n) && Channels(gs, arrs) && k < |gs|
    requires Channels(gs, Fittings(gs, arrs))
    requires forall j :: 0 <= j < k ==> ToldApart(gs, Fittings(gs, arrs), n, j)
    ensures AllAcceptable(Arrived(gs[..k], arrs[..k]))
    ensures var before := ReceiveAll(FRESH, Arrived(gs[..k], arrs[..k])).0;
            var fit := Fittings(gs, arrs);
            && Valid(before)
            && (NewTo(MemoryOf(before), gs[k], fit[k]) <==> ToldApart(gs, fit, n, k))
            && (Heard(gs[k], fit[k]) ==> (Ready(before, gs[k]) <==> ToldApart(gs, fit, n, k)))
  {
    hide WellSent, Arrivals, Ages, Remembers, Framed, ToldApart, Fittings, Arrived, AllAcceptable, Process, Sound, Outcomes,
      Flush, Heard;
    var fit := Fittings(gs, arrs);
    FittingsPrefix(gs, arrs, k);
    NumberedUpTo(gs, b, n, k);
    NumberedFramed(gs[..k], b, n);
    forall j | 0 <= j < k ensures ToldApart(gs[..k], fit[..k], n, j) {
      ToldApartPrefix(gs, fit, n, k, j);
    }
    NumberedIsStream(gs[..k], fit[..k], b, n);
    var rx, got, outs := StreamDelivery(gs[..k], arrs[..k]);
    NewByAge(gs, fit, b, n, k);
    HeardArrives(gs[k], fit[k]);
  }

  lemma HeardArrives(g: Group, arr: seq<nat>)
    ensures Heard(g, arr) ==> arr != []
  {
  }

  lemma ToldApartPrefix(gs: seq<Group>, arrs: seq<seq<nat>>, n: nat, m: nat, k: nat)
    requires Channels(gs, arrs) && k < m <= |gs|
    ensures Channels(gs[..m], arrs[..m])
    ensures ToldApart(gs[..m], arrs[..m], n, k) == ToldApart(gs, arrs, n, k)
  {
    hide Arrivals, Ages, Heard, FullTurnAgo;
    assert gs[..m][..k] == gs[..k] && arrs[..m][..k] == arrs[..k];
  }

  lemma NumberedFramed(gs: seq<Group>, b: u16, n: nat)
    requires Numbered(gs, b, n)
    ensures AllFramed(gs)
  {
    hide WellSent, Framed;
    forall k | 0 <= k < |gs| ensures Framed(gs[k]) { assert NumberedAt(gs, b, n, k); }
  }

  lemma FewAgo(age: nat, n: nat)
    requires age <= 2 && 2 <= n <= 16
    ensures !FullTurnAgo(age, n)
  {
  }

  lemma NumberedUpTo(gs: seq<Group>, b: u16, n: nat, k: nat)
    requires Numbered(gs, b, n) && k < |gs|
    ensures Numbered(gs[..k], b, n)
    ensures NumberedAt(gs, b, n, k) && gs[k].base == Following(gs[..k], b, n)
  {
    hide WellSent;
    var front := gs[..k];
    forall i | 0 <= i < k ensures NumberedAt(front, b, n, i) { assert NumberedAt(gs, b, n, i); }
    assert NumberedAt(gs, b, n, k);
  }

  /** Without silent groups the groups remembered are among the last two sent. */
  lemma {:induction false} AllHeard(gs: seq<Group>, arrs: seq<seq<nat>>)
    requires Channels(gs, arrs) && forall k :: 0 <= k < |gs| ==> Heard(gs[k], arrs[k])
    ensures Ages(gs, arrs).0 <= 1 && Ages(gs, arrs).1 <= 2
    ensures Ages(gs, arrs).0 == 0 ==> Ages(gs, arrs).1 <= 1
  {
    hide Settles, Heard, Arrivals;
    if gs != [] { AllHeard(gs[..|gs| - 1], arrs[..|gs| - 1]); }
  }

  // ----- The sender -----

  /** The groups a sender starting at number `s` makes of `audio`, n packets each. */
  function SentGroups(s: u16, n: nat, audio: seq<seq<Audio>>): (gs: seq<Group>)
    requires 2 <= n <= 16
    requires forall k :: 0 <= k < |audio| ==> |audio[k]| == n
    ensures |gs| == |audio|
  {
    if audio == [] then []
    else
      var front := SentGroups(s, n, audio[..|audio| - 1]);
      front + [SentGroup(NextBase(front, s, n), audio[|audio| - 1])]
  }

  /** The first number of the group that follows `gs`. */
  function NextBase(gs: seq<Group>, s: u16, n: nat): u16 {
    if gs == [] then s else WrapAdd(gs[|gs| - 1].base, n + 1)
  }

  /** Everything the groups put on the wire. */
  function WireAll(gs: seq<Group>): seq<Packet> {
    if gs == [] then [] else WireAll(gs[..|gs| - 1]) + Wire(gs[|gs| - 1])
  }

  ghost predicate AllOrdinary(audio: seq<seq<Audio>>, n: nat) {
    forall k :: 0 <= k < |audio| ==> |audio[k]| == n && Ordinary(audio[k])
  }

  /** Packet `i` of group `k` carries call `i` of the k-th portion. */
  lemma {:induction false} GroupsCarry(s: u16, n: nat, audio: seq<seq<Audio>>, k: nat, i: nat)
    requires 2 <= n <= 16 && forall j :: 0 <= j < |audio| ==> |audio[j]| == n
    requires k < |audio| && i < n
    ensures var g := SentGroups(s, n, audio)[k]; |g.data| == n && Carries(g.data[i], audio[k][i])
    decreases |audio|
  {
    hide SentGroup, Carries;
    var front := audio[..|audio| - 1];
    if k < |front| {
      GroupsCarry(s, n, front, k, i);
    } else {
      SentCarries(NextBase(SentGroups(s, n, front), s, n), audio[k]);
    }
  }

  ghost predicate CarriesAll(gs: seq<Group>, audio: seq<seq<Audio>>) {
    |gs| == |audio| && forall k :: 0 <= k < |gs| ==> Payloads(gs[k].data) == AudioPayloads(audio[k])
  }

  lemma CarriesSnoc(gs: seq<Group>, g: Group, audio: seq<seq<Audio>>)
    requires audio != [] && CarriesAll(gs, audio[..|audio| - 1])
    requires Payloads(g.data) == AudioPayloads(audio[|audio| - 1])
    ensures CarriesAll(gs + [g], audio)
  {
    hide Payloads, AudioPayloads;
    forall k | 0 <= k < |audio| ensures Payloads((gs + [g])[k].data) == AudioPayloads(audio[k]) {
      if k < |gs| { assert audio[..|audio| - 1][k] == audio[k]; }
    }
  }

  /** The sender's packets over any number of groups, wrap-around included, are
      exactly consecutively numbered well-formed groups. */
  lemma {:induction false} SenderStream(s: u16, n: nat, audio: seq<seq<Audio>>)
    requires 2 <= n <= 16 && AllOrdinary(audio, n)
    ensures var gs := SentGroups(s, n, audio);
            && SendAll(Tx(s, n, []), Concat(audio)) == (Tx(NextBase(gs, s, n), n, []), WireAll(gs))
            && Numbered(gs, WrapSub(s, n + 1), n)
            && CarriesAll(gs, audio)
    decreases |audio|
  {
    hide Send, WellSent, SentGroup, Numbered, Wire, AudioPayloads, Payloads, Ordinary, CarriesAll;
    if audio == [] {
      assert Numbered([], WrapSub(s, n + 1), n) by { NumberedNone(WrapSub(s, n + 1), n); }
      assert CarriesAll([], []) by { CarriesNone(); }
    } else {
      var front := audio[..|audio| - 1];
      SenderStream(s, n, front);
      var gs0 := SentGroups(s, n, front);
      var base := NextBase(gs0, s, n);
      SendGroup(base, audio[|audio| - 1]);
      SendAllConcat(Tx(s, n, []), Concat(front), audio[|audio| - 1],
                    SendAll(Tx(s, n, []), Concat(front)), SendAll(Tx(base, n, []), audio[|audio| - 1]));
      SentBase(base, audio[|audio| - 1]);
      NumberedSnoc(gs0, SentGroup(base, audio[|audio| - 1]), s, n);
      CarriesSnoc(gs0, SentGroup(base, audio[|audio| - 1]), audio);
      var gs := SentGroups(s, n, audio);
      assert gs[..|gs| - 1] == gs0;
    }
  }

  lemma CarriesNone()
    ensures CarriesAll([], [])
  {
  }

  lemma NumberedNone(b: u16, n: nat)
    requires 2 <= n <= 16
    ensures Numbered([], b, n)
  {
  }

  lemma SentBase(s: u16, audio: seq<Audio>)
    requires 2 <= |audio| <= 16
    ensures SentGroup(s, audio).base == s && !Flagged(SentGroup(s, audio).parity)
    ensures Ordinary(audio) ==> Framed(SentGroup(s, audio))
  {
    var g := SentGroup(s, audio);
    if Ordinary(audio) {
      LongestAtMost(AudioPayloads(audio), 0xFFFF);
      forall x | 0 <= x <= |audio| ensures FramedAt(g, x) { }
    }
  }

  lemma NumberedSnoc(gs: seq<Group>, g: Group, s: u16, n: nat)
    requires Numbered(gs, WrapSub(s, n + 1), n)
    requires WellSent(g) && Framed(g) && !Flagged(g.parity) && |g.data| == n && g.base == NextBase(gs, s, n)
    ensures Numbered(gs + [g], WrapSub(s, n + 1), n)
  {
    hide WellSent;
    var all, b := gs + [g], WrapSub(s, n + 1);
    assert WrapAdd(b, n + 1) == s;
    forall k | 0 <= k < |all| ensures NumberedAt(all, b, n, k) {
      assert k < |gs| ==> NumberedAt(gs, b, n, k);
    }
  }

  /** Payloads of a flattened list, and the lists of payloads flattened. */
  lemma {:induction false} ConcatPayloads(outs: seq<seq<Packet>>, audio: seq<seq<Audio>>)
    requires |outs| == |audio|
    requires forall k :: 0 <= k < |outs| ==> Payloads(outs[k]) == AudioPayloads(audio[k])
    ensures Payloads(Concat(outs)) == AudioPayloads(Concat(audio))
  {
    if outs != [] {
      var k := |outs| - 1;
      ConcatPayloads(outs[..k], audio[..k]);
      assert Payloads(Concat(outs)) == Payloads(Concat(outs[..k])) + Payloads(outs[k]);
      assert AudioPayloads(Concat(audio)) == AudioPayloads(Concat(audio[..k])) + AudioPayloads(audio[k]);
    }
  }
}
