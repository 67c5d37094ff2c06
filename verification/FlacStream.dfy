/** The stateful FLAC decoder, and that chunking is invisible to it. The codec
    is an oracle: `opens` says whether it accepts a stream header, `accepts`
    whether a byte string decodes as one frame. */
module FlacStream {
  import opened Bytes
  import opened Crc
  import opened Flac

  type Oracle = seq<byte> -> bool

  datatype State = State(buf: seq<byte>, initialized: bool)

  const MAGIC: seq<byte> := [0x66, 0x4C, 0x61, 0x43]

  function Feed(s: State, data: seq<byte>, opens: Oracle, accepts: Oracle): (State, seq<seq<byte>>) {
    var buf := s.buf + data;
    if s.initialized then
      var (frames, rest) := Drain(buf, accepts);
      (State(rest, true), frames)
    else if |buf| < 4 then (State(buf, false), [])
    else if buf[..4] != MAGIC then (State([], false), [])
    else match StreamHeaderLen(buf, 4)
      case None => (State(buf, false), [])
      case Some(len) =>
        if opens(buf[..len]) then
          var (frames, rest) := Drain(buf[len..], accepts);
          (State(rest, true), frames)
        else (State([], false), [])
  }

  class FlacStreamDecoder {
    var buf: seq<byte>
    var initialized: bool
    const opens: Oracle
    const accepts: Oracle

    function Current(): State
      reads this
    {
      State(buf, initialized)
    }

    constructor (opens: Oracle, accepts: Oracle)
      ensures Current() == State([], false) && this.opens == opens && this.accepts == accepts
    {
      buf, initialized := [], false;
      this.opens, this.accepts := opens, accepts;
    }

    method FeedData(data: seq<byte>) returns (frames: seq<seq<byte>>)
      modifies this
      ensures (Current(), frames) == Feed(old(Current()), data, opens, accepts)
    {
      hide Drain;
      buf := buf + data;
      if !initialized {
        if |buf| < 4 { return []; }
        if buf[..4] != MAGIC {
          buf := [];
          return [];
        }
        var headerLen := ScanStreamHeader(buf);
        if headerLen.None? { return []; }
        if opens(buf[..headerLen.value]) {
          buf := buf[headerLen.value..];
          initialized := true;
        } else {
          buf := [];
          return [];
        }
      }
      frames := DrainFrames();
    }

    /** Cuts every complete frame out of the buffer, keeping a trailing partial one. */
    method DrainFrames() returns (frames: seq<seq<byte>>)
      modifies this
      ensures (frames, buf) == Drain(old(buf), accepts) && initialized == old(initialized)
    {
      hide Drain;
      var pos := 0;
      frames := [];
      ghost var goal := Drain(buf, accepts);
      DrainEmpty(accepts);
      assert buf[0..] == buf && [] + goal.0 == goal.0;
      while pos < |buf|
        invariant pos <= |buf| && buf == old(buf) && initialized == old(initialized)
        invariant (frames + Drain(buf[pos..], accepts).0, Drain(buf[pos..], accepts).1) == goal
        decreases |buf| - pos
      {
        var start, cut, stop := Cut(pos);
        if stop {
          pos := start;
          assert frames + [] == frames;
          break;
        }
        ghost var tail := Drain(buf[start..], accepts).0;
        assert frames + (cut + tail) == (frames + cut) + tail;
        frames := frames + cut;
        pos := start;
      }
      assert frames + [] == frames && buf[|buf|..] == [];
      buf := buf[pos..];
    }

    /** One turn: skips to the next possible header and tries to cut a frame
        there. Stops, keeping the bytes from `next` on, when it must wait. */
    method Cut(pos: nat) returns (next: nat, cut: seq<seq<byte>>, stop: bool)
      requires pos < |buf|
      ensures pos <= next <= |buf| && (!stop ==> pos < next)
      ensures stop ==> Drain(buf[pos..], accepts) == ([], buf[next..])
      ensures !stop ==>
                Drain(buf[pos..], accepts) == (cut + Drain(buf[next..], accepts).0, Drain(buf[next..], accepts).1)
    {
      hide Drain, DrainAt, FrameHeader, FrameEnd;
      cut, stop := [], true;
      var start := SearchStart(pos);
      DrainFrom(buf, pos, start, accepts);
      next := start;
      if start == |buf| {
        assert buf[start..] == [];
        return;
      }
      ghost var b := buf[start..];
      var header := ParseFrameHeader(buf[start..]);
      if header.Incomplete? { DrainStop(b, accepts); return; }
      var end := FindFrameEnd(buf, start, header.len);
      if end.Some? {
        next, cut, stop := CutOrSkip(start, header.len, end.value);
        return;
      } else if |buf| - start > MAX_FRAME_BYTES {
        SkipFrame(b, header.len, accepts);
        assert b[1..] == buf[start + 1..];
        next, stop := start + 1, false;
      } else {
        DrainStop(b, accepts);
        return;
      }
      assert [] + Drain(buf[next..], accepts).0 == Drain(buf[next..], accepts).0;
    }

    /** Offers the frame to the codec: cut it, wait at the end of the buffer, or skip it. */
    method CutOrSkip(start: nat, headerLen: nat, e: nat) returns (next: nat, cut: seq<seq<byte>>, stop: bool)
      requires start < |buf| && FrameHeader(buf[start..]) == Valid(headerLen)
      requires start < e <= |buf| && FrameEnd(buf[start..], headerLen, 0) == Some(e - start)
      ensures next == (if stop then start else e) && (stop ==> cut == [])
      ensures stop ==> DrainAt(buf[start..], accepts) == ([], buf[start..])
      ensures !stop ==>
                DrainAt(buf[start..], accepts) == (cut + Drain(buf[e..], accepts).0, Drain(buf[e..], accepts).1)
    {
      hide Drain, DrainAt, FrameHeader, FrameEnd;
      ghost var b := buf[start..];
      CutAt(buf, start, e);
      if accepts(buf[start..e]) {
        CutFrame(b, headerLen, e - start, accepts);
        return e, [buf[start..e]], false;
      }
      if e == |buf| {
        DrainStop(b, accepts);
        return start, [], true;
      }
      SkipFrame(b, headerLen, accepts);
      assert [] + Drain(buf[e..], accepts).0 == Drain(buf[e..], accepts).0;
      return e, [], false;
    }

    method SearchStart(pos: nat) returns (start: nat)
      requires pos <= |buf|
      ensures pos <= start <= |buf| && start - pos == FindStart(buf[pos..], 0)
    {
      ghost var f := buf[pos..];
      start := pos;
      while start < |buf|
        invariant pos <= start <= |buf|
        invariant FindStart(f, 0) == FindStart(f, start - pos)
      {
        assert f[start - pos..] == buf[start..];
        var v := ParseFrameHeader(buf[start..]);
        if !v.Invalid? { return; }
        start := start + 1;
      }
    }
  }

  lemma CutAt(buf: seq<byte>, start: nat, e: nat)
    requires start <= e <= |buf|
    ensures buf[start..][..e - start] == buf[start..e] && buf[start..][e - start..] == buf[e..]
  {
  }

  lemma DrainFrom(buf: seq<byte>, pos: nat, start: nat, accepts: Oracle)
    requires pos <= start <= |buf| && start - pos == FindStart(buf[pos..], 0)
    ensures start == |buf| ==> Drain(buf[pos..], accepts) == ([], [])
    ensures start < |buf| ==>
              && !FrameHeader(buf[start..]).Invalid?
              && Drain(buf[pos..], accepts) == DrainAt(buf[start..], accepts) == Drain(buf[start..], accepts)
  {
    hide FrameHeader;
    if start < |buf| {
      assert buf[pos..][start - pos..] == buf[start..];
      DrainSelf(buf[start..], accepts);
    }
  }

  /** Nothing to cut yet: an open header, an open frame, or a rejected cut at the very end. */
  lemma DrainStop(b: seq<byte>, accepts: Oracle)
    requires b != [] && !FrameHeader(b).Invalid?
    requires FrameHeader(b).Valid? ==>
               var e := FrameEnd(b, FrameHeader(b).len, 0);
               if e.None? then |b| <= MAX_FRAME_BYTES else e.value == |b| && !accepts(b[..|b|])
    ensures DrainAt(b, accepts) == ([], b)
  {
    hide FrameHeader;
  }

  /** A rejected cut, or a frame with no end in sight. */
  lemma SkipFrame(b: seq<byte>, h: nat, accepts: Oracle)
    requires b != [] && FrameHeader(b) == Valid(h)
    ensures var e := FrameEnd(b, h, 0);
            && (e.Some? && !accepts(b[..e.value]) && e.value < |b| ==> DrainAt(b, accepts) == Drain(b[e.value..], accepts))
            && (e.None? && |b| > MAX_FRAME_BYTES ==> DrainAt(b, accepts) == Drain(b[1..], accepts))
  {
    hide FrameHeader, Drain;
  }

  /** A buffer that starts with a possible header is drained from its start. */
  lemma DrainSelf(b: seq<byte>, accepts: Oracle)
    requires b != [] && !FrameHeader(b).Invalid?
    ensures Drain(b, accepts) == DrainAt(b, accepts)
  {
    assert b[0..] == b;
    assert FindStart(b, 0) == 0;
  }

  // ----- Well-formed streams -----

  /** A frame the splitter can find: a valid header, a matching footer, and no
      byte pair inside that matches the running CRC and could be taken for the
      footer, that is, one followed by 0xFF or ending a decodable frame. */
  ghost predicate GoodFrame(f: seq<byte>, accepts: Oracle) {
    && FrameHeader(f).Valid?
    && FrameHeader(f).len + 3 <= |f| <= MAX_FRAME_BYTES
    && FooterAt(f, |f| - 2)
    && accepts(f)
    && forall i :: FrameHeader(f).len < i < |f| - 2 ==> Harmless(f, i, accepts)
  }

  ghost predicate Harmless(f: seq<byte>, i: nat, accepts: Oracle)
    requires i + 2 < |f|
  {
    FooterAt(f, i) ==> f[i + 2] != 0xFF && !accepts(f[..i + 2])
  }

  ghost predicate GoodFrames(fs: seq<seq<byte>>, accepts: Oracle) {
    forall k :: 0 <= k < |fs| ==> GoodFrame(fs[k], accepts)
  }

  ghost predicate GoodHeader(head: seq<byte>, opens: Oracle) {
    |head| >= 4 && head[..4] == MAGIC && StreamHeaderLen(head, 4) == Some(|head|) && opens(head)
  }

  /** Bytes that agree with a frame as far as they go. */
  lemma FooterSame(f: seq<byte>, b: seq<byte>, i: nat)
    requires i + 2 <= |f| && i + 2 <= |b| && f[..i + 2] == b[..i + 2]
    ensures FooterAt(f, i) == FooterAt(b, i)
  {
    hide Crc16, Be16;
    assert f[..i] == f[..i + 2][..i] && b[..i] == b[..i + 2][..i];
    assert f[i] == f[..i + 2][i] && f[i + 1] == f[..i + 2][i + 1];
    assert b[i] == b[..i + 2][i] && b[i + 1] == b[..i + 2][i + 1];
  }

  /** A harmless position inside a frame does not end it, unless the buffer stops there. */
  lemma NoEndInside(f: seq<byte>, b: seq<byte>, h: nat, i: nat, accepts: Oracle)
    requires i + 2 < |f| && i + 2 < |b| && (h < i ==> Harmless(f, i, accepts))
    requires f[..i + 2] == b[..i + 2] && f[i + 2] == b[i + 2]
    ensures !EndsAt(b, h, i)
  {
    hide FooterAt;
    FooterSame(f, b, i);
    assert b[i + 2..][0] == f[i + 2];
  }

  /** A whole frame followed by nothing, or by what may be a header, is cut off exactly. */
  lemma {:induction false} WholeFrame(f: seq<byte>, rest: seq<byte>, accepts: Oracle)
    requires GoodFrame(f, accepts) && (rest == [] || !FrameHeader(rest).Invalid?)
    ensures Drain(f + rest, accepts) == ([f] + Drain(rest, accepts).0, Drain(rest, accepts).1)
  {
    hide Drain, FooterAt, EndsAt, FrameHeader;
    var b, h := f + rest, FrameHeader(f).len;
    HeaderStable(f, rest);
    forall i | 0 <= i < |f| - 2 ensures !EndsAt(b, h, i) {
      assert b[..i + 2] == f[..i + 2] && b[i + 2] == f[i + 2];
      NoEndInside(f, b, h, i, accepts);
    }
    FrameEndSkip(b, h, 0, |f| - 2);
    EndHere(f, rest, h);
    DrainSelf(b, accepts);
    assert b[..|f|] == f && b[|f|..] == rest;
    CutFrame(b, h, |f|, accepts);
  }

  lemma EndHere(f: seq<byte>, rest: seq<byte>, h: nat)
    requires |f| >= h + 3 && FooterAt(f, |f| - 2) && (rest == [] || !FrameHeader(rest).Invalid?)
    ensures FrameEnd(f + rest, h, |f| - 2) == Some(|f|)
  {
    hide FrameHeader, FooterAt;
    var b := f + rest;
    assert b[..|f|] == f[..|f|];
    FooterSame(f, b, |f| - 2);
    assert b[|f|..] == rest;
  }

  lemma CutFrame(b: seq<byte>, h: nat, end: nat, accepts: Oracle)
    requires FrameHeader(b) == Valid(h) && FrameEnd(b, h, 0) == Some(end) && b != [] && accepts(b[..end])
    ensures DrainAt(b, accepts) == ([b[..end]] + Drain(b[end..], accepts).0, Drain(b[end..], accepts).1)
  {
    hide Drain, FrameHeader;
  }

  /** A frame cut short anywhere is kept, whole, for later. */
  lemma {:induction false} PartialFrame(f: seq<byte>, k: nat, accepts: Oracle)
    requires GoodFrame(f, accepts) && k < |f|
    ensures Drain(f[..k], accepts) == ([], f[..k])
  {
    hide FooterAt, EndsAt, FrameHeader;
    var b := f[..k];
    HeaderPrefix(f, k);
    if k > 0 {
      DrainSelf(b, accepts);
      if FrameHeader(b) == FrameHeader(f) {
        PartialEnd(f, k, accepts);
        assert b[..k] == b;
      }
    } else {
      assert Drain([], accepts) == ([], []);
    }
  }

  /** A chance CRC match at the cut is not a frame the codec takes. */
  lemma {:induction false} PartialEnd(f: seq<byte>, k: nat, accepts: Oracle)
    requires GoodFrame(f, accepts) && 0 < k < |f|
    ensures var e := FrameEnd(f[..k], FrameHeader(f).len, 0);
            e.None? || (e == Some(k) && !accepts(f[..k]))
  {
    hide FooterAt, FrameHeader;
    var b, h := f[..k], FrameHeader(f).len;
    var last := if k >= 2 then k - 2 else 0;
    forall i | 0 <= i < last ensures !EndsAt(b, h, i) {
      assert b[..i + 2] == f[..i + 2] && b[i + 2] == f[i + 2];
      NoEndInside(f, b, h, i, accepts);
    }
    FrameEndSkip(b, h, 0, last);
    if k >= 2 && EndsAt(b, h, last) {
      FooterSame(f, b, last);
      assert Harmless(f, last, accepts);
    }
  }

  /** `Harmless` is not to spare: at the first inner position of a frame that is
      not harmless, stopping the bytes one past it, or at it, loses the frame. */
  lemma {:induction false} HarmfulMatch(f: seq<byte>, i: nat, accepts: Oracle)
    requires FrameHeader(f).Valid? && FrameHeader(f).len < i < |f| - 2
    requires !Harmless(f, i, accepts)
    requires forall k :: FrameHeader(f).len < k < i ==> Harmless(f, k, accepts)
    ensures accepts(f[..i + 2]) ==> Drain(f[..i + 2], accepts).0 == [f[..i + 2]]
    ensures !accepts(f[..i + 2]) ==> Drain(f[..i + 3], accepts) == ([], [0xFF])
  {
    hide FooterAt, FrameHeader;
    var h := FrameHeader(f).len;
    var n := if accepts(f[..i + 2]) then i + 2 else i + 3;
    var b := f[..n];
    HeaderWithin(f, n);
    forall k | 0 <= k < i && k + 2 <= |b| ensures !EndsAt(b, h, k) {
      assert f[..k + 2] == b[..k + 2] && f[k + 2] == b[k + 2];
      NoEndInside(f, b, h, k, accepts);
    }
    FrameEndSkip(b, h, 0, i);
    assert f[..i + 2] == b[..i + 2];
    FooterSame(f, b, i);
    if n == i + 3 {
      assert b[i + 2..] == [0xFF];
      LoneSync(accepts);
    }
    assert EndsAt(b, h, i) && FrameEnd(b, h, i) == Some(i + 2);
    DrainSelf(b, accepts);
    if n == i + 3 { SkipFrame(b, h, accepts); } else { CutFrame(b, h, n, accepts); DrainEmpty(accepts); }
  }

  /** What the splitter owes a frame that arrives in two chunks, cut anywhere:
      nothing before its last byte, and then the frame. */
  ghost predicate SurvivesCuts(f: seq<byte>, accepts: Oracle) {
    forall k :: 0 <= k <= |f| ==> Drain(f[..k], accepts) == if k < |f| then ([], f[..k]) else ([f], [])
  }

  /** A frame within the size limit, with a valid header and footer and accepted
      by the codec, survives every cut exactly if it is harmless throughout. */
  lemma {:induction false} CutsExactly(f: seq<byte>, accepts: Oracle)
    requires FrameHeader(f).Valid? && FrameHeader(f).len + 3 <= |f| <= MAX_FRAME_BYTES
    requires FooterAt(f, |f| - 2) && accepts(f)
    ensures SurvivesCuts(f, accepts) <==>
            forall i :: FrameHeader(f).len < i < |f| - 2 ==> Harmless(f, i, accepts)
  {
    hide FooterAt, FrameHeader, Drain;
    var h := FrameHeader(f).len;
    if forall i :: h < i < |f| - 2 ==> Harmless(f, i, accepts) {
      forall k | 0 <= k <= |f| ensures Drain(f[..k], accepts) == if k < |f| then ([], f[..k]) else ([f], []) {
        if k < |f| {
          PartialFrame(f, k, accepts);
        } else {
          WholeFrame(f, [], accepts);
          DrainEmpty(accepts);
          assert f[..k] == f && f + [] == f && [f] + [] == [f];
        }
      }
    } else {
      var i :| h < i < |f| - 2 && !Harmless(f, i, accepts);
      FirstHarm(f, h, i, accepts);
    }
  }

  lemma {:induction false} FirstHarm(f: seq<byte>, h: nat, i: nat, accepts: Oracle)
    requires FrameHeader(f) == Valid(h) && h < i < |f| - 2 && !Harmless(f, i, accepts)
    ensures !SurvivesCuts(f, accepts)
    decreases i
  {
    hide FooterAt, FrameHeader, Drain;
    if forall k :: h < k < i ==> Harmless(f, k, accepts) {
      HarmfulMatch(f, i, accepts);
      var n := if accepts(f[..i + 2]) then i + 2 else i + 3;
      assert Drain(f[..n], accepts) != if n < |f| then ([], f[..n]) else ([f], []);
    } else {
      var k :| h < k < i && !Harmless(f, k, accepts);
      FirstHarm(f, h, k, accepts);
    }
  }

  // ----- Resynchronizing -----

  /** Bytes none of which can start a header are passed over, and nothing else is. */
  lemma {:induction false} JunkSkipped(junk: seq<byte>, s: seq<byte>, accepts: Oracle)
    requires forall i :: 0 <= i < |junk| ==> FrameHeader((junk + s)[i..]).Invalid?
    ensures Drain(junk + s, accepts) == Drain(s, accepts)
  {
    hide FrameHeader;
    var b := junk + s;
    StartAfter(b, |junk|, 0);
    StartShift(junk, s, 0);
    var start := FindStart(s, 0);
    assert b[|junk| + start..] == s[start..];
  }

  lemma {:induction false} StartAfter(b: seq<byte>, k: nat, i: nat)
    requires i <= k <= |b| && forall j :: i <= j < k ==> FrameHeader(b[j..]).Invalid?
    ensures FindStart(b, i) == FindStart(b, k)
    decreases k - i
  {
    hide FrameHeader;
    if i < k { StartAfter(b, k, i + 1); }
  }

  lemma {:induction false} StartShift(junk: seq<byte>, s: seq<byte>, i: nat)
    requires i <= |s|
    ensures FindStart(junk + s, |junk| + i) == |junk| + FindStart(s, i)
    decreases |s| - i
  {
    hide FrameHeader;
    assert (junk + s)[|junk| + i..] == s[i..];
    if i < |s| && FrameHeader(s[i..]).Invalid? { StartShift(junk, s, i + 1); }
  }

  /** A valid header to which no end is found: up to 4 MiB its bytes are kept, past
      that the search goes on at the next byte. */
  lemma NoEndInSight(b: seq<byte>, accepts: Oracle)
    requires FrameHeader(b).Valid?
    requires forall i :: 0 <= i && i + 2 <= |b| ==> !EndsAt(b, FrameHeader(b).len, i)
    ensures Drain(b, accepts) == if |b| <= 4194304 then ([], b) else Drain(b[1..], accepts)
  {
    hide FrameHeader, EndsAt, Drain;
    var h := FrameHeader(b).len;
    assert b != [] by { NothingUndecided(); }
    FrameEndSkip(b, h, 0, |b|);
    DrainSelf(b, accepts);
    if |b| <= 4194304 { DrainStop(b, accepts); } else { SkipFrame(b, h, accepts); }
  }

  /** A frame the codec refuses is passed over whole, unless it ends the buffer:
      then it is kept, as its end may have matched by chance. */
  lemma RefusedSkipped(b: seq<byte>, e: nat, accepts: Oracle)
    requires FrameHeader(b).Valid? && 2 <= e <= |b| && !accepts(b[..e])
    requires EndsAt(b, FrameHeader(b).len, e - 2)
    requires forall i :: 0 <= i < e - 2 ==> !EndsAt(b, FrameHeader(b).len, i)
    ensures Drain(b, accepts) == if e < |b| then Drain(b[e..], accepts) else ([], b)
  {
    hide FrameHeader, EndsAt, Drain;
    var h := FrameHeader(b).len;
    FrameEndSkip(b, h, 0, e - 2);
    DrainSelf(b, accepts);
    if e == |b| { DrainStop(b, accepts); } else { SkipFrame(b, h, accepts); }
  }

  lemma NothingUndecided()
    ensures FrameHeader([]).Incomplete?
  {
  }

  /** A decoder that is fed something else than the start of a stream, or a header
      its codec refuses, forgets it and is as good as new. */
  lemma StartsOver(data: seq<byte>, opens: Oracle, accepts: Oracle)
    requires |data| >= 4
    requires data[..4] != [0x66, 0x4C, 0x61, 0x43] ||
             (StreamHeaderLen(data, 4).Some? && !opens(data[..StreamHeaderLen(data, 4).value]))
    ensures Feed(State([], false), data, opens, accepts) == (State([], false), [])
  {
    hide Drain;
    assert [] + data == data;
  }

  lemma HeaderWithin(f: seq<byte>, n: nat)
    requires FrameHeader(f).Valid? && FrameHeader(f).len <= n <= |f|
    ensures FrameHeader(f[..n]) == FrameHeader(f)
  {
    hide Crc8, CodedLen, ExtraLen, Continuation, SyncOk, ReservedFields;
    var crcAt := FrameHeader(f).len - 1;
    assert f[..n][..crcAt] == f[..crcAt];
  }

  lemma LoneSync(accepts: Oracle)
    ensures FrameHeader([0xFF]).Incomplete? && Drain([0xFF], accepts) == ([], [0xFF])
  {
    assert [0xFF as byte][0..] == [0xFF];
  }

  // ----- Chunk invariance -----

  /** A nonempty beginning of a sequence of frames never looks invalid. */
  lemma {:induction false} FramesStart(fs: seq<seq<byte>>, k: nat, accepts: Oracle)
    requires GoodFrames(fs, accepts) && 0 < k <= |Concat(fs)|
    ensures !FrameHeader(Concat(fs)[..k]).Invalid?
  {
    hide FrameHeader, GoodFrame;
    ConcatFront(fs);
    var f, rest := fs[0], Concat(fs[1..]);
    FrameFacts(f, accepts);
    if k <= |f| {
      HeaderPrefix(f, k);
      assert Concat(fs)[..k] == f[..k];
    } else {
      HeaderStable(f, rest[..k - |f|]);
      assert Concat(fs)[..k] == f + rest[..k - |f|];
    }
  }

  lemma FrameFacts(f: seq<byte>, accepts: Oracle)
    requires GoodFrame(f, accepts)
    ensures FrameHeader(f).Valid? && 3 <= |f|
  {
  }

  /** Draining the first `k` bytes of a sequence of frames yields exactly the
      frames that lie whole within them, and keeps the rest. */
  lemma {:induction false} DrainFrameBytes(fs: seq<seq<byte>>, k: nat, accepts: Oracle) returns (j: nat)
    requires GoodFrames(fs, accepts) && k <= |Concat(fs)|
    ensures j <= |fs| && |Concat(fs[..j])| <= k
    ensures j < |fs| ==> k < |Concat(fs[..j])| + |fs[j]|
    ensures Drain(Concat(fs)[..k], accepts) == (fs[..j], Concat(fs)[|Concat(fs[..j])|..k])
    decreases |fs|
  {
    hide FrameHeader, GoodFrame, Drain;
    if fs == [] {
      j := 0;
      DrainEmpty(accepts);
    } else {
      ConcatFront(fs);
      var f, tail := fs[0], fs[1..];
      var s := Concat(fs);
      if k < |f| {
        j := 0;
        PartialFrame(f, k, accepts);
        assert s[..k] == f[..k];
      } else {
        var j' := DrainFrameBytes(tail, k - |f|, accepts);
        j := j' + 1;
        var rest := Concat(tail)[..k - |f|];
        if rest != [] { FramesStart(tail, k - |f|, accepts); }
        WholeFrame(f, rest, accepts);
        FirstFrame(fs, k, j');
      }
    }
  }

  /** Positions in a sequence of frames and in what follows its first one. */
  lemma FirstFrame(fs: seq<seq<byte>>, k: nat, j: nat)
    requires fs != [] && |fs[0]| <= k <= |Concat(fs)| && j < |fs|
    ensures var f, tail := fs[0], fs[1..];
            var d := |Concat(tail[..j])|;
            && |Concat(fs)| == |f| + |Concat(tail)|
            && Concat(fs)[..k] == f + Concat(tail)[..k - |f|]
            && fs[..j + 1] == [f] + tail[..j]
            && |Concat(fs[..j + 1])| == |f| + d
            && (d <= k - |f| ==> Concat(fs)[|f| + d..k] == Concat(tail)[d..k - |f|])
  {
    hide Concat;
    ConcatFront(fs);
    ConcatFront(fs[..j + 1]);
    assert fs[..j + 1][1..] == fs[1..][..j];
    FrontSlices(fs[0], Concat(fs[1..]), |Concat(fs[1..][..j])|, k);
  }

  lemma FrontSlices(a: seq<byte>, b: seq<byte>, d: nat, k: nat)
    requires |a| <= k <= |a + b|
    ensures (a + b)[..k] == a + b[..k - |a|]
    ensures d <= k - |a| ==> (a + b)[|a| + d..k] == b[d..k - |a|]
  {
  }

  lemma DrainEmpty(accepts: Oracle)
    ensures Drain([], accepts) == ([], [])
  {
  }

  function FeedAll(s: State, chunks: seq<seq<byte>>, opens: Oracle, accepts: Oracle): (State, seq<seq<byte>>) {
    if chunks == [] then (s, [])
    else
      var (mid, out) := FeedAll(s, chunks[..|chunks| - 1], opens, accepts);
      var (next, more) := Feed(mid, chunks[|chunks| - 1], opens, accepts);
      (next, out + more)
  }

  /** What the decoder has done after the first `t` bytes of a stream, `j` frames
      being whole within them: those frames are out, everything after is held. */
  ghost predicate InStep(r: (State, seq<seq<byte>>), head: seq<byte>, fs: seq<seq<byte>>, t: nat, j: nat)
    requires t <= |head| + |Concat(fs)|
  {
    if t < |head| then
      j == 0 && r == (State(head[..t], false), [])
    else
      && j <= |fs| && |head| + |Concat(fs[..j])| <= t
      && (j < |fs| ==> t < |head| + |Concat(fs[..j])| + |fs[j]|)
      && r == (State((head + Concat(fs))[|head| + |Concat(fs[..j])|..t], true), fs[..j])
  }

  /** Chunk invariance: however a stream header followed by good frames is cut
      into chunks, the decoder is always in step with the bytes received. */
  lemma {:induction false} ChunkInvariant(head: seq<byte>, fs: seq<seq<byte>>, chunks: seq<seq<byte>>,
                                          opens: Oracle, accepts: Oracle) returns (j: nat)
    requires GoodHeader(head, opens) && GoodFrames(fs, accepts)
    requires Concat(chunks) <= head + Concat(fs)
    ensures InStep(FeedAll(State([], false), chunks, opens, accepts), head, fs, |Concat(chunks)|, j)
    decreases |chunks|
  {
    hide Feed, GoodFrame, GoodHeader;
    if chunks == [] {
      j := 0;
      assert |head| >= 4 by { HeaderSize(head, opens); }
      assert head[..0] == [];
    } else {
      var n := |chunks| - 1;
      var before, data := Concat(chunks[..n]), chunks[n];
      assert before <= head + Concat(fs);
      var j0 := ChunkInvariant(head, fs, chunks[..n], opens, accepts);
      var (mid, out) := FeedAll(State([], false), chunks[..n], opens, accepts);
      var t := |before| + |data|;
      assert data == (head + Concat(fs))[|before|..t];
      var next, more;
      if |before| < |head| {
        j, next, more := FeedHeader(head, fs, |before|, t, opens, accepts);
        assert out == [] && [] + more == more;
      } else {
        j, next, more := FeedFrames(head, fs, |before|, t, j0, opens, accepts);
      }
      assert Feed(mid, data, opens, accepts) == (next, more);
      assert |Concat(chunks)| == t;
    }
  }

  lemma HeaderSize(head: seq<byte>, opens: Oracle)
    requires GoodHeader(head, opens)
    ensures |head| >= 4
  {
  }

  /** The chunk that may complete the stream header. */
  lemma {:induction false} FeedHeader(head: seq<byte>, fs: seq<seq<byte>>, t0: nat, t: nat, opens: Oracle, accepts: Oracle)
      returns (j: nat, next: State, more: seq<seq<byte>>)
    requires GoodHeader(head, opens) && GoodFrames(fs, accepts)
    requires t0 < |head| && t0 <= t <= |head| + |Concat(fs)|
    ensures Feed(State(head[..t0], false), (head + Concat(fs))[t0..t], opens, accepts) == (next, more)
    ensures InStep((next, more), head, fs, t, j)
  {
    hide GoodFrame, Drain;
    var s := head + Concat(fs);
    var buf := s[..t];
    assert head[..t0] + s[t0..t] == buf;
    if t < |head| {
      assert buf == head[..t];
      StreamHeaderPrefix(head, t);
      if t >= 4 { assert buf[..4] == head[..4]; }
      j, next, more := 0, State(buf, false), [];
    } else {
      var k := t - |head|;
      assert buf == head + Concat(fs)[..k];
      StreamHeaderStable(head, Concat(fs)[..k], 4);
      assert buf[..4] == head[..4] && buf[..|head|] == head && buf[|head|..] == Concat(fs)[..k];
      j := DrainFrameBytes(fs, k, accepts);
      var d := |Concat(fs[..j])|;
      next, more := State(Concat(fs)[d..k], true), fs[..j];
      assert s[|head| + d..t] == Concat(fs)[d..k];
    }
  }

  /** A chunk once the header is past. */
  lemma {:induction false} FeedFrames(head: seq<byte>, fs: seq<seq<byte>>, t0: nat, t: nat, j0: nat, opens: Oracle, accepts: Oracle)
      returns (j: nat, next: State, more: seq<seq<byte>>)
    requires GoodFrames(fs, accepts)
    requires |head| <= t0 <= t <= |head| + |Concat(fs)|
    requires j0 <= |fs| && |head| + |Concat(fs[..j0])| <= t0
    ensures var d := |head| + |Concat(fs[..j0])|;
            Feed(State((head + Concat(fs))[d..t0], true), (head + Concat(fs))[t0..t], opens, accepts) == (next, more)
    ensures InStep((next, fs[..j0] + more), head, fs, t, j)
  {
    hide GoodFrame, Drain;
    var d, tail := |Concat(fs[..j0])|, fs[j0..];
    var k := t - |head| - d;
    TailBytes(head, fs, j0);
    TailSlice(head, fs, j0, t0, t);
    var j' := DrainFrameBytes(tail, k, accepts);
    j := j0 + j';
    TailPrefix(fs, j0, j');
    var d' := |Concat(tail[..j'])|;
    next, more := State(Concat(tail)[d'..k], true), tail[..j'];
    TailSlice(head, fs, j0, |head| + d + d', t);
  }

  lemma TailBytes(head: seq<byte>, fs: seq<seq<byte>>, j: nat)
    requires j <= |fs|
    ensures head + Concat(fs) == head + Concat(fs[..j]) + Concat(fs[j..])
  {
    hide Concat;
    ConcatPlus(fs[..j], fs[j..]);
    assert fs == fs[..j] + fs[j..];
    Assoc(head, Concat(fs[..j]), Concat(fs[j..]));
  }

  lemma Assoc(a: seq<byte>, b: seq<byte>, c: seq<byte>)
    ensures a + (b + c) == a + b + c
  {
  }

  /** Positions in the stream and in what is left of it after `j` frames. */
  lemma TailSlice(head: seq<byte>, fs: seq<seq<byte>>, j: nat, t0: nat, t: nat)
    requires j <= |fs| && |head| + |Concat(fs[..j])| <= t0 <= t <= |head| + |Concat(fs)|
    ensures var d := |head| + |Concat(fs[..j])|;
            && t - d <= |Concat(fs[j..])|
            && (head + Concat(fs))[t0..t] == Concat(fs[j..])[t0 - d..t - d]
            && (head + Concat(fs))[d..t0] + (head + Concat(fs))[t0..t] == Concat(fs[j..])[..t - d]
  {
    hide Concat;
    TailBytes(head, fs, j);
    SliceAfter(head + Concat(fs[..j]), Concat(fs[j..]), t0, t);
  }

  lemma SliceAfter(a: seq<byte>, b: seq<byte>, t0: nat, t: nat)
    requires |a| <= t0 <= t <= |a + b|
    ensures (a + b)[t0..t] == b[t0 - |a|..t - |a|]
    ensures (a + b)[|a|..t0] + (a + b)[t0..t] == b[..t - |a|]
  {
  }

  lemma TailPrefix(fs: seq<seq<byte>>, j: nat, n: nat)
    requires j <= |fs| && n <= |fs| - j
    ensures fs[..j + n] == fs[..j] + fs[j..][..n]
    ensures |Concat(fs[..j + n])| == |Concat(fs[..j])| + |Concat(fs[j..][..n])|
  {
    ConcatPlus(fs[..j], fs[j..][..n]);
    assert fs[..j + n] == fs[..j] + fs[j..][..n];
  }

  /** Every way of chunking a whole stream hands over the same frames. */
  lemma EveryChunking(head: seq<byte>, fs: seq<seq<byte>>, chunks: seq<seq<byte>>, opens: Oracle, accepts: Oracle)
    requires GoodHeader(head, opens) && GoodFrames(fs, accepts)
    requires Concat(chunks) == head + Concat(fs)
    ensures FeedAll(State([], false), chunks, opens, accepts) == (State([], true), fs)
  {
    hide GoodFrame, Feed, GoodFrames, GoodHeader, FeedAll;
    var j := ChunkInvariant(head, fs, chunks, opens, accepts);
    TailBytes(head, fs, j);
    if j < |fs| {
      ConcatFront(fs[j..]);
      assert false;
    }
    assert fs[..j] == fs;
  }
}
