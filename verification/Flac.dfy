/** The FLAC stream splitter: cuts frames out of arbitrarily chunked bytes. */
module Flac {
  import opened Bytes
  import opened Crc

  const MAX_FRAME_BYTES: nat := 4 * 1024 * 1024

  datatype Verdict = Valid(len: nat) | Incomplete | Invalid

  /** Length of the coded frame or sample number that starts with `b`; 0 if none does. */
  function CodedLen(b: byte): nat {
    if b <= 0x7F then 1
    else if b < 0xC0 then 0
    else if b <= 0xDF then 2
    else if b <= 0xEF then 3
    else if b <= 0xF7 then 4
    else if b <= 0xFB then 5
    else if b <= 0xFD then 6
    else if b == 0xFE then 7
    else 0
  }

  function ExtraLen(b2: byte): nat {
    (if b2 >> 4 == 6 then 1 else if b2 >> 4 == 7 then 2 else 0) +
    (if b2 & 0x0F == 12 then 1 else if b2 & 0x0F == 13 || b2 & 0x0F == 14 then 2 else 0)
  }

  predicate ReservedFields(b2: byte, b3: byte) {
    b2 >> 4 == 0 || b2 & 0x0F == 0x0F || b3 >> 4 > 10 || (b3 >> 1) & 0x07 == 3 || b3 & 1 != 0
  }

  predicate SyncOk(b1: byte) { b1 & 0xFE == 0xF8 }

  predicate Continuation(b: byte) { b & 0xC0 == 0x80 }

  /** A frame header at the start of `b` (section 9.1 of RFC 9639). */
  function FrameHeader(b: seq<byte>): Verdict {
    if b == [] then Incomplete
    else if b[0] != 0xFF then Invalid
    else if |b| < 2 then Incomplete
    else if !SyncOk(b[1]) then Invalid
    else if |b| < 5 then Incomplete
    else if ReservedFields(b[2], b[3]) || CodedLen(b[4]) == 0 then Invalid
    else if exists i :: 5 <= i < |b| && i < 4 + CodedLen(b[4]) && !Continuation(b[i]) then Invalid
    else
      var crcAt := 4 + CodedLen(b[4]) + ExtraLen(b[2]);
      if |b| <= crcAt then Incomplete
      else if Crc8(b[..crcAt]) == b[crcAt] then Valid(crcAt + 1)
      else Invalid
  }

  method ParseFrameHeader(b: seq<byte>) returns (v: Verdict)
    ensures v == FrameHeader(b)
  {
    if b == [] { return Incomplete; }
    if b[0] != 0xFF { return Invalid; }
    if |b| < 2 { return Incomplete; }
    if !SyncOk(b[1]) { return Invalid; }
    if |b| < 5 { return Incomplete; }
    if ReservedFields(b[2], b[3]) { return Invalid; }
    var codedLen := CodedLen(b[4]);
    if codedLen == 0 { return Invalid; }
    var crcAt := 4 + codedLen + ExtraLen(b[2]);
    var i := 5;
    while i < crcAt && i < |b|
      invariant 5 <= i
      invariant forall k :: 5 <= k < i && k < |b| && k < 4 + codedLen ==> Continuation(b[k])
    {
      if i < 4 + codedLen && !Continuation(b[i]) { return Invalid; }
      i := i + 1;
    }
    if |b| <= crcAt { return Incomplete; }
    var crc := ComputeCrc8(b[..crcAt]);
    v := if crc == b[crcAt] then Valid(crcAt + 1) else Invalid;
  }

  /** A verdict once reached is final: more bytes never change Valid or Invalid. */
  lemma HeaderStable(b: seq<byte>, more: seq<byte>)
    requires !FrameHeader(b).Incomplete?
    ensures FrameHeader(b + more) == FrameHeader(b)
  {
    hide SyncOk, ReservedFields, CodedLen, ExtraLen, Continuation, Crc8;
    var c := b + more;
    assert forall i :: 0 <= i < |b| ==> c[i] == b[i];
    if FrameHeader(b).Valid? {
      var crcAt := 4 + CodedLen(b[4]) + ExtraLen(b[2]);
      assert c[..crcAt] == b[..crcAt];
    } else if |b| >= 5 && b[0] == 0xFF && SyncOk(b[1]) && !ReservedFields(b[2], b[3]) && CodedLen(b[4]) != 0 {
      InvalidStable(b, more);
    }
  }

  lemma InvalidStable(b: seq<byte>, more: seq<byte>)
    requires FrameHeader(b).Invalid? && |b| >= 5 && b[0] == 0xFF && SyncOk(b[1])
    requires !ReservedFields(b[2], b[3]) && CodedLen(b[4]) != 0
    ensures FrameHeader(b + more).Invalid?
  {
    hide SyncOk, ReservedFields, CodedLen, ExtraLen, Continuation, Crc8;
    var c := b + more;
    assert forall i :: 0 <= i < |b| ==> c[i] == b[i];
    if exists i :: 5 <= i < |b| && i < 4 + CodedLen(b[4]) && !Continuation(b[i]) {
      var i :| 5 <= i < |b| && i < 4 + CodedLen(b[4]) && !Continuation(b[i]);
      assert c[i] == b[i];
    } else {
      var crcAt := 4 + CodedLen(b[4]) + ExtraLen(b[2]);
      assert c[..crcAt] == b[..crcAt] && c[crcAt] == b[crcAt];
    }
  }

  /** Cutting a valid header short leaves it undecided or valid, never invalid. */
  lemma HeaderPrefix(f: seq<byte>, k: nat)
    requires FrameHeader(f).Valid? && k <= |f|
    ensures FrameHeader(f[..k]).Incomplete? || FrameHeader(f[..k]) == FrameHeader(f)
  {
    hide FrameHeader;
    assert f == f[..k] + f[k..];
    if !FrameHeader(f[..k]).Incomplete? {
      HeaderStable(f[..k], f[k..]);
    }
  }

  // ----- Frame ends -----

  function Join(hi: bv16, lo: bv16): bv16 { (hi << 8) | lo }

  function Be16(hi: byte, lo: byte): bv16 { Join(hi as bv16, lo as bv16) }

  /** The running CRC matches the two bytes at `i`. */
  predicate FooterAt(f: seq<byte>, i: nat)
    requires i + 2 <= |f|
  {
    Crc16(f[..i]) == Be16(f[i], f[i + 1])
  }

  /** The frame that starts `f` can end after the two bytes at `i`. */
  predicate EndsAt(f: seq<byte>, headerLen: nat, i: nat)
    requires i + 2 <= |f|
  {
    i > headerLen && FooterAt(f, i) && (i + 2 == |f| || !FrameHeader(f[i + 2..]).Invalid?)
  }

  function FrameEnd(f: seq<byte>, headerLen: nat, i: nat): (r: Option<nat>)
    ensures r.Some? ==> i + 2 <= r.value <= |f| && r.value > headerLen + 2 && EndsAt(f, headerLen, r.value - 2)
    decreases |f| - i
  {
    if i + 2 > |f| then None
    else if EndsAt(f, headerLen, i) then Some(i + 2)
    else FrameEnd(f, headerLen, i + 1)
  }

  lemma {:induction false} FrameEndSkip(f: seq<byte>, headerLen: nat, i: nat, j: nat)
    requires i <= j
    requires forall k :: i <= k < j && k + 2 <= |f| ==> !EndsAt(f, headerLen, k)
    ensures FrameEnd(f, headerLen, i) == FrameEnd(f, headerLen, j)
    decreases j - i
  {
    hide EndsAt;
    if i < j { FrameEndSkip(f, headerLen, i + 1, j); }
  }

  /** The scanning loop, with the CRC kept up incrementally. */
  method FindFrameEnd(buf: seq<byte>, start: nat, headerLen: nat) returns (r: Option<nat>)
    requires start <= |buf|
    ensures var e := FrameEnd(buf[start..], headerLen, 0);
            r == if e.Some? then Some(start + e.value) else None
  {
    hide FrameHeader, Crc16Step, Be16;
    var crc := 0;
    ghost var f := buf[start..];
    var i := start;
    while i < |buf|
      invariant start <= i <= |buf|
      invariant crc == Crc16(f[..i - start])
      invariant FrameEnd(f, headerLen, 0) == FrameEnd(f, headerLen, i - start)
    {
      var end := i + 2;
      if end > |buf| { break; }
      if i > start + headerLen && crc == Be16(buf[i], buf[i + 1]) {
        assert f[end - start..] == buf[end..];
        var next := ParseFrameHeader(buf[end..]);
        if end == |buf| || !next.Invalid? {
          return Some(end);
        }
      }
      assert f[..i - start + 1][..i - start] == f[..i - start];
      crc := Crc16Update(crc, buf[i]);
      i := i + 1;
    }
    r := None;
  }

  // ----- Draining the buffer -----

  /** First position from `i` on where a header is, or could still become, valid. */
  function FindStart(buf: seq<byte>, i: nat): (r: nat)
    requires i <= |buf|
    ensures i <= r <= |buf|
    ensures r < |buf| ==> !FrameHeader(buf[r..]).Invalid?
    ensures forall k :: i <= k < r ==> FrameHeader(buf[k..]).Invalid?
    decreases |buf| - i
  {
    if i == |buf| || !FrameHeader(buf[i..]).Invalid? then i else FindStart(buf, i + 1)
  }

  /** The frames cut from `buf` and accepted by the codec, and the bytes kept. */
  function Drain(buf: seq<byte>, accepts: seq<byte> -> bool): (seq<seq<byte>>, seq<byte>)
    decreases |buf|
  {
    var start := FindStart(buf, 0);
    if start == |buf| then ([], [])
    else DrainAt(buf[start..], accepts)
  }

  function DrainAt(b: seq<byte>, accepts: seq<byte> -> bool): (seq<seq<byte>>, seq<byte>)
    requires b != [] && !FrameHeader(b).Invalid?
    decreases |b|, 0
  {
    match FrameHeader(b)
    case Incomplete => ([], b)
    case Valid(headerLen) =>
      match FrameEnd(b, headerLen, 0)
      case Some(end) =>
        if accepts(b[..end]) then
          var (frames, rest) := Drain(b[end..], accepts);
          ([b[..end]] + frames, rest)
        else if end == |b| then ([], b)
        else Drain(b[end..], accepts)
      case None =>
        if |b| > MAX_FRAME_BYTES then Drain(b[1..], accepts) else ([], b)
  }

  // ----- The stream header -----

  function Be24(a: byte, b: byte, c: byte): nat { (a as nat) * 0x1_0000 + (b as nat) * 0x100 + c as nat }

  /** End of the metadata block at `pos`, its last-block flag being in `buf[pos]`
      (section 8.1 of RFC 9639). */
  function StreamHeaderLen(buf: seq<byte>, pos: nat): (r: Option<nat>)
    ensures r.Some? ==> pos + 4 <= r.value <= |buf|
    decreases |buf| - pos
  {
    if |buf| < pos + 4 then None
    else
      var end := pos + 4 + Be24(buf[pos + 1], buf[pos + 2], buf[pos + 3]);
      if |buf| < end then None
      else if buf[pos] & 0x80 != 0 then Some(end)
      else StreamHeaderLen(buf, end)
  }

  method ScanStreamHeader(buf: seq<byte>) returns (r: Option<nat>)
    ensures r == StreamHeaderLen(buf, 4)
  {
    var pos := 4;
    while true
      invariant StreamHeaderLen(buf, 4) == StreamHeaderLen(buf, pos)
      decreases |buf| - pos
    {
      if |buf| < pos + 4 { return None; }
      var end := pos + 4 + Be24(buf[pos + 1], buf[pos + 2], buf[pos + 3]);
      if |buf| < end { return None; }
      if buf[pos] & 0x80 != 0 { return Some(end); }
      pos := end;
    }
  }

  lemma {:induction false} StreamHeaderStable(buf: seq<byte>, more: seq<byte>, pos: nat)
    requires StreamHeaderLen(buf, pos).Some?
    ensures StreamHeaderLen(buf + more, pos) == StreamHeaderLen(buf, pos)
    decreases |buf| - pos
  {
    hide Be24;
    var end := pos + 4 + Be24(buf[pos + 1], buf[pos + 2], buf[pos + 3]);
    if buf[pos] & 0x80 == 0 {
      StreamHeaderStable(buf, more, end);
    }
  }

  /** No proper prefix of a stream header looks complete. */
  lemma StreamHeaderPrefix(head: seq<byte>, k: nat)
    requires StreamHeaderLen(head, 4) == Some(|head|) && k < |head|
    ensures StreamHeaderLen(head[..k], 4).None?
  {
    assert head == head[..k] + head[k..];
    if StreamHeaderLen(head[..k], 4).Some? {
      StreamHeaderStable(head[..k], head[k..], 4);
      assert false;
    }
  }
}
