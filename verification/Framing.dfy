/** Length-prefixed framing of control messages. Bytes are numbers here. JSON is an oracle: `parse`
    decodes a payload or refuses it. */
module Framing {
  import opened Bytes

  const MAX_FRAME_SIZE: nat := 16 * 1024 * 1024

  function Be32(a: u8, b: u8, c: u8, d: u8): nat {
    a * 0x100_0000 + b * 0x1_0000 + c * 0x100 + d
  }

  function ToBe32(n: nat): (r: seq<u8>)
    requires n < 0x1_0000_0000
    ensures |r| == 4
  {
    [n / 0x100_0000, n / 0x1_0000 % 0x100, n / 0x100 % 0x100, n % 0x100]
  }

  lemma Be32RoundTrip(n: nat)
    requires n < 0x1_0000_0000
    ensures var r := ToBe32(n); Be32(r[0], r[1], r[2], r[3]) == n
  {
    assert n / 0x1_0000 == n / 0x100 / 0x100 && n / 0x100_0000 == n / 0x1_0000 / 0x100;
  }

  /** The prefix is the big-endian numeral of the length, most significant digit first. */
  lemma Be32Horner(a: u8, b: u8, c: u8, d: u8)
    ensures Be32(a, b, c, d) == ((a * 256 + b) * 256 + c) * 256 + d
    ensures ToBe32(Be32(a, b, c, d)) == [a, b, c, d]
  {
    var n := ((a * 256 + b) * 256 + c) * 256 + d;
    assert n / 0x100 == (a * 256 + b) * 256 + c && n % 0x100 == d;
    assert n / 0x1_0000 == a * 256 + b && n / 0x100_0000 == a;
  }

  type Parser<!M> = seq<u8> -> Option<M>

  /** What one call of `decode_next` returns. */
  datatype Decoded<M> = Nothing | Message(message: M) | TooLarge(len: nat) | Malformed

  function DecodeNext<M>(buf: seq<u8>, parse: Parser<M>): (r: (Decoded<M>, seq<u8>))
    ensures r.0.Message? || r.0.Malformed? ==> |r.1| < |buf|
    ensures r.0.Nothing? || r.0.TooLarge? ==> r.1 == buf
  {
    if |buf| < 4 then (Nothing, buf)
    else
      var len := Be32(buf[0], buf[1], buf[2], buf[3]);
      if len > MAX_FRAME_SIZE then (TooLarge(len), buf)
      else if |buf| < 4 + len then (Nothing, buf)
      else
        var rest := buf[4 + len..];
        match parse(buf[4..4 + len])
        case Some(m) => (Message(m), rest)
        case None => (Malformed, rest)
  }

  /** What one decode answers, exactly, for a prefix that announces `n` bytes. */
  lemma DecodesExactly<M>(n: nat, body: seq<u8>, parse: Parser<M>)
    requires n < 0x1_0000_0000
    ensures DecodeNext(ToBe32(n) + body, parse) ==
            if n > 16777216 then (TooLarge(n), ToBe32(n) + body)
            else if |body| < n then (Nothing, ToBe32(n) + body)
            else if parse(body[..n]).Some? then (Message(parse(body[..n]).value), body[n..])
            else (Malformed, body[n..])
  {
    hide Be32, ToBe32;
    Be32RoundTrip(n);
    var buf := ToBe32(n) + body;
    if |body| >= n { assert buf[4..4 + n] == body[..n] && buf[4 + n..] == body[n..]; }
  }

  /** Messages decoded until the buffer runs out or an error ends the session. */
  datatype Drained<M> = Drained(messages: seq<M>, rest: seq<u8>, error: Option<Decoded<M>>)

  function Drain<M>(buf: seq<u8>, parse: Parser<M>): Drained<M>
    decreases |buf|
  {
    var (d, rest) := DecodeNext(buf, parse);
    match d
    case Nothing => Drained([], rest, None)
    case Message(m) =>
      var more := Drain(rest, parse);
      more.(messages := [m] + more.messages)
    case TooLarge(_) => Drained([], rest, Some(d))
    case Malformed => Drained([], rest, Some(d))
  }

  class FrameCodec<M> {
    var buf: seq<u8>
    const parse: Parser<M>

    constructor (parse: Parser<M>)
      ensures buf == [] && this.parse == parse
    {
      buf := [];
      this.parse := parse;
    }

    method Feed(data: seq<u8>)
      modifies this
      ensures buf == old(buf) + data
    {
      buf := buf + data;
    }

    method Next() returns (d: Decoded<M>)
      modifies this
      ensures (d, buf) == DecodeNext(old(buf), parse)
    {
      if |buf| < 4 { return Nothing; }
      var len := Be32(buf[0], buf[1], buf[2], buf[3]);
      if len > MAX_FRAME_SIZE { return TooLarge(len); }
      if |buf| < 4 + len { return Nothing; }
      ghost var whole := buf;
      assert whole[4..][..len] == whole[4..4 + len] && whole[4..][len..] == whole[4 + len..];
      buf := buf[4..];
      var json := buf[..len];
      buf := buf[len..];
      var m := parse(json);
      match m {
        case Some(v) => d := Message(v);
        case None => d := Malformed;
      }
    }

    /** The session's receive loop: decode until nothing is left or an error. */
    method DrainAll() returns (messages: seq<M>, error: Option<Decoded<M>>)
      modifies this
      ensures Drained(messages, buf, error) == Drain(old(buf), parse)
    {
      hide DecodeNext;
      messages, error := [], None;
      ghost var goal := Drain(buf, parse);
      assert [] + goal.messages == goal.messages;
      while true
        invariant Drain(buf, parse).(messages := messages + Drain(buf, parse).messages) == goal
        decreases |buf|
      {
        ghost var before := Drain(buf, parse);
        var d := Next();
        match d {
          case Nothing => assert messages + [] == messages; return;
          case Message(m) =>
            assert messages + ([m] + Drain(buf, parse).messages) == (messages + [m]) + Drain(buf, parse).messages;
            messages := messages + [m];
          case TooLarge(_) => assert messages + [] == messages; error := Some(d); return;
          case Malformed => assert messages + [] == messages; error := Some(d); return;
        }
      }
    }
  }

  // ----- Chunking -----

  /** More bytes never change a message or an error already decided. */
  lemma NextStable<M>(buf: seq<u8>, more: seq<u8>, parse: Parser<M>)
    requires !DecodeNext(buf, parse).0.Nothing?
    ensures DecodeNext(buf + more, parse) == (DecodeNext(buf, parse).0, DecodeNext(buf, parse).1 + more)
  {
    hide Be32;
    var all := buf + more;
    var len := Be32(buf[0], buf[1], buf[2], buf[3]);
    assert all[0] == buf[0] && all[1] == buf[1] && all[2] == buf[2] && all[3] == buf[3];
    if len <= MAX_FRAME_SIZE {
      assert all[4..4 + len] == buf[4..4 + len] && all[4 + len..] == buf[4 + len..] + more;
    }
  }

  /** Draining what is there first, then the rest, is draining it all at once. */
  lemma {:induction false} DrainExtend<M>(a: seq<u8>, b: seq<u8>, parse: Parser<M>)
    ensures var da, all := Drain(a, parse), Drain(a + b, parse);
            if da.error.Some? then
              all.messages == da.messages && all.error == da.error
            else
              var db := Drain(da.rest + b, parse);
              all == db.(messages := da.messages + db.messages)
    decreases |a|
  {
    hide DecodeNext, Drain;
    var (d, rest) := DecodeNext(a, parse);
    DrainUnfolds(a, parse);
    DrainUnfolds(a + b, parse);
    if d.Nothing? {
      var all := Drain(a + b, parse).messages;
      assert [] + all == all;
    } else {
      NextStable(a, b, parse);
      if d.Message? {
        DrainExtend(rest, b, parse);
        var dr := Drain(rest, parse);
        if dr.error.None? { Regroup(d.message, dr.messages, Drain(dr.rest + b, parse).messages); }
      }
    }
  }

  lemma DrainUnfolds<M>(buf: seq<u8>, parse: Parser<M>)
    ensures var (d, rest) := DecodeNext(buf, parse);
            Drain(buf, parse) ==
            match d
            case Nothing => Drained([], rest, None)
            case Message(m) => Drain(rest, parse).(messages := [m] + Drain(rest, parse).messages)
            case _ => Drained([], rest, Some(d))
  {
    hide DecodeNext;
  }

  lemma Regroup<M>(m: M, a: seq<M>, b: seq<M>)
    ensures [m] + (a + b) == ([m] + a) + b
  {
  }

  /** A session: each chunk is fed and drained; an error ends it. */
  function Session<M>(chunks: seq<seq<u8>>, parse: Parser<M>): Drained<M> {
    if chunks == [] then Drained([], [], None)
    else
      var s := Session(chunks[..|chunks| - 1], parse);
      if s.error.Some? then s
      else
        var d := Drain(s.rest + chunks[|chunks| - 1], parse);
        d.(messages := s.messages + d.messages)
  }

  /** Chunk invariance for every byte stream, well formed or not: a session
      yields the messages and the error of the whole stream drained at once,
      and holds exactly the bytes not yet delivered. */
  lemma {:induction false} ChunkInvariant<M>(chunks: seq<seq<u8>>, parse: Parser<M>)
    ensures var s, all := Session(chunks, parse), Drain(Concat(chunks), parse);
            && s.messages == all.messages && s.error == all.error
            && (s.error.None? ==> s.rest == all.rest)
    decreases |chunks|
  {
    hide Drain, DecodeNext;
    if chunks == [] {
      DrainNothing(parse);
    } else {
      var front := chunks[..|chunks| - 1];
      ChunkInvariant(front, parse);
      DrainExtend(Concat(front), chunks[|chunks| - 1], parse);
    }
  }

  lemma DrainNothing<M>(parse: Parser<M>)
    ensures Drain([], parse) == Drained([], [], None)
  {
  }

  // ----- Well-formed streams -----

  function Frame(payload: seq<u8>): (r: seq<u8>)
    requires |payload| <= MAX_FRAME_SIZE
    ensures |r| == 4 + |payload|
  {
    ToBe32(|payload|) + payload
  }

  function EncodeAll<M>(ms: seq<M>, encode: M -> seq<u8>): seq<u8>
    requires forall k :: 0 <= k < |ms| ==> |encode(ms[k])| <= MAX_FRAME_SIZE
  {
    if ms == [] then [] else Frame(encode(ms[0])) + EncodeAll(ms[1..], encode)
  }

  /** Messages small enough to send, whose encoding the parser inverts. */
  ghost predicate Sendable<M>(ms: seq<M>, encode: M -> seq<u8>, parse: Parser<M>) {
    forall k :: 0 <= k < |ms| ==> |encode(ms[k])| <= MAX_FRAME_SIZE && parse(encode(ms[k])) == Some(ms[k])
  }

  lemma FrameDecodes<M>(payload: seq<u8>, more: seq<u8>, m: M, parse: Parser<M>)
    requires |payload| <= MAX_FRAME_SIZE && parse(payload) == Some(m)
    ensures DecodeNext(Frame(payload) + more, parse) == (Message(m), more)
  {
    hide Be32, ToBe32;
    Be32RoundTrip(|payload|);
    var buf := Frame(payload) + more;
    assert buf[4..4 + |payload|] == payload && buf[4 + |payload|..] == more;
  }

  lemma FrameCut<M>(payload: seq<u8>, k: nat, parse: Parser<M>)
    requires |payload| <= MAX_FRAME_SIZE && k < 4 + |payload|
    ensures DecodeNext(Frame(payload)[..k], parse) == (Nothing, Frame(payload)[..k])
  {
    hide Be32, ToBe32;
    Be32RoundTrip(|payload|);
  }

  /** The first `k` bytes of an encoded list decode to exactly the messages whole
      within them; what stays in the buffer is the undelivered beginning of the next. */
  lemma {:induction false} PrefixDecodes<M>(ms: seq<M>, k: nat, encode: M -> seq<u8>, parse: Parser<M>) returns (j: nat)
    requires Sendable(ms, encode, parse) && k <= |EncodeAll(ms, encode)|
    ensures j <= |ms| && |EncodeAll(ms[..j], encode)| <= k
    ensures j < |ms| ==> k < |EncodeAll(ms[..j], encode)| + 4 + |encode(ms[j])|
    ensures Drain(EncodeAll(ms, encode)[..k], parse) ==
            Drained(ms[..j], EncodeAll(ms, encode)[|EncodeAll(ms[..j], encode)|..k], None)
    decreases |ms|
  {
    hide DecodeNext, Frame;
    if ms == [] {
      j := 0;
      DrainNothing(parse);
    } else {
      var f, tail := Frame(encode(ms[0])), ms[1..];
      var s := EncodeAll(ms, encode);
      if k < |f| {
        j := 0;
        FrameCut(encode(ms[0]), k, parse);
        assert s[..k] == f[..k];
      } else {
        var j' := PrefixDecodes(tail, k - |f|, encode, parse);
        j := j' + 1;
        var rest := EncodeAll(tail, encode)[..k - |f|];
        FrameDecodes(encode(ms[0]), rest, ms[0], parse);
        assert s[..k] == f + rest;
        assert ms[..j][1..] == tail[..j'] && ms[..j] == [ms[0]] + tail[..j'];
        var d := |EncodeAll(tail[..j'], encode)|;
        assert s[|f| + d..k] == EncodeAll(tail, encode)[d..k - |f|];
      }
    }
  }

  /** Every way of splitting the encoding of a list of messages delivers that list, in order. */
  lemma EverySplit<M>(ms: seq<M>, chunks: seq<seq<u8>>, encode: M -> seq<u8>, parse: Parser<M>)
    requires Sendable(ms, encode, parse) && Concat(chunks) == EncodeAll(ms, encode)
    ensures Session(chunks, parse) == Drained(ms, [], None)
  {
    hide Drain, EncodeAll;
    ChunkInvariant(chunks, parse);
    var s := EncodeAll(ms, encode);
    var j := PrefixDecodes(ms, |s|, encode, parse);
    assert s[..|s|] == s;
    if j < |ms| {
      TailLonger(ms, j, encode);
      assert false;
    }
    assert ms[..j] == ms;
  }

  lemma {:induction false} TailLonger<M>(ms: seq<M>, j: nat, encode: M -> seq<u8>)
    requires j < |ms| && forall k :: 0 <= k < |ms| ==> |encode(ms[k])| <= MAX_FRAME_SIZE
    ensures |EncodeAll(ms, encode)| >= |EncodeAll(ms[..j], encode)| + 4 + |encode(ms[j])|
  {
    if j > 0 {
      TailLonger(ms[1..], j - 1, encode);
      assert ms[..j][1..] == ms[1..][..j - 1];
    }
  }
}
