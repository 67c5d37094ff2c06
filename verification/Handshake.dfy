/** The two phases of a control session: until Hello, one message is decoded per
    read; after it, every whole message. */
module Handshake {
  import opened Bytes
  import opened Framing

  /** What came of the bytes so far: messages thrown away while waiting, the
      Hello, and the messages handled after it. */
  datatype Session<M> = Session(dropped: seq<M>, hello: Option<M>, handled: seq<M>, rest: seq<u8>, error: Option<Decoded<M>>)

  /** All messages decoded, in order. */
  function Taken<M>(s: Session<M>): seq<M> {
    s.dropped + (if s.hello.Some? then [s.hello.value] else []) + s.handled
  }

  /** One read. */
  function OnRead<M>(s: Session<M>, chunk: seq<u8>, parse: Parser<M>, isHello: M -> bool): Session<M> {
    if s.error.Some? then s
    else if s.hello.Some? then
      var d := Drain(s.rest + chunk, parse);
      s.(handled := s.handled + d.messages, rest := d.rest, error := d.error)
    else
      var (d, rest) := DecodeNext(s.rest + chunk, parse);
      match d
      case Nothing => s.(rest := rest)
      case Message(m) => if isHello(m) then s.(hello := Some(m), rest := rest) else s.(dropped := s.dropped + [m], rest := rest)
      case TooLarge(_) => s.(rest := rest, error := Some(d))
      case Malformed => s.(rest := rest, error := Some(d))
  }

  function Reads<M>(chunks: seq<seq<u8>>, parse: Parser<M>, isHello: M -> bool): Session<M> {
    if chunks == [] then Session([], None, [], [], None)
    else OnRead(Reads(chunks[..|chunks| - 1], parse, isHello), chunks[|chunks| - 1], parse, isHello)
  }

  /** The session itself, over everything it reads. */
  method Converse<M>(codec: FrameCodec<M>, chunks: seq<seq<u8>>, isHello: M -> bool) returns (s: Session<M>)
    requires codec.buf == []
    modifies codec
    ensures s == Reads(chunks, codec.parse, isHello) && codec.buf == s.rest
  {
    hide DecodeNext, Drain;
    s := Session([], None, [], [], None);
    for k := 0 to |chunks|
      invariant s == Reads(chunks[..k], codec.parse, isHello) && codec.buf == s.rest
    {
      assert chunks[..k + 1][..k] == chunks[..k];
      if s.error.None? {
        codec.Feed(chunks[k]);
        if s.hello.Some? {
          var messages, error := codec.DrainAll();
          s := s.(handled := s.handled + messages, rest := codec.buf, error := error);
        } else {
          var d := codec.Next();
          s := s.(rest := codec.buf);
          match d {
            case Nothing =>
            case Message(m) =>
              if isHello(m) {
                s := s.(hello := Some(m));
              } else {
                s := s.(dropped := s.dropped + [m]);
              }
            case TooLarge(_) => s := s.(error := Some(d));
            case Malformed => s := s.(error := Some(d));
          }
        }
      }
    }
    assert chunks[..|chunks|] == chunks;
  }

  /** Messages that are whole in the buffer but not decoded yet. */
  function Delayed<M>(s: Session<M>, parse: Parser<M>): seq<M> { Drain(s.rest, parse).messages }

  /** The session is in step with the bytes: what it decoded, and then what is
      delayed, are the messages of those bytes, and an error comes in its turn. */
  ghost predicate InStep<M>(s: Session<M>, all: Drained<M>, parse: Parser<M>) {
    if s.error.Some? then Taken(s) == all.messages && s.error == all.error
    else
      var d := Drain(s.rest, parse);
      && all.messages == Taken(s) + d.messages && all.error == d.error
      && (d.error.None? ==> all.rest == d.rest)
  }

  /** More bytes, not yet looked at. */
  lemma {:induction false} FeedInStep<M>(s: Session<M>, a: seq<u8>, chunk: seq<u8>, parse: Parser<M>)
    requires s.error.None? && InStep(s, Drain(a, parse), parse)
    ensures InStep(s.(rest := s.rest + chunk), Drain(a + chunk, parse), parse)
  {
    hide Drain;
    DrainExtend(a, chunk, parse);
    DrainExtend(s.rest, chunk, parse);
    var d := Drain(s.rest, parse);
    if d.error.None? {
      var more := Drain(d.rest + chunk, parse).messages;
      assert (Taken(s) + d.messages) + more == Taken(s) + (d.messages + more);
    }
  }

  /** Decoding one message, or all of them, keeps step. */
  lemma DecodeInStep<M>(s: Session<M>, buf: seq<u8>, all: Drained<M>, parse: Parser<M>, isHello: M -> bool)
    requires s.error.None? && InStep(s.(rest := buf), all, parse) && s.rest <= buf
    requires s.hello.None? ==> s.handled == []
    ensures InStep(OnRead(s, buf[|s.rest|..], parse, isHello), all, parse)
    ensures var r := OnRead(s, buf[|s.rest|..], parse, isHello); r.hello.None? ==> r.handled == []
  {
    hide DecodeNext, Drain, InStep;
    assert s.rest + buf[|s.rest|..] == buf;
    if s.hello.Some? {
      DrainInStep(s, buf, all, parse);
    } else {
      NextInStep(s, buf, all, parse, isHello);
    }
  }

  lemma DrainInStep<M>(s: Session<M>, buf: seq<u8>, all: Drained<M>, parse: Parser<M>)
    requires s.error.None? && InStep(s.(rest := buf), all, parse)
    ensures var d := Drain(buf, parse);
            InStep(s.(handled := s.handled + d.messages, rest := d.rest, error := d.error), all, parse)
  {
    hide Drain;
    var d := Drain(buf, parse);
    DrainAgain(buf, parse);
    var r := s.(handled := s.handled + d.messages, rest := d.rest, error := d.error);
    assert Taken(r) == Taken(s) + d.messages;
    assert Taken(r) + [] == Taken(r);
  }

  lemma NextInStep<M>(s: Session<M>, buf: seq<u8>, all: Drained<M>, parse: Parser<M>, isHello: M -> bool)
    requires s.error.None? && s.hello.None? && s.handled == [] && InStep(s.(rest := buf), all, parse)
    ensures var (d, rest) := DecodeNext(buf, parse);
            match d
            case Nothing => InStep(s.(rest := rest), all, parse)
            case Message(m) =>
              && InStep(s.(hello := Some(m), rest := rest), all, parse)
              && InStep(s.(dropped := s.dropped + [m], rest := rest), all, parse)
            case _ => InStep(s.(rest := rest, error := Some(d)), all, parse)
  {
    hide DecodeNext;
    var (next, rest) := DecodeNext(buf, parse);
    assert Taken(s) == s.dropped;
    match next
    case Message(m) =>
      var more := Drain(rest, parse).messages;
      assert s.dropped + ([m] + more) == (s.dropped + [m]) + more;
      assert Taken(s.(dropped := s.dropped + [m])) == s.dropped + [m];
      assert Taken(s.(hello := Some(m))) == s.dropped + [m];
    case _ =>
      assert s.dropped + [] == s.dropped;
  }

  /** After a drain without error nothing whole is left. */
  lemma {:induction false} DrainAgain<M>(buf: seq<u8>, parse: Parser<M>)
    ensures var d := Drain(buf, parse); d.error.None? ==> Drain(d.rest, parse) == Drained([], d.rest, None)
    decreases |buf|
  {
    var (next, rest) := DecodeNext(buf, parse);
    if next.Message? { DrainAgain(rest, parse); }
  }

  /** In every session, whatever the chunks: nothing is lost or reordered. What
      was decoded, and then exactly the messages delayed, are the messages of the
      bytes read; an error is reported when its turn comes. */
  lemma {:induction false} NothingLost<M>(chunks: seq<seq<u8>>, parse: Parser<M>, isHello: M -> bool)
    ensures var s := Reads(chunks, parse, isHello);
            InStep(s, Drain(Concat(chunks), parse), parse) && (s.hello.None? ==> s.handled == [])
    decreases |chunks|
  {
    hide InStep, DecodeNext, Drain;
    if chunks == [] {
      StartInStep<M>(parse);
    } else {
      var front, c := chunks[..|chunks| - 1], chunks[|chunks| - 1];
      NothingLost(front, parse, isHello);
      var s := Reads(front, parse, isHello);
      if s.error.Some? {
        ErrorInStep(s, Concat(front), c, parse);
      } else {
        FeedInStep(s, Concat(front), c, parse);
        assert (s.rest + c)[|s.rest|..] == c;
        DecodeInStep(s, s.rest + c, Drain(Concat(front) + c, parse), parse, isHello);
      }
    }
  }

  lemma StartInStep<M>(parse: Parser<M>)
    ensures InStep(Session([], None, [], [], None), Drain([], parse), parse)
  {
  }

  lemma ErrorInStep<M>(s: Session<M>, a: seq<u8>, chunk: seq<u8>, parse: Parser<M>)
    requires s.error.Some? && InStep(s, Drain(a, parse), parse)
    ensures InStep(s, Drain(a + chunk, parse), parse)
  {
    hide Drain;
    DrainExtend(a, chunk, parse);
  }

  /** Which messages are delayed, exactly: none once a read has followed the one
      that brought Hello. */
  lemma NoneDelayed<M>(chunks: seq<seq<u8>>, chunk: seq<u8>, parse: Parser<M>, isHello: M -> bool)
    requires var s := Reads(chunks, parse, isHello); s.hello.Some? && s.error.None?
    ensures var s := Reads(chunks + [chunk], parse, isHello);
            s.error.None? ==> Delayed(s, parse) == []
  {
    hide DecodeNext;
    assert (chunks + [chunk])[..|chunks|] == chunks;
    DrainAgain(Reads(chunks, parse, isHello).rest + chunk, parse);
  }

  /** And every one that shares with Hello the read that brings it, however many
      are whole by then: none of them is handled. */
  lemma DelayedWithHello<M>(chunks: seq<seq<u8>>, chunk: seq<u8>, parse: Parser<M>, isHello: M -> bool)
    requires var s := Reads(chunks, parse, isHello); s.hello.None? && s.error.None?
    requires Reads(chunks + [chunk], parse, isHello).hello.Some?
    ensures var s := Reads(chunks + [chunk], parse, isHello);
            && s.handled == []
            && s.dropped + [s.hello.value] + Delayed(s, parse) == Drain(Concat(chunks) + chunk, parse).messages
  {
    hide DecodeNext, Drain, Reads, Concat;
    var s := Reads(chunks + [chunk], parse, isHello);
    NothingLost(chunks, parse, isHello);
    NothingLost(chunks + [chunk], parse, isHello);
    ReadsSnoc(chunks, chunk, parse, isHello);
    assert s.dropped + [s.hello.value] + [] == s.dropped + [s.hello.value];
  }

  lemma ReadsSnoc<M>(chunks: seq<seq<u8>>, chunk: seq<u8>, parse: Parser<M>, isHello: M -> bool)
    ensures Reads(chunks + [chunk], parse, isHello) == OnRead(Reads(chunks, parse, isHello), chunk, parse, isHello)
    ensures Concat(chunks + [chunk]) == Concat(chunks) + chunk
  {
    hide OnRead;
    assert (chunks + [chunk])[..|chunks|] == chunks;
  }

  /** The phases change at the first Hello: what was decoded before it is not
      one, and what was taken for it is. */
  lemma {:induction false} HelloIsFirst<M>(chunks: seq<seq<u8>>, parse: Parser<M>, isHello: M -> bool)
    ensures var s := Reads(chunks, parse, isHello);
            && (s.hello.Some? ==> isHello(s.hello.value))
            && (forall i :: 0 <= i < |s.dropped| ==> !isHello(s.dropped[i]))
    decreases |chunks|
  {
    hide DecodeNext, Drain;
    if chunks != [] { HelloIsFirst(chunks[..|chunks| - 1], parse, isHello); }
  }
}
