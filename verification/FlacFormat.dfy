/** What the splitter takes for headers is what RFC 9639 writes: encoders from
    fields, in plain arithmetic, and that the parsers accept exactly these. */
module FlacFormat {
  import opened Bytes
  import opened Crc
  import opened Flac
  import FlacStream

  /** Section 9.1.1: a listed size, or the size less one in one or two bytes after the number. */
  datatype BlockSize = Listed(code: nat) | OneByte(n: nat) | TwoBytes(n: nat)

  /** Section 9.1.2: a listed rate, or kHz, Hz or tens of Hz after the block size. */
  datatype Rate = Known(code: nat) | KiloHertz(n: nat) | Hertz(n: nat) | TensOfHertz(n: nat)

  /** The fields of a frame header. The number is coded in `numberLen` bytes. */
  datatype Fields = Fields(variable: bool, block: BlockSize, rate: Rate, channels: nat, depth: nat,
                           numberLen: nat, number: nat)

  /** Values a coded number of `len` bytes can have (section 9.1.5). */
  function Capacity(len: nat): nat {
    if len == 1 then 128
    else if len == 2 then 2048
    else if len == 3 then 65536
    else if len == 4 then 2097152
    else if len == 5 then 67108864
    else if len == 6 then 2147483648
    else if len == 7 then 68719476736
    else 0
  }

  ghost predicate Legal(h: Fields) {
    && (match h.block
        case Listed(c) => 1 <= c <= 15 && c != 6 && c != 7
        case OneByte(n) => n < 256
        case TwoBytes(n) => n < 65536)
    && (match h.rate
        case Known(c) => c <= 11
        case KiloHertz(n) => n < 256
        case Hertz(n) => n < 65536
        case TensOfHertz(n) => n < 65536)
    && h.channels <= 10
    && h.depth <= 7 && h.depth != 3
    && 1 <= h.numberLen <= 7 && h.number < Capacity(h.numberLen)
  }

  // ----- The encoder, in numbers -----

  function BlockCode(b: BlockSize): nat { match b case Listed(c) => c case OneByte(_) => 6 case TwoBytes(_) => 7 }

  function BlockTail(b: BlockSize): seq<nat> {
    match b case Listed(_) => [] case OneByte(n) => [n] case TwoBytes(n) => [n / 256, n % 256]
  }

  function RateCode(r: Rate): nat {
    match r case Known(c) => c case KiloHertz(_) => 12 case Hertz(_) => 13 case TensOfHertz(_) => 14
  }

  function RateTail(r: Rate): seq<nat> {
    match r
    case Known(_) => []
    case KiloHertz(n) => [n]
    case Hertz(n) => [n / 256, n % 256]
    case TensOfHertz(n) => [n / 256, n % 256]
  }

  /** The bits that say how many bytes a coded number takes. */
  function Lead(len: nat): nat {
    if len == 2 then 0xC0 else if len == 3 then 0xE0 else if len == 4 then 0xF0
    else if len == 5 then 0xF8 else if len == 6 then 0xFC else if len == 7 then 0xFE else 0
  }

  /** `v` without its last `count` digits to base 64. */
  function Top(count: nat, v: nat): nat { if count == 0 then v else Top(count - 1, v / 64) }

  /** Those digits, each in a continuation byte. */
  function Tail(count: nat, v: nat): (r: seq<nat>)
    ensures |r| == count
    ensures forall i :: 0 <= i < |r| ==> 128 <= r[i] < 192
  {
    if count == 0 then [] else Tail(count - 1, v / 64) + [128 + v % 64]
  }

  function Number(len: nat, v: nat): seq<nat>
    requires len >= 1
  {
    [Lead(len) + Top(len - 1, v)] + Tail(len - 1, v)
  }

  function Numbers(h: Fields): seq<nat>
    requires h.numberLen >= 1
  {
    [255, if h.variable then 249 else 248, 16 * BlockCode(h.block) + RateCode(h.rate), 16 * h.channels + 2 * h.depth] +
    Number(h.numberLen, h.number) + BlockTail(h.block) + RateTail(h.rate)
  }

  /** The byte of value `n`, counted up to. */
  function ByteOf(n: nat): byte
    requires n < 256
  {
    if n == 0 then 0 else ByteOf(n - 1) + 1
  }

  lemma NextByte(b: byte)
    requires b as nat < 255
    ensures (b + 1) as nat == b as nat + 1
  {
  }

  lemma {:induction false} ByteValue(n: nat)
    requires n < 256
    ensures ByteOf(n) as nat == n
  {
    if n > 0 {
      ByteValue(n - 1);
      NextByte(ByteOf(n - 1));
    }
  }

  function ToBytes(ns: seq<nat>): (r: seq<byte>)
    requires forall i :: 0 <= i < |ns| ==> ns[i] < 256
    ensures |r| == |ns|
    ensures forall i :: 0 <= i < |ns| ==> r[i] == ByteOf(ns[i])
  {
    seq(|ns|, i requires 0 <= i < |ns| => ByteOf(ns[i]))
  }

  lemma ToBytesValue(ns: seq<nat>)
    requires forall i :: 0 <= i < |ns| ==> ns[i] < 256
    ensures forall i :: 0 <= i < |ns| ==> ToBytes(ns)[i] as nat == ns[i]
  {
    hide ByteOf;
    forall i | 0 <= i < |ns| ensures ToBytes(ns)[i] as nat == ns[i] { ByteValue(ns[i]); }
  }

  // ----- Bytes by value -----

  lemma SameByte(a: byte, b: byte)
    requires a as nat == b as nat
    ensures a == b
  {
  }

  lemma SyncByValue(b: byte)
    ensures SyncOk(b) <==> b as nat == 248 || b as nat == 249
  {
  }

  lemma ContinuationByValue(b: byte)
    ensures Continuation(b) <==> 128 <= b as nat < 192
  {
  }

  lemma NibblesByValue(b: byte)
    ensures (b >> 4) as nat == b as nat / 16 && (b & 0x0F) as nat == b as nat % 16
  {
  }

  lemma DepthByValue(b: byte)
    ensures ((b >> 1) & 0x07) as nat == b as nat / 2 % 8 && (b & 1) as nat == b as nat % 2
  {
    var c := b >> 1;
    assert c as nat == b as nat / 2;
    LowThree(c);
    LowBit(b);
  }

  lemma LowThree(b: byte)
    ensures (b & 0x07) as nat == b as nat % 8
  {
  }

  lemma LowBit(b: byte)
    ensures (b & 1) as nat == b as nat % 2
  {
  }

  /** The reserved values, in numbers. */
  lemma ReservedByValue(b2: byte, b3: byte)
    ensures ReservedFields(b2, b3) <==>
            var x, y := b2 as nat, b3 as nat;
            x / 16 == 0 || x % 16 == 15 || y / 16 > 10 || y / 2 % 8 == 3 || y % 2 != 0
  {
    NibblesByValue(b2);
    NibblesByValue(b3);
    DepthByValue(b3);
  }

  function Extra(x: nat): nat {
    (if x / 16 == 6 then 1 else if x / 16 == 7 then 2 else 0) +
    (if x % 16 == 12 then 1 else if x % 16 == 13 || x % 16 == 14 then 2 else 0)
  }

  lemma ExtraByValue(b: byte)
    ensures ExtraLen(b) == Extra(b as nat)
  {
    NibblesByValue(b);
  }

  /** How many bytes a coded number takes, from its first one. */
  lemma CodedByValue(b: byte)
    ensures var n := b as nat;
            CodedLen(b) == if n < 128 then 1 else if n < 192 then 0 else if n < 224 then 2 else if n < 240 then 3
                           else if n < 248 then 4 else if n < 252 then 5 else if n < 254 then 6 else if n == 254 then 7 else 0
  {
  }

  // ----- Coded numbers -----

  /** First-byte values for a coded number of `len` bytes. */
  function Room(len: nat): nat {
    if len == 1 then 128 else if len == 2 then 32 else if len == 3 then 16 else if len == 4 then 8
    else if len == 5 then 4 else if len == 6 then 2 else if len == 7 then 1 else 0
  }

  lemma {:induction false} TopBelow(count: nat, v: nat, room: nat, limit: nat)
    requires limit == room * Pow64(count)
    ensures v < limit <==> Top(count, v) < room
  {
    if count > 0 {
      TopBelow(count - 1, v / 64, room, room * Pow64(count - 1));
      assert limit == (room * Pow64(count - 1)) * 64;
    }
  }

  function Pow64(k: nat): nat { if k == 0 then 1 else 64 * Pow64(k - 1) }

  lemma CapacityIs(len: nat)
    requires 1 <= len <= 7
    ensures Capacity(len) == Room(len) * Pow64(len - 1)
  {
    assert Pow64(0) == 1 && Pow64(1) == 64 && Pow64(2) == 4096 && Pow64(3) == 262144;
    assert Pow64(4) == 16777216 && Pow64(5) == 1073741824 && Pow64(6) == 68719476736;
  }

  lemma NumberFits(len: nat, v: nat)
    requires 1 <= len <= 7
    ensures v < Capacity(len) <==> Top(len - 1, v) < Room(len)
  {
    CapacityIs(len);
    TopBelow(len - 1, v, Room(len), Capacity(len));
  }

  /** A number by its digits, and back. */
  function Value(top: nat, tail: seq<nat>): nat
    requires forall i :: 0 <= i < |tail| ==> 128 <= tail[i] < 192
  {
    if tail == [] then top else 64 * Value(top, tail[..|tail| - 1]) + (tail[|tail| - 1] - 128)
  }

  lemma LastDigit(q: nat, d: nat)
    requires d < 64
    ensures (64 * q + d) / 64 == q && (64 * q + d) % 64 == d
  {
  }

  lemma {:induction false} DigitsOf(top: nat, tail: seq<nat>)
    requires forall i :: 0 <= i < |tail| ==> 128 <= tail[i] < 192
    ensures Top(|tail|, Value(top, tail)) == top && Tail(|tail|, Value(top, tail)) == tail
  {
    if tail != [] {
      var front, d := tail[..|tail| - 1], tail[|tail| - 1] - 128;
      DigitsOf(top, front);
      LastDigit(Value(top, front), d);
      assert tail == front + [128 + d];
    }
  }

  // ----- What is encoded is parsed -----

  lemma NumbersAreBytes(h: Fields)
    requires Legal(h)
    ensures forall i :: 0 <= i < |Numbers(h)| ==> Numbers(h)[i] < 256
    ensures |Numbers(h)| == 4 + h.numberLen + |BlockTail(h.block)| + |RateTail(h.rate)|
  {
    NumberFits(h.numberLen, h.number);
    assert forall n | 0 <= n < 65536 :: n / 256 < 256;
  }

  /** A frame header: the fields, and the CRC-8 of all before it (section 9.1.8). */
  function Encode(h: Fields): seq<byte>
    requires Legal(h)
  {
    NumbersAreBytes(h);
    var body := ToBytes(Numbers(h));
    body + [Crc8(body)]
  }

  lemma {:induction false} NumberParts(h: Fields)
    requires Legal(h)
    ensures var ns, len := Numbers(h), h.numberLen;
            && ns[0] == 255 && ns[1] == (if h.variable then 249 else 248)
            && ns[2] == 16 * BlockCode(h.block) + RateCode(h.rate) && ns[3] == 16 * h.channels + 2 * h.depth
            && ns[4] == Lead(len) + Top(len - 1, h.number)
            && (forall i :: 5 <= i < 4 + len ==> 128 <= ns[i] < 192)
  {
  }

  /** Whatever legal fields are encoded, the parser says Valid, and how long. */
  lemma EncodedIsValid(h: Fields, rest: seq<byte>)
    requires Legal(h)
    ensures FrameHeader(Encode(h) + rest) == Valid(|Encode(h)|)
  {
    hide Numbers, SyncOk, ReservedFields, CodedLen, ExtraLen, Continuation, Crc8, BlockTail, RateTail, Top, Capacity, FrameHeader,
      BlockCode, RateCode, Lead, Extra, ByteOf, ToBytes;
    NumbersAreBytes(h);
    NumberParts(h);
    ToBytesValue(Numbers(h));
    var ns, body := Numbers(h), ToBytes(Numbers(h));
    var b := Encode(h) + rest;
    assert forall i :: 0 <= i < |body| ==> b[i] == body[i];
    assert b[..|body|] == body && b[|body|] == Crc8(body);
    FieldsPass(h, b[0], b[1], b[2], b[3], b[4]);
    forall i | 5 <= i < 4 + h.numberLen ensures Continuation(b[i]) { ContinuationByValue(b[i]); }
    HeaderByParts(b, h.numberLen);
  }

  /** The first five bytes of an encoding, one by one. */
  lemma FieldsPass(h: Fields, b0: byte, b1: byte, b2: byte, b3: byte, b4: byte)
    requires Legal(h)
    requires b0 as nat == 255 && b1 as nat == (if h.variable then 249 else 248)
    requires b2 as nat == 16 * BlockCode(h.block) + RateCode(h.rate) && b3 as nat == 16 * h.channels + 2 * h.depth
    requires b4 as nat == Lead(h.numberLen) + Top(h.numberLen - 1, h.number)
    ensures b0 == 0xFF && SyncOk(b1) && !ReservedFields(b2, b3) && CodedLen(b4) == h.numberLen
    ensures ExtraLen(b2) == |BlockTail(h.block)| + |RateTail(h.rate)|
  {
    hide SyncOk, ReservedFields, CodedLen, ExtraLen, Top, Capacity, BlockTail, RateTail, BlockCode, RateCode;
    SameByte(b0, 0xFF);
    SyncByValue(b1);
    CodesByValue(h);
    ReservedByValue(b2, b3);
    ExtraByValue(b2);
    NumberFits(h.numberLen, h.number);
    CodedByValue(b4);
  }

  lemma HeaderByParts(b: seq<byte>, len: nat)
    requires |b| >= 5 && b[0] == 0xFF && SyncOk(b[1]) && !ReservedFields(b[2], b[3]) && CodedLen(b[4]) == len >= 1
    requires |b| > 4 + len + ExtraLen(b[2]) && forall i :: 5 <= i < 4 + len ==> Continuation(b[i])
    requires var crcAt := 4 + len + ExtraLen(b[2]); Crc8(b[..crcAt]) == b[crcAt]
    ensures FrameHeader(b) == Valid(4 + len + ExtraLen(b[2]) + 1)
  {
    hide SyncOk, ReservedFields, CodedLen, ExtraLen, Continuation, Crc8;
  }

  /** The codes come apart again, and tell the length of what follows. */
  lemma CodesByValue(h: Fields)
    requires Legal(h)
    ensures var x, y := 16 * BlockCode(h.block) + RateCode(h.rate), 16 * h.channels + 2 * h.depth;
            && x / 16 == BlockCode(h.block) && x % 16 == RateCode(h.rate)
            && Extra(x) == |BlockTail(h.block)| + |RateTail(h.rate)|
            && x / 16 != 0 && x % 16 != 15 && y / 16 <= 10 && y / 2 % 8 != 3 && y % 2 == 0
  {
  }

  // ----- And nothing else is -----

  function BlockOf(x: nat, extra: seq<nat>): BlockSize {
    if x / 16 == 6 && |extra| >= 1 then OneByte(extra[0])
    else if x / 16 == 7 && |extra| >= 2 then TwoBytes(256 * extra[0] + extra[1])
    else Listed(x / 16)
  }

  function RateOf(x: nat, extra: seq<nat>): Rate {
    if x % 16 == 12 && |extra| >= 1 then KiloHertz(extra[0])
    else if x % 16 == 13 && |extra| >= 2 then Hertz(256 * extra[0] + extra[1])
    else if x % 16 == 14 && |extra| >= 2 then TensOfHertz(256 * extra[0] + extra[1])
    else Known(x % 16)
  }

  function BlockLen(x: nat): nat { if x / 16 == 6 then 1 else if x / 16 == 7 then 2 else 0 }

  function Values(b: seq<byte>): (r: seq<nat>)
    ensures |r| == |b| && forall i :: 0 <= i < |b| ==> r[i] == b[i] as nat < 256
  {
    seq(|b|, i requires 0 <= i < |b| => b[i] as nat)
  }

  lemma TailsBack(x: nat, extra: seq<nat>)
    requires x < 256 && |extra| == Extra(x) && forall i :: 0 <= i < |extra| ==> extra[i] < 256
    ensures var k := BlockLen(x);
            && k <= |extra|
            && BlockCode(BlockOf(x, extra[..k])) == x / 16 && BlockTail(BlockOf(x, extra[..k])) == extra[..k]
            && RateCode(RateOf(x, extra[k..])) == x % 16 && RateTail(RateOf(x, extra[k..])) == extra[k..]
  {
    var k := BlockLen(x);
    var p, q := extra[..k], extra[k..];
    if |p| == 2 { TwoBack(p[0], p[1]); }
    if |q| == 2 { TwoBack(q[0], q[1]); }
  }

  lemma TwoBack(hi: nat, lo: nat)
    requires hi < 256 && lo < 256
    ensures (256 * hi + lo) / 256 == hi && (256 * hi + lo) % 256 == lo
  {
  }

  /** Every header the parser calls Valid is the encoding of legal fields, byte
      for byte. */
  lemma {:induction false} ValidIsEncoded(b: seq<byte>) returns (h: Fields)
    requires FrameHeader(b).Valid?
    ensures Legal(h) && Encode(h) == b[..FrameHeader(b).len]
  {
    hide Crc8, ReservedFields, CodedLen, ExtraLen, SyncOk, Continuation, Capacity, Numbers, FieldsOf, Lead, Room, Extra;
    var len := CodedLen(b[4]);
    var crcAt := 4 + len + ExtraLen(b[2]);
    var v := Values(b[..crcAt]);
    BytesPass(b[0], b[1], b[2], b[3], b[4]);
    forall i | 5 <= i < 4 + len ensures 128 <= v[i] < 192 { ContinuationByValue(b[i]); }
    h := FieldsOf(v, len);
    EncodedBack(v, len, h);
    SameBody(h, v, b[..crcAt]);
    assert b[..crcAt + 1] == b[..crcAt] + [b[crcAt]];
  }

  lemma BytesPass(b0: byte, b1: byte, b2: byte, b3: byte, b4: byte)
    requires b0 == 0xFF && SyncOk(b1) && !ReservedFields(b2, b3) && CodedLen(b4) != 0
    ensures b0 as nat == 255 && (b1 as nat == 248 || b1 as nat == 249)
    ensures var x, y := b2 as nat, b3 as nat;
            && x / 16 != 0 && x % 16 != 15 && y / 16 <= 10 && y / 2 % 8 != 3 && y % 2 == 0
            && ExtraLen(b2) == Extra(x)
    ensures var len := CodedLen(b4); 1 <= len <= 7 && Lead(len) <= b4 as nat < Lead(len) + Room(len)
  {
    hide SyncOk, ReservedFields, CodedLen, ExtraLen;
    SyncByValue(b1);
    ReservedByValue(b2, b3);
    ExtraByValue(b2);
    CodedByValue(b4);
  }

  lemma SameBody(h: Fields, v: seq<nat>, b: seq<byte>)
    requires Legal(h) && Numbers(h) == v == Values(b)
    ensures (forall i :: 0 <= i < |v| ==> v[i] < 256) && ToBytes(v) == b
  {
    hide Numbers, Legal, ByteOf, ToBytes;
    ToBytesValue(v);
    forall i | 0 <= i < |b| ensures ToBytes(v)[i] == b[i] { SameByte(ToBytes(v)[i], b[i]); }
  }

  function FieldsOf(v: seq<nat>, len: nat): Fields
    requires |v| >= 4 + len && 1 <= len && v[4] >= Lead(len) && forall i :: 5 <= i < 4 + len ==> 128 <= v[i] < 192
  {
    var x, extra := v[2], v[4 + len..];
    var k := if BlockLen(x) <= |extra| then BlockLen(x) else 0;
    Fields(v[1] == 249, BlockOf(x, extra[..k]), RateOf(x, extra[k..]), v[3] / 16, v[3] / 2 % 8,
           len, Value(v[4] - Lead(len), v[5..4 + len]))
  }

  lemma {:induction false} EncodedBack(v: seq<nat>, len: nat, h: Fields)
    requires 1 <= len <= 7 && |v| >= 5 && |v| == 4 + len + Extra(v[2]) && forall i :: 0 <= i < |v| ==> v[i] < 256
    requires v[0] == 255 && (v[1] == 248 || v[1] == 249)
    requires v[2] / 16 != 0 && v[2] % 16 != 15 && v[3] / 16 <= 10 && v[3] / 2 % 8 != 3 && v[3] % 2 == 0
    requires Lead(len) <= v[4] < Lead(len) + Room(len) && forall i :: 5 <= i < 4 + len ==> 128 <= v[i] < 192
    requires h == FieldsOf(v, len)
    ensures Legal(h) && Numbers(h) == v
  {
    hide Legal, Numbers;
    LegalBack(v, len, h);
    NumbersBack(v, len, h);
  }

  lemma {:induction false} LegalBack(v: seq<nat>, len: nat, h: Fields)
    requires 1 <= len <= 7 && |v| >= 5 && |v| == 4 + len + Extra(v[2]) && forall i :: 0 <= i < |v| ==> v[i] < 256
    requires v[2] / 16 != 0 && v[2] % 16 != 15 && v[3] / 16 <= 10 && v[3] / 2 % 8 != 3
    requires Lead(len) <= v[4] < Lead(len) + Room(len) && forall i :: 5 <= i < 4 + len ==> 128 <= v[i] < 192
    requires h == FieldsOf(v, len)
    ensures Legal(h)
  {
    hide Capacity, Value, Top, Tail, BlockOf, RateOf, Lead, Room, Extra, BlockLen;
    var x, extra, tail := v[2], v[4 + len..], v[5..4 + len];
    DigitsOf(v[4] - Lead(len), tail);
    NumberFits(len, h.number);
    FieldsLegal(x, extra);
  }

  lemma {:induction false} NumbersBack(v: seq<nat>, len: nat, h: Fields)
    requires 1 <= len <= 7 && |v| >= 5 && |v| == 4 + len + Extra(v[2]) && forall i :: 0 <= i < |v| ==> v[i] < 256
    requires v[0] == 255 && (v[1] == 248 || v[1] == 249) && v[3] % 2 == 0
    requires Lead(len) <= v[4] && forall i :: 5 <= i < 4 + len ==> 128 <= v[i] < 192
    requires h == FieldsOf(v, len)
    ensures Numbers(h) == v
  {
    hide Value, Top, Tail, BlockTail, RateTail, BlockOf, RateOf, Lead, Extra, BlockCode, RateCode, BlockLen;
    var x, extra, tail := v[2], v[4 + len..], v[5..4 + len];
    TailsBack(x, extra);
    DigitsOf(v[4] - Lead(len), tail);
    DepthBack(v[3]);
    SixteenBack(x);
    PartsJoin(v, len, BlockLen(x));
  }

  lemma SixteenBack(x: nat)
    ensures x == 16 * (x / 16) + x % 16
  {
  }

  lemma DepthBack(y: nat)
    requires y < 256 && y % 2 == 0
    ensures y == 16 * (y / 16) + 2 * (y / 2 % 8) && y / 2 % 8 <= 7
  {
  }

  lemma PartsJoin(v: seq<nat>, len: nat, k: nat)
    requires len >= 1 && |v| >= 4 + len + k
    ensures v == [v[0], v[1], v[2], v[3]] + ([v[4]] + v[5..4 + len]) + v[4 + len..][..k] + v[4 + len..][k..]
  {
  }

  lemma FieldsLegal(x: nat, extra: seq<nat>)
    requires x < 256 && x / 16 != 0 && x % 16 != 15 && |extra| == Extra(x) && forall i :: 0 <= i < |extra| ==> extra[i] < 256
    ensures var k := BlockLen(x);
            && k <= |extra|
            && (match BlockOf(x, extra[..k])
                case Listed(c) => 1 <= c <= 15 && c != 6 && c != 7
                case OneByte(n) => n < 256
                case TwoBytes(n) => n < 65536)
            && (match RateOf(x, extra[k..])
                case Known(c) => c <= 11
                case KiloHertz(n) => n < 256
                case Hertz(n) => n < 65536
                case TensOfHertz(n) => n < 65536)
  {
  }

  // ----- Undecided headers -----

  /** A header of five bytes or more that is undecided can still become valid. */
  lemma {:induction false} Completes(b: seq<byte>) returns (more: seq<byte>)
    requires |b| >= 5 && FrameHeader(b).Incomplete?
    ensures FrameHeader(b + more).Valid?
  {
    hide SyncOk, ReservedFields, CodedLen, ExtraLen, Continuation, Crc8;
    var len := CodedLen(b[4]);
    var crcAt := 4 + len + ExtraLen(b[2]);
    var body := b + seq(crcAt - |b|, i => 0x80);
    more := seq(crcAt - |b|, i => 0x80) + [Crc8(body)];
    var all := b + more;
    assert all == body + [Crc8(body)] && all[..crcAt] == body;
    forall i | 5 <= i < 4 + len ensures Continuation(all[i]) {
      if i < |b| { assert all[i] == b[i]; } else { PlainContinuation(); }
    }
    HeaderByParts(all, len);
  }

  lemma PlainContinuation()
    ensures Continuation(0x80)
  {
  }

  lemma SeedUndecided(b1: byte)
    requires SyncOk(b1)
    ensures FrameHeader([0xFF, b1, 0x10, 0, 0]).Incomplete?
  {
    hide SyncOk;
    var b: seq<byte> := [0xFF, b1, 0x10, 0, 0];
    assert !ReservedFields(0x10, 0) && CodedLen(0) == 1 && ExtraLen(0x10) == 0;
  }

  /** The verdict Invalid, exactly, of up to two or at least five bytes: no way of
      going on makes a valid header. With three or four bytes it waits for a fifth
      before it looks at the fields. */
  lemma InvalidExactly(b: seq<byte>)
    requires |b| != 3 && |b| != 4
    ensures FrameHeader(b).Invalid? <==> forall more :: !FrameHeader(b + more).Valid?
  {
    hide SyncOk, ReservedFields, CodedLen, ExtraLen, Continuation, Crc8;
    if FrameHeader(b).Invalid? {
      forall more ensures !FrameHeader(b + more).Valid? { HeaderStable(b, more); }
    } else if FrameHeader(b).Valid? {
      assert b + [] == b;
    } else if |b| >= 5 {
      var more := Completes(b);
    } else {
      var b1: byte := if |b| == 2 then b[1] else 0xF8;
      assert SyncOk(b1) by { PlainSync(); }
      var seed: seq<byte> := [0xFF, b1, 0x10, 0, 0];
      SeedUndecided(b1);
      var more := Completes(seed);
      assert b + (seed[|b|..] + more) == seed + more;
    }
  }

  lemma PlainSync()
    ensures SyncOk(0xF8)
  {
  }

  // ----- Metadata blocks (section 8.1) -----

  datatype Block = Block(kind: nat, body: seq<byte>)

  ghost predicate LegalBlock(b: Block) { b.kind < 128 && |b.body| < 16777216 }

  function BlockHead(b: Block, last: bool): seq<nat> {
    var n := |b.body|;
    [(if last then 128 else 0) + b.kind, n / 65536, n / 256 % 256, n % 256]
  }

  function EncodeBlock(b: Block, last: bool): seq<byte>
    requires LegalBlock(b)
  {
    ToBytes(BlockHead(b, last)) + b.body
  }

  /** The blocks in order, the last one flagged. */
  function EncodeBlocks(bs: seq<Block>): (r: seq<byte>)
    requires bs != [] && forall i :: 0 <= i < |bs| ==> LegalBlock(bs[i])
    ensures |r| >= 4
  {
    if |bs| == 1 then EncodeBlock(bs[0], true) else EncodeBlock(bs[0], false) + EncodeBlocks(bs[1..])
  }

  lemma FlagByValue(b: byte)
    ensures b & 0x80 != 0 <==> b as nat >= 128
  {
  }

  lemma LengthBack(n: nat)
    requires n < 16777216
    ensures n / 65536 * 65536 + n / 256 % 256 * 256 + n % 256 == n
  {
  }

  /** One block in a buffer: its length and its flag. */
  lemma BlockParsed(pre: seq<byte>, b: Block, last: bool, rest: seq<byte>)
    requires LegalBlock(b)
    ensures var buf, pos := pre + EncodeBlock(b, last) + rest, |pre|;
            && |EncodeBlock(b, last)| == 4 + |b.body|
            && Be24(buf[pos + 1], buf[pos + 2], buf[pos + 3]) == |b.body|
            && (buf[pos] & 0x80 != 0 <==> last)
  {
    hide ByteOf;
    var ns := BlockHead(b, last);
    ToBytesValue(ns);
    LengthBack(|b.body|);
    var buf, pos := pre + EncodeBlock(b, last) + rest, |pre|;
    assert forall i :: 0 <= i < 4 ==> buf[pos + i] == ToBytes(ns)[i];
    FlagByValue(buf[pos]);
  }

  /** A stream header of any blocks is measured exactly, whatever follows. */
  lemma {:induction false} BlocksMeasured(pre: seq<byte>, bs: seq<Block>, rest: seq<byte>)
    requires bs != [] && forall i :: 0 <= i < |bs| ==> LegalBlock(bs[i])
    ensures StreamHeaderLen(pre + EncodeBlocks(bs) + rest, |pre|) == Some(|pre| + |EncodeBlocks(bs)|)
    decreases |bs|
  {
    hide EncodeBlock, Be24;
    if |bs| == 1 {
      BlockParsed(pre, bs[0], true, rest);
    } else {
      var first, more := EncodeBlock(bs[0], false), EncodeBlocks(bs[1..]);
      BlockParsed(pre, bs[0], false, more + rest);
      BlocksMeasured(pre + first, bs[1..], rest);
      Rejoin(pre, first, more, rest);
    }
  }

  lemma Rejoin(a: seq<byte>, b: seq<byte>, c: seq<byte>, d: seq<byte>)
    ensures a + (b + c) + d == a + b + (c + d) == (a + b) + c + d
  {
  }

  /** And what is measured is a list of blocks, the last of them flagged. */
  lemma {:induction false} MeasuredAreBlocks(buf: seq<byte>, pos: nat) returns (bs: seq<Block>)
    requires StreamHeaderLen(buf, pos).Some?
    ensures bs != [] && (forall i :: 0 <= i < |bs| ==> LegalBlock(bs[i]))
    ensures EncodeBlocks(bs) == buf[pos..StreamHeaderLen(buf, pos).value]
    decreases |buf| - pos
  {
    hide EncodeBlock;
    var v := Values(buf[pos..pos + 4]);
    var end := pos + 4 + Be24(buf[pos + 1], buf[pos + 2], buf[pos + 3]);
    FlagByValue(buf[pos]);
    var last := v[0] >= 128;
    var b := Block(v[0] % 128, buf[pos + 4..end]);
    BlockBack(buf[pos..end], b, last);
    if last {
      bs := [b];
    } else {
      var more := MeasuredAreBlocks(buf, end);
      bs := [b] + more;
      assert bs[1..] == more;
      var stop := StreamHeaderLen(buf, pos).value;
      assert buf[pos..stop] == buf[pos..end] + buf[end..stop];
    }
  }

  lemma BlockBack(s: seq<byte>, b: Block, last: bool)
    requires |s| >= 4 && |s| == 4 + Be24(s[1], s[2], s[3]) && b.body == s[4..]
    requires last == (s[0] as nat >= 128) && b.kind == s[0] as nat % 128
    ensures LegalBlock(b) && EncodeBlock(b, last) == s
  {
    hide ByteOf, ToBytes, BlockHead, Be24;
    HeadValues(s, b, last);
    HeadBack(BlockHead(b, last), s[..4]);
    assert s == s[..4] + s[4..];
  }

  lemma HeadValues(s: seq<byte>, b: Block, last: bool)
    requires |s| >= 4 && |s| == 4 + Be24(s[1], s[2], s[3]) && b.body == s[4..]
    requires last == (s[0] as nat >= 128) && b.kind == s[0] as nat % 128
    ensures LegalBlock(b) && BlockHead(b, last) == Values(s[..4])
  {
    var v := Values(s[..4]);
    ThreeBack(v[1], v[2], v[3]);
    assert |b.body| == v[1] * 65536 + v[2] * 256 + v[3];
  }

  lemma HeadBack(ns: seq<nat>, s: seq<byte>)
    requires ns == Values(s)
    ensures ToBytes(ns) == s
  {
    hide ByteOf, ToBytes;
    ToBytesValue(ns);
    forall i | 0 <= i < |s| ensures ToBytes(ns)[i] == s[i] { SameByte(ToBytes(ns)[i], s[i]); }
  }

  lemma ThreeBack(x: nat, y: nat, z: nat)
    requires x < 256 && y < 256 && z < 256
    ensures var n := x * 65536 + y * 256 + z;
            n < 16777216 && n / 65536 == x && n / 256 % 256 == y && n % 256 == z
  {
    var n := x * 65536 + y * 256 + z;
    assert n / 256 == x * 256 + y;
  }

  // ----- Frame footers (section 9.3) -----

  function UpperHalf(c: bv16): bv16 { c >> 8 }

  function LowerHalf(c: bv16): bv16 { c & 0xFF }

  lemma JoinHalves(c: bv16)
    ensures Join(UpperHalf(c), LowerHalf(c)) == c
  {
  }

  lemma HalvesOf(h: bv16, l: bv16)
    requires h <= 0xFF && l <= 0xFF
    ensures UpperHalf(Join(h, l)) == h && LowerHalf(Join(h, l)) == l
  {
  }

  lemma HalvesSplit(h: bv16, l: bv16, c: bv16)
    requires h <= 0xFF && l <= 0xFF
    ensures Join(h, l) == c <==> h == UpperHalf(c) && l == LowerHalf(c)
  {
    hide Join, UpperHalf, LowerHalf;
    JoinHalves(c);
    HalvesOf(h, l);
  }

  lemma Widened(b: byte)
    ensures b as bv16 <= 0xFF
  {
  }

  /** The footer is the CRC-16 of everything before it, high byte first. */
  lemma FooterBytes(f: seq<byte>, i: nat)
    requires i + 2 <= |f|
    ensures FooterAt(f, i) <==>
            f[i] as bv16 == UpperHalf(Crc16(f[..i])) && f[i + 1] as bv16 == LowerHalf(Crc16(f[..i]))
  {
    hide Crc16, Join, UpperHalf, LowerHalf;
    Widened(f[i]);
    Widened(f[i + 1]);
    HalvesSplit(f[i] as bv16, f[i + 1] as bv16, Crc16(f[..i]));
  }

  // ----- Streams as they are written -----

  /** A frame: an encoded header, at least a byte, and the footer of it all. */
  ghost predicate EncodedFrame(f: seq<byte>, h: Fields) {
    && Legal(h) && Encode(h) <= f && |Encode(h)| + 3 <= |f|
    && var c := Crc16(f[..|f| - 2]);
       f[|f| - 2] as bv16 == UpperHalf(c) && f[|f| - 1] as bv16 == LowerHalf(c)
  }

  /** Such a frame, of at most 4 MiB, decodable, and without a harmful CRC match
      after its header, is one the splitter finds. */
  lemma EncodedFrameIsGood(f: seq<byte>, h: Fields, accepts: FlacStream.Oracle)
    requires EncodedFrame(f, h) && |f| <= 4194304 && accepts(f)
    requires forall i :: |Encode(h)| < i < |f| - 2 ==> FlacStream.Harmless(f, i, accepts)
    ensures FlacStream.GoodFrame(f, accepts)
  {
    hide Encode, Legal, FrameHeader, FooterAt, UpperHalf, LowerHalf, Crc16, FlacStream.Harmless;
    EncodedIsValid(h, f[|Encode(h)|..]);
    assert f == Encode(h) + f[|Encode(h)|..];
    FooterBytes(f, |f| - 2);
  }

  /** And "fLaC" with any metadata blocks is a stream header. */
  lemma EncodedHeaderIsGood(bs: seq<Block>, opens: FlacStream.Oracle)
    requires bs != [] && forall i :: 0 <= i < |bs| ==> LegalBlock(bs[i])
    requires opens(FlacStream.MAGIC + EncodeBlocks(bs))
    ensures FlacStream.GoodHeader(FlacStream.MAGIC + EncodeBlocks(bs), opens)
  {
    hide EncodeBlocks, StreamHeaderLen, LegalBlock, FlacStream.GoodHeader;
    MagicIs();
    var magic := FlacStream.MAGIC;
    var head := magic + EncodeBlocks(bs);
    BlocksMeasured(magic, bs, []);
    AfterMagic(magic, EncodeBlocks(bs));
    HeaderByBlocks(head, opens);
  }

  lemma MagicIs()
    ensures FlacStream.MAGIC == [0x66, 0x4C, 0x61, 0x43] && |FlacStream.MAGIC| == 4
  {
  }

  lemma HeaderByBlocks(head: seq<byte>, opens: FlacStream.Oracle)
    requires |head| >= 4 && head[..4] == FlacStream.MAGIC && StreamHeaderLen(head, 4) == Some(|head|) && opens(head)
    ensures FlacStream.GoodHeader(head, opens)
  {
  }

  lemma AfterMagic(magic: seq<byte>, blocks: seq<byte>)
    requires |magic| == 4
    ensures magic + blocks + [] == magic + blocks && (magic + blocks)[..4] == magic
  {
  }

  // ----- The CRCs on a known message -----

  /** Both CRCs of "123456789", the check values their definitions are known by. */
  lemma CheckValues()
    ensures var s: seq<byte> := [0x31, 0x32, 0x33, 0x34, 0x35, 0x36, 0x37, 0x38, 0x39];
            Crc16(s) == 0xFEE8 && Crc8(s) == 0xF4
  {
    hide Crc16, Crc8;
    var s: seq<byte> := [0x31, 0x32, 0x33, 0x34, 0x35, 0x36, 0x37, 0x38, 0x39];
    CrcOfNothing();
    assert s[..0] == [];
    Next(s, 1, 0x3100, 0x80A5, 0x31, 0x97);
    Next(s, 2, 0xB2A5, 0xA6AC, 0xA5, 0x72);
    Next(s, 3, 0x95AC, 0xAF7E, 0x41, 0xC0);
    Next(s, 4, 0x9B7E, 0xFD59, 0xF4, 0xC2);
    Next(s, 5, 0xC859, 0xDBB3, 0xF7, 0xCB);
    Next(s, 6, 0xEDB3, 0xB16E, 0xFD, 0xFD);
    Next(s, 7, 0x866E, 0xED17, 0xCA, 0x78);
    Next(s, 8, 0xD517, 0x95FD, 0x40, 0xC7);
    Next(s, 9, 0xACFD, 0xFEE8, 0xFE, 0xF4);
    assert s[..9] == s;
  }

  lemma CrcOfNothing()
    ensures Crc16([]) == 0 && Crc8([]) == 0
  {
  }

  /** One byte more: `x` and `y` are the registers with the byte added. */
  lemma Next(s: seq<byte>, k: nat, x: bv16, c: bv16, y: bv8, d: bv8)
    requires 1 <= k <= |s|
    requires Add(Crc16(s[..k - 1]), Widen(s[k - 1])) == x && Crc8(s[..k - 1]) ^ s[k - 1] == y
    requires Eight(x) == c && Eight8(y) == d
    ensures Crc16(s[..k]) == c && Crc8(s[..k]) == d
  {
    hide Iterate, Iterate8, Add, Widen, Eight, Eight8;
    assert s[..k][..k - 1] == s[..k - 1];
    EightIs(x, y);
  }

  /** Eight shifts by the two generators, x^16 + x^15 + x^2 + 1 and x^8 + x^2 + x + 1. */
  function Eight(c: bv16): bv16 { One(One(One(One(One(One(One(One(c)))))))) }

  function One(c: bv16): bv16 { if c & 0x8000 != 0 then (c << 1) ^ 0x8005 else c << 1 }

  function Eight8(c: bv8): bv8 { One8(One8(One8(One8(One8(One8(One8(One8(c)))))))) }

  function One8(c: bv8): bv8 { if c & 0x80 != 0 then (c << 1) ^ 0x07 else c << 1 }

  lemma EightIs(c: bv16, d: bv8)
    ensures Iterate(G16, 8, c) == Eight(c) && Iterate8(8, d) == Eight8(d)
  {
    assert forall x :: Shift(G16, x) == One(x);
    assert forall x :: Shift8(x) == One8(x);
  }
}
