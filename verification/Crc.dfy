/** The two CRCs of FLAC frames as division of polynomials over GF(2).
    Bits run from the most significant down. A register is 16 bits wide; the
    8-bit CRC lives in its upper half, with its generator shifted there. */
module Crc {
  import opened Bytes

  const G16: bv16 := 0x8005
  const G8: bv16 := 0x0700
  const TOP: bv16 := 0x8000

  /** Addition of polynomials, and multiplication by x dropping the top term. */
  function Add(a: bv16, b: bv16): bv16 { a ^ b }

  function Up(c: bv16): bv16 { c << 1 }

  predicate Top(c: bv16) { c & TOP != 0 }

  /** One step of the shift register: multiplication by x modulo x^16 + g. */
  function Shift(g: bv16, c: bv16): bv16 {
    if Top(c) then Add(Up(c), g) else Up(c)
  }

  function Iterate(g: bv16, n: nat, c: bv16): bv16
    decreases n
  {
    if n == 0 then c else Iterate(g, n - 1, Shift(g, c))
  }

  /** The register after one more message bit. */
  function FeedBit(g: bv16, c: bv16, b: bool): bv16 {
    Shift(g, if b then Add(c, TOP) else c)
  }

  function FeedBits(g: bv16, c: bv16, bits: seq<bool>): bv16
    decreases |bits|
  {
    if bits == [] then c else FeedBits(g, FeedBit(g, c, bits[0]), bits[1..])
  }

  function WordBits(y: bv16, n: nat): (r: seq<bool>)
    ensures |r| == n
    decreases n
  {
    if n == 0 then [] else [Top(y)] + WordBits(Up(y), n - 1)
  }

  function Widen(b: byte): bv16 { (b as bv16) << 8 }

  function ByteBits(b: byte): (r: seq<bool>)
    ensures |r| == 8
  {
    WordBits(Widen(b), 8)
  }

  function Bits(data: seq<byte>): (r: seq<bool>)
    ensures |r| == 8 * |data|
  {
    if data == [] then [] else Bits(data[..|data| - 1]) + ByteBits(data[|data| - 1])
  }

  // ----- The source's byte-wise computations -----

  function Crc16Step(crc: bv16, b: byte): bv16 { Iterate(G16, 8, Add(crc, Widen(b))) }

  function Crc16(data: seq<byte>): bv16 {
    if data == [] then 0 else Crc16Step(Crc16(data[..|data| - 1]), data[|data| - 1])
  }

  /** `crc16_update`: eight conditional shifts. */
  method Crc16Update(crc0: bv16, b: byte) returns (crc: bv16)
    ensures crc == Crc16Step(crc0, b)
  {
    crc := crc0 ^ ((b as bv16) << 8);
    for i := 0 to 8
      invariant Iterate(G16, 8 - i, crc) == Crc16Step(crc0, b)
    {
      crc := if crc & 0x8000 != 0 then (crc << 1) ^ 0x8005 else crc << 1;
    }
  }

  function Shift8(c: bv8): bv8 {
    if c & 0x80 != 0 then (c << 1) ^ 0x07 else c << 1
  }

  function Iterate8(n: nat, c: bv8): bv8
    decreases n
  {
    if n == 0 then c else Iterate8(n - 1, Shift8(c))
  }

  function Crc8(data: seq<byte>): bv8 {
    if data == [] then 0 else Iterate8(8, Crc8(data[..|data| - 1]) ^ data[|data| - 1])
  }

  method Crc8Byte(crc0: bv8, b: byte) returns (crc: bv8)
    ensures crc == Iterate8(8, crc0 ^ b)
  {
    crc := crc0 ^ b;
    for i := 0 to 8
      invariant Iterate8(8 - i, crc) == Iterate8(8, crc0 ^ b)
    {
      crc := if crc & 0x80 != 0 then (crc << 1) ^ 0x07 else crc << 1;
    }
  }

  method ComputeCrc8(data: seq<byte>) returns (crc: bv8)
    ensures crc == Crc8(data)
  {
    hide Iterate8;
    crc := 0;
    for k := 0 to |data|
      invariant crc == Crc8(data[..k])
    {
      crc := Crc8Byte(crc, data[k]);
      assert data[..k + 1][..k] == data[..k];
    }
    assert data[..|data|] == data;
  }

  // ----- Facts about 16-bit words, proved by the bit-vector solver -----

  lemma AddLaws(a: bv16, b: bv16, c: bv16)
    ensures Add(Add(a, b), c) == Add(a, Add(b, c)) && Add(a, b) == Add(b, a)
    ensures Add(a, a) == 0 && Add(a, 0) == a && Add(0, a) == a
    ensures Add(a, b) == 0 ==> a == b
  {
  }

  lemma AddCancel(a: bv16, b: bv16, g: bv16)
    ensures Add(Add(a, g), Add(b, g)) == Add(a, b)
  {
    hide Add;
    AddLaws(a, g, Add(b, g));
    AddLaws(b, g, g);
    AddLaws(g, b, g);
  }

  lemma AddSwap(a: bv16, b: bv16, g: bv16)
    ensures Add(Add(a, g), b) == Add(Add(a, b), g) && Add(a, Add(b, g)) == Add(Add(a, b), g)
  {
  }

  lemma UpAdd(a: bv16, b: bv16)
    ensures Up(Add(a, b)) == Add(Up(a), Up(b))
    ensures Top(Add(a, b)) == (Top(a) != Top(b))
  {
  }

  lemma DropTop(y: bv16)
    ensures Top(Add(y, TOP)) == !Top(y)
    ensures Up(Add(y, TOP)) == Up(y)
  {
  }

  lemma WidenGone(b: byte)
    ensures Widen(b) << 8 == 0
  {
  }

  lemma UpShl(y: bv16)
    ensures Up(y) == y << 1 && Up(y << 1) == y << 2 && Up(y << 2) == y << 3 && Up(y << 3) == y << 4
    ensures Up(y << 4) == y << 5 && Up(y << 5) == y << 6 && Up(y << 6) == y << 7 && Up(y << 7) == y << 8
  {
  }

  // ----- The register is linear -----

  lemma ShiftLinear(g: bv16, a: bv16, b: bv16)
    ensures Shift(g, Add(a, b)) == Add(Shift(g, a), Shift(g, b))
  {
    hide Add, Up, Top;
    UpAdd(a, b);
    AddCancel(Up(a), Up(b), g);
    AddSwap(Up(a), Up(b), g);
  }

  /** Feeding the top bit of `y` now, or having added all of `y` before. */
  lemma OneBit(g: bv16, c: bv16, y: bv16)
    ensures Shift(g, Add(c, y)) == Add(FeedBit(g, c, Top(y)), Up(y))
  {
    hide Add, Up, Top;
    DropTop(y);
    if Top(y) {
      var low := Add(y, TOP);
      AddCancel(c, y, TOP);
      assert Add(Add(c, TOP), low) == Add(c, y);
      ShiftLinear(g, Add(c, TOP), low);
    } else {
      ShiftLinear(g, c, y);
    }
  }

  function UpN(y: bv16, n: nat): bv16
    decreases n
  {
    if n == 0 then y else UpN(Up(y), n - 1)
  }

  /** n shifts of `c + y` are n message bits of `y` fed one at a time. */
  lemma {:induction false} WordFold(g: bv16, c: bv16, y: bv16, n: nat)
    ensures Iterate(g, n, Add(c, y)) == Add(FeedBits(g, c, WordBits(y, n)), UpN(y, n))
    decreases n
  {
    hide Add, Up, Top, Shift, FeedBit;
    if n > 0 {
      OneBit(g, c, y);
      WordFold(g, FeedBit(g, c, Top(y)), Up(y), n - 1);
      assert WordBits(y, n)[1..] == WordBits(Up(y), n - 1);
    }
  }

  lemma {:induction false} FeedConcat(g: bv16, c: bv16, a: seq<bool>, b: seq<bool>)
    ensures FeedBits(g, c, a + b) == FeedBits(g, FeedBits(g, c, a), b)
    decreases |a|
  {
    hide FeedBit;
    if a == [] {
      assert a + b == b;
    } else {
      FeedConcat(g, FeedBit(g, c, a[0]), a[1..], b);
      assert (a + b)[1..] == a[1..] + b;
    }
  }

  /** Eight moves push a widened byte out of the word. */
  lemma {:induction false} WidenOut(b: byte)
    ensures UpN(Widen(b), 8) == 0
  {
    hide Up, Widen;
    var y := Widen(b);
    WidenGone(b);
    UpShl(y);
    assert UpN(y << 6, 2) == UpN(y << 8, 0) by { assert UpN(y << 7, 1) == UpN(y << 8, 0); }
    assert UpN(y << 4, 4) == UpN(y << 6, 2) by { assert UpN(y << 5, 3) == UpN(y << 6, 2); }
    assert UpN(y << 2, 6) == UpN(y << 4, 4) by { assert UpN(y << 3, 5) == UpN(y << 4, 4); }
    assert UpN(y, 8) == UpN(y << 2, 6) by { assert UpN(y << 1, 7) == UpN(y << 2, 6); }
  }

  /** The byte loop of the 16-bit CRC is the bit-by-bit register. */
  lemma {:induction false} Crc16IsRegister(data: seq<byte>)
    ensures Crc16(data) == FeedBits(G16, 0, Bits(data))
  {
    hide Widen, Add, Iterate, WordBits, UpN;
    if data != [] {
      var k := |data| - 1;
      Crc16IsRegister(data[..k]);
      WordFold(G16, Crc16(data[..k]), Widen(data[k]), 8);
      WidenOut(data[k]);
      FeedConcat(G16, 0, Bits(data[..k]), ByteBits(data[k]));
      AddLaws(FeedBits(G16, 0, Bits(data)), 0, 0);
    }
  }
}
