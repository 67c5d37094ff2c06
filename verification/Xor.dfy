/** XOR algebra behind the parity packet: payloads of unequal length are
    XORed column by column as if zero-extended, and their lengths are XORed
    as 16-bit numbers. */
module Xor {
  import opened Bytes
  import opened Arithmetic

  /** Bitwise exclusive or of naturals. */
  function XorNat(a: nat, b: nat): nat {
    if a == 0 && b == 0 then 0 else 2 * XorNat(a / 2, b / 2) + (if a % 2 == b % 2 then 0 else 1)
  }

  /** Byte `i` of a payload extended with zeros. */
  function At(s: seq<byte>, i: nat): byte {
    if i < |s| then s[i] else 0
  }

  /** XOR of column `i` over a list of payloads. */
  function Column(ps: seq<seq<byte>>, i: nat): byte {
    if ps == [] then 0 else Column(ps[..|ps| - 1], i) ^ At(ps[|ps| - 1], i)
  }

  function Longest(ps: seq<seq<byte>>): nat {
    if ps == [] then 0
    else
      var l := Longest(ps[..|ps| - 1]);
      if |ps[|ps| - 1]| > l then |ps[|ps| - 1]| else l
  }

  /** XOR of the payload lengths, each truncated to 16 bits. */
  function LenXor(ps: seq<seq<byte>>): nat {
    if ps == [] then 0 else XorNat(LenXor(ps[..|ps| - 1]), |ps[|ps| - 1]| % 0x1_0000)
  }

  lemma {:induction false} XorNatComm(a: nat, b: nat)
    ensures XorNat(a, b) == XorNat(b, a)
  {
    if a + b > 0 {
      XorNatComm(a / 2, b / 2);
    }
  }

  lemma {:induction false} XorNatUnit(a: nat)
    ensures XorNat(a, a) == 0
    ensures XorNat(a, 0) == a
  {
    if a > 0 {
      XorNatUnit(a / 2);
    }
  }

  lemma {:induction false} XorNatAssoc(a: nat, b: nat, c: nat)
    ensures XorNat(XorNat(a, b), c) == XorNat(a, XorNat(b, c))
    decreases a + b + c
  {
    if a + b + c > 0 {
      XorNatAssoc(a / 2, b / 2, c / 2);
      var l, r := XorNat(XorNat(a, b), c), XorNat(a, XorNat(b, c));
      XorNatHalf(a, b);
      XorNatHalf(b, c);
      XorNatHalf(XorNat(a, b), c);
      XorNatHalf(a, XorNat(b, c));
      assert l / 2 == r / 2 && l % 2 == r % 2;
    }
  }

  lemma XorNatHalf(a: nat, b: nat)
    ensures XorNat(a, b) / 2 == XorNat(a / 2, b / 2)
    ensures XorNat(a, b) % 2 == if a % 2 == b % 2 then 0 else 1
  {
  }

  /** XOR never needs more bits than its operands: u16 XOR stays a u16. */
  lemma {:induction false} XorNatBound(a: nat, b: nat, k: nat)
    requires a < Pow2(k) && b < Pow2(k)
    ensures XorNat(a, b) < Pow2(k)
  {
    if k > 0 {
      XorNatBound(a / 2, b / 2, k - 1);
    }
  }

  lemma LenXorIsU16(ps: seq<seq<byte>>)
    ensures LenXor(ps) < 0x1_0000
  {
    assert Pow2(16) == 0x1_0000 by { assert Pow2(8) == 256; assert Pow2(12) == 4096; }
    if ps != [] {
      LenXorIsU16(ps[..|ps| - 1]);
      XorNatBound(LenXor(ps[..|ps| - 1]), |ps[|ps| - 1]| % 0x1_0000, 16);
    }
  }

  lemma {:induction false} ColumnConcat(a: seq<seq<byte>>, b: seq<seq<byte>>, i: nat)
    ensures Column(a + b, i) == Column(a, i) ^ Column(b, i)
  {
    if b == [] {
      assert a + b == a;
    } else {
      ColumnConcat(a, b[..|b| - 1], i);
      assert (a + b)[..|a + b| - 1] == a + b[..|b| - 1];
    }
  }

  lemma {:induction false} LenXorConcat(a: seq<seq<byte>>, b: seq<seq<byte>>)
    ensures LenXor(a + b) == XorNat(LenXor(a), LenXor(b))
  {
    if b == [] {
      assert a + b == a;
      XorNatUnit(LenXor(a));
    } else {
      LenXorConcat(a, b[..|b| - 1]);
      assert (a + b)[..|a + b| - 1] == a + b[..|b| - 1];
      XorNatAssoc(LenXor(a), LenXor(b[..|b| - 1]), |b[|b| - 1]| % 0x1_0000);
    }
  }

  lemma {:induction false} LongestBounds(ps: seq<seq<byte>>, k: nat)
    requires k < |ps|
    ensures |ps[k]| <= Longest(ps)
  {
    if k < |ps| - 1 {
      LongestBounds(ps[..|ps| - 1], k);
    }
  }

  /** Every payload of the list but number `e`. */
  function Without<T>(ps: seq<T>, e: nat): seq<T>
    requires e < |ps|
  {
    ps[..e] + ps[e + 1..]
  }

  /** One unknown payload is the whole column XORed with the known ones. */
  lemma ColumnErasure(ps: seq<seq<byte>>, e: nat, i: nat)
    requires e < |ps|
    ensures Column(ps, i) ^ Column(Without(ps, e), i) == At(ps[e], i)
  {
    assert ps == ps[..e] + ([ps[e]] + ps[e + 1..]);
    ColumnConcat(ps[..e], [ps[e]] + ps[e + 1..], i);
    ColumnConcat([ps[e]], ps[e + 1..], i);
    ColumnConcat(ps[..e], ps[e + 1..], i);
    assert [ps[e]][..0] == [];
  }

  lemma LenXorErasure(ps: seq<seq<byte>>, e: nat)
    requires e < |ps|
    ensures XorNat(LenXor(ps), LenXor(Without(ps, e))) == |ps[e]| % 0x1_0000
  {
    var l := |ps[e]| % 0x1_0000;
    var a, b := LenXor(ps[..e]), LenXor(ps[e + 1..]);
    assert ps == ps[..e] + ([ps[e]] + ps[e + 1..]);
    LenXorConcat(ps[..e], [ps[e]] + ps[e + 1..]);
    LenXorConcat([ps[e]], ps[e + 1..]);
    LenXorConcat(ps[..e], ps[e + 1..]);
    assert [ps[e]][..0] == [];
    assert LenXor([ps[e]]) == l by { XorNatUnit(l); XorNatComm(l, 0); }
    XorNatCancel(a, b, l);
  }

  lemma XorNatCancel(a: nat, b: nat, l: nat)
    ensures XorNat(XorNat(a, XorNat(l, b)), XorNat(a, b)) == l
  {
    var ab := XorNat(a, b);
    calc {
      XorNat(XorNat(a, XorNat(l, b)), ab);
    == { XorNatComm(l, b); XorNatAssoc(a, b, l); }
      XorNat(XorNat(ab, l), ab);
    == { XorNatComm(ab, l); XorNatAssoc(l, ab, ab); }
      XorNat(l, XorNat(ab, ab));
    == { XorNatUnit(ab); XorNatUnit(l); }
      l;
    }
  }
}
