/** What the CRCs detect, and that they are remainders of polynomial division. */
module CrcTheory {
  import opened Bytes
  import opened Crc

  // ----- The 8-bit CRC in the 16-bit register -----

  lemma WidenShift(c: bv8)
    ensures Widen(Shift8(c)) == Shift(G8, Widen(c))
  {
  }

  lemma WidenAdd(a: bv8, b: bv8)
    ensures Widen(a ^ b) == Add(Widen(a), Widen(b))
  {
  }

  lemma WidenZero()
    ensures Widen(0) == 0
  {
  }

  lemma WidenInjective(a: bv8, b: bv8)
    requires Widen(a) == Widen(b)
    ensures a == b
  {
  }

  lemma {:induction false} WidenIterate(n: nat, c: bv8)
    ensures Widen(Iterate8(n, c)) == Iterate(G8, n, Widen(c))
    decreases n
  {
    hide Widen, Shift8, Shift;
    if n > 0 {
      WidenShift(c);
      WidenIterate(n - 1, Shift8(c));
    }
  }

  /** The byte loop of the 8-bit CRC is the same register with its own generator. */
  lemma {:induction false} Crc8IsRegister(data: seq<byte>)
    ensures Widen(Crc8(data)) == FeedBits(G8, 0, Bits(data))
  {
    hide Iterate, Iterate8, WordBits, UpN, Add, Widen, FeedBit;
    if data == [] {
      WidenZero();
    } else {
      var k := |data| - 1;
      var crc := Crc8(data[..k]);
      Crc8IsRegister(data[..k]);
      WidenIterate(8, crc ^ data[k]);
      WidenAdd(crc, data[k]);
      WordFold(G8, Widen(crc), Widen(data[k]), 8);
      WidenOut(data[k]);
      FeedConcat(G8, 0, Bits(data[..k]), ByteBits(data[k]));
      AddLaws(FeedBits(G8, 0, Bits(data)), 0, 0);
    }
  }

  // ----- Linearity -----

  function XorBits(x: seq<bool>, y: seq<bool>): (r: seq<bool>)
    requires |x| == |y|
    ensures |r| == |x|
  {
    seq(|x|, i requires 0 <= i < |x| => x[i] != y[i])
  }

  lemma FeedBitLinear(g: bv16, a: bv16, b: bv16, x: bool, y: bool)
    ensures FeedBit(g, Add(a, b), x != y) == Add(FeedBit(g, a, x), FeedBit(g, b, y))
  {
    hide Add, Shift;
    var a', b' := if x then Add(a, TOP) else a, if y then Add(b, TOP) else b;
    AddCancel(a, b, TOP);
    AddSwap(a, b, TOP);
    ShiftLinear(g, a', b');
  }

  /** The CRC of a sum of messages is the sum of their CRCs. */
  lemma {:induction false} FeedLinear(g: bv16, a: bv16, b: bv16, x: seq<bool>, y: seq<bool>)
    requires |x| == |y|
    ensures FeedBits(g, Add(a, b), XorBits(x, y)) == Add(FeedBits(g, a, x), FeedBits(g, b, y))
    decreases |x|
  {
    hide Add, FeedBit;
    if x != [] {
      FeedBitLinear(g, a, b, x[0], y[0]);
      FeedLinear(g, FeedBit(g, a, x[0]), FeedBit(g, b, y[0]), x[1..], y[1..]);
      assert XorBits(x, y)[1..] == XorBits(x[1..], y[1..]);
    }
  }

  lemma {:induction false} IterateLinear(g: bv16, n: nat, a: bv16, b: bv16)
    ensures Iterate(g, n, Add(a, b)) == Add(Iterate(g, n, a), Iterate(g, n, b))
    decreases n
  {
    hide Add, Shift;
    if n > 0 {
      ShiftLinear(g, a, b);
      IterateLinear(g, n - 1, Shift(g, a), Shift(g, b));
    }
  }

  // ----- Error detection -----

  /** The two generators, each with the bits its register never uses. */
  ghost predicate Regular(g: bv16, unused: bv16) {
    (g == G16 && unused == 0) || (g == G8 && unused == 0x00FF)
  }

  lemma ShiftKernel(g: bv16, unused: bv16, c: bv16)
    requires Regular(g, unused) && Clear(c, unused)
    ensures Clear(Shift(g, c), unused)
    ensures Shift(g, c) == 0 ==> c == 0
  {
  }

  /** The register forgets nothing: only zero goes to zero. */
  lemma {:induction false} IterateKernel(g: bv16, unused: bv16, n: nat, c: bv16)
    requires Regular(g, unused) && Clear(c, unused) && c != 0
    ensures Clear(Iterate(g, n, c), unused) && Iterate(g, n, c) != 0
    decreases n
  {
    if n > 0 {
      ShiftKernel(g, unused, c);
      IterateKernel(g, unused, n - 1, Shift(g, c));
    }
  }

  function Zeros(n: nat): (r: seq<bool>)
    ensures |r| == n
  {
    seq(n, i => false)
  }

  lemma {:induction false} FeedZeros(g: bv16, c: bv16, n: nat)
    ensures FeedBits(g, c, Zeros(n)) == Iterate(g, n, c)
    decreases n
  {
    hide Shift;
    if n > 0 {
      assert Zeros(n)[1..] == Zeros(n - 1);
      FeedZeros(g, Shift(g, c), n - 1);
    }
  }

  lemma {:induction false} IterateZero(g: bv16, n: nat)
    ensures Iterate(g, n, 0) == 0
  {
    assert Shift(g, 0) == 0;
    if n > 0 { IterateZero(g, n - 1); }
  }

  function Half(z: bv16): bv16 { z >> 1 }

  predicate Clear(z: bv16, mask: bv16) { z & mask == 0 }

  /** A short list of bits, left-aligned in a word. */
  function Align(bits: seq<bool>): bv16 {
    if bits == [] then 0 else Add(if bits[0] then TOP else 0, Half(Align(bits[1..])))
  }

  /** Mask of the bits below the top `n`. */
  function Below(n: nat): bv16 {
    if n == 0 then 0xFFFF else Half(Below(n - 1))
  }

  lemma ClearHalf(z: bv16, m: bv16)
    requires Clear(z, m)
    ensures Clear(Half(z), Half(m))
  {
  }

  lemma ClearTop(m: bv16)
    ensures Clear(TOP, Half(m))
  {
  }

  lemma ClearAdd(a: bv16, b: bv16, m: bv16)
    requires Clear(a, m) && Clear(b, m)
    ensures Clear(Add(a, b), m)
  {
  }

  lemma AlignStep(b: bool, z: bv16, m: bv16)
    requires Clear(z, m)
    ensures Clear(Add(if b then TOP else 0, Half(z)), Half(m))
  {
    hide Clear, Half, Add;
    ClearHalf(z, m);
    ClearTop(m);
    ClearZero(Half(m));
    ClearAdd(if b then TOP else 0, Half(z), Half(m));
  }

  lemma ClearZero(m: bv16)
    ensures Clear(0, m)
  {
  }

  lemma {:induction false} AlignBelow(bits: seq<bool>)
    ensures Clear(Align(bits), Below(|bits|))
  {
    hide Add, Half, Clear;
    if bits == [] {
      assert Clear(0, 0xFFFF) by { ClearZero(0xFFFF); }
    } else {
      AlignBelow(bits[1..]);
      AlignStep(bits[0], Align(bits[1..]), Below(|bits| - 1));
    }
  }

  lemma BelowValues()
    ensures Below(8) == 0x00FF && Below(15) == 1
  {
    assert Below(4) == 0x0FFF by { assert Below(2) == 0x3FFF; }
    assert Below(8) == 0x00FF by { assert Below(6) == 0x03FF; }
    assert Below(12) == 0x000F by { assert Below(10) == 0x003F; }
    assert Below(15) == 1 by { assert Below(14) == 0x0003; }
  }

  lemma MaskMono(m: bv16, z: bv16, low: bv16)
    requires Clear(z, m) && low & m == low
    ensures Clear(z, low)
  {
  }

  lemma MaskShift(a: bv16, b: bv16)
    requires a & b == a
    ensures Half(a) & Half(b) == Half(a)
  {
  }

  /** Fewer bits leave more room below. */
  lemma {:induction false} BelowMono(n: nat, k: nat)
    requires n <= k
    ensures Below(k) & Below(n) == Below(k)
    decreases n
  {
    if n == 0 {
      assert Below(k) & 0xFFFF == Below(k) by { AllOnes(Below(k)); }
    } else {
      BelowMono(n - 1, k - 1);
      MaskShift(Below(k - 1), Below(n - 1));
    }
  }

  lemma AllOnes(a: bv16)
    ensures a & 0xFFFF == a
  {
  }

  /** At most 15 bits leave the last bit of the word free; at most 8, the lower half. */
  lemma AlignLow(bits: seq<bool>)
    ensures |bits| <= 15 ==> Clear(Align(bits), 1)
    ensures |bits| <= 8 ==> Clear(Align(bits), 0x00FF)
  {
    hide Align, Below, Clear;
    AlignBelow(bits);
    BelowValues();
    if |bits| <= 15 {
      BelowMono(|bits|, 15);
      MaskMono(Below(|bits|), Align(bits), 1);
    }
    if |bits| <= 8 {
      BelowMono(|bits|, 8);
      MaskMono(Below(|bits|), Align(bits), 0x00FF);
    }
  }

  lemma HalveDouble(z: bv16)
    requires Clear(z, 1)
    ensures Up(Half(z)) == z && !Top(Half(z)) && (z != 0 ==> Half(z) != 0)
  {
  }

  /** Up to 16 bits fed to a register are that many shifts of them added in at once. */
  lemma {:induction false} AlignFold(g: bv16, c: bv16, bits: seq<bool>)
    requires |bits| <= 16
    ensures FeedBits(g, c, bits) == Iterate(g, |bits|, Add(c, Align(bits)))
    decreases |bits|
  {
    hide Add, Shift, Up, Top, Half, Clear;
    if bits == [] {
      AddLaws(c, 0, 0);
    } else {
      var z := Align(bits[1..]);
      AlignLow(bits[1..]);
      HalveDouble(z);
      AlignFold(g, FeedBit(g, c, bits[0]), bits[1..]);
      AlignBit(g, c, bits[0], z);
    }
  }

  lemma AlignBit(g: bv16, c: bv16, b: bool, z: bv16)
    requires Up(Half(z)) == z && !Top(Half(z))
    ensures Shift(g, Add(c, Add(if b then TOP else 0, Half(z)))) == Add(FeedBit(g, c, b), z)
  {
    hide Add, Up, Top, Half;
    var r := Half(z);
    var c' := if b then Add(c, TOP) else c;
    AddLaws(c, TOP, r);
    AddLaws(r, 0, 0);
    ShiftLinear(g, c', r);
  }

  lemma TopNonzero(z: bv16)
    requires !Top(z)
    ensures Add(TOP, z) != 0
  {
  }

  lemma {:induction false} AlignNonzero(bits: seq<bool>, i: nat)
    requires i < |bits| <= 16 && bits[i]
    ensures Align(bits) != 0
  {
    hide Add, Up, Top, Half, Clear;
    var z := Align(bits[1..]);
    AlignLow(bits[1..]);
    HalveDouble(z);
    if bits[0] {
      TopNonzero(Half(z));
    } else {
      AlignNonzero(bits[1..], i - 1);
      AddLaws(Half(z), 0, 0);
    }
  }

  /** An error burst that fits the register never yields a zero CRC. */
  lemma {:induction false} BurstDetected(g: bv16, unused: bv16, d: seq<bool>, k: nat, n: nat, i: nat)
    requires Regular(g, unused) && n <= 16 && (g == G8 ==> n <= 8) && k + n <= |d|
    requires forall j :: 0 <= j < |d| && !(k <= j < k + n) ==> !d[j]
    requires i < |d| && d[i]
    ensures FeedBits(g, 0, d) != 0
  {
    hide Iterate, FeedBits, Align;
    var win := d[k..k + n];
    assert d == Zeros(k) + (win + Zeros(|d| - k - n));
    FeedConcat(g, 0, Zeros(k), win + Zeros(|d| - k - n));
    FeedZeros(g, 0, k);
    IterateZero(g, k);
    FeedConcat(g, 0, win, Zeros(|d| - k - n));
    AlignFold(g, 0, win);
    AddLaws(Align(win), 0, 0);
    AlignNonzero(win, i - k);
    AlignLow(win);
    assert Clear(Align(win), unused);
    IterateKernel(g, unused, n, Align(win));
    FeedZeros(g, Iterate(g, n, Align(win)), |d| - k - n);
    IterateKernel(g, unused, |d| - k - n, Iterate(g, n, Align(win)));
  }

  // ----- Messages -----

  /** Messages that differ in a bit have different bytes there, and conversely. */
  lemma ByteBitsInjective(a: byte, b: byte)
    requires ByteBits(a) == ByteBits(b)
    ensures a == b
  {
    hide Widen, Add, Iterate, UpN;
    WordFold(G16, 0, Widen(a), 8);
    WordFold(G16, 0, Widen(b), 8);
    WidenOut(a);
    WidenOut(b);
    var x, y := Widen(a), Widen(b);
    AddLaws(x, y, 0);
    AddLaws(y, 0, 0);
    assert Iterate(G16, 8, x) == Iterate(G16, 8, y);
    IterateLinear(G16, 8, x, y);
    AddLaws(Iterate(G16, 8, x), 0, 0);
    if Add(x, y) != 0 {
      IterateKernel(G16, 0, 8, Add(x, y));
    }
    WidenInjective(a, b);
  }

  lemma {:induction false} BitsInjective(a: seq<byte>, b: seq<byte>)
    requires Bits(a) == Bits(b)
    ensures a == b
  {
    if a != [] {
      var k := |a| - 1;
      var x, y := Bits(a[..k]), Bits(b[..k]);
      assert x == Bits(a)[..8 * k] && y == Bits(b)[..8 * k];
      assert ByteBits(a[k]) == Bits(a)[8 * k..] && ByteBits(b[k]) == Bits(b)[8 * k..];
      BitsInjective(a[..k], b[..k]);
      ByteBitsInjective(a[k], b[k]);
      assert a == a[..k] + [a[k]] && b == b[..k] + [b[k]];
    }
  }

  /** `a` and `b` differ only inside the `n`-bit window starting at bit `k`. */
  ghost predicate DifferWithin(a: seq<byte>, b: seq<byte>, k: nat, n: nat) {
    && |a| == |b|
    && forall j :: 0 <= j < 8 * |a| && !(k <= j < k + n) ==> Bits(a)[j] == Bits(b)[j]
  }

  lemma {:induction false} MessagesDiffer(g: bv16, unused: bv16, a: seq<byte>, b: seq<byte>, k: nat, n: nat)
    requires Regular(g, unused) && n <= 16 && (g == G8 ==> n <= 8)
    requires a != b && DifferWithin(a, b, k, n)
    ensures FeedBits(g, 0, Bits(a)) != FeedBits(g, 0, Bits(b))
  {
    hide FeedBits, Bits, Regular;
    var x, y := Bits(a), Bits(b);
    var d := XorBits(x, y);
    FeedLinear(g, 0, 0, x, y);
    AddLaws(0, 0, 0);
    AddLaws(FeedBits(g, 0, x), 0, 0);
    if x == y { BitsInjective(a, b); }
    var i :| 0 <= i < |x| && x[i] != y[i];
    var m := if k + n <= |d| then n else |d| - k;
    BurstDetected(g, unused, d, k, m, i);
  }

  /** Two frames of one length that differ only inside some 16-bit window,
      at any bit position, never have the same CRC-16. */
  lemma Crc16Burst(a: seq<byte>, b: seq<byte>, k: nat)
    requires a != b && DifferWithin(a, b, k, 16)
    ensures Crc16(a) != Crc16(b)
  {
    hide Crc16, FeedBits, DifferWithin;
    Crc16IsRegister(a);
    Crc16IsRegister(b);
    MessagesDiffer(G16, 0, a, b, k, 16);
  }

  /** The same for headers, the CRC-8 and an 8-bit window. */
  lemma Crc8Burst(a: seq<byte>, b: seq<byte>, k: nat)
    requires a != b && DifferWithin(a, b, k, 8)
    ensures Crc8(a) != Crc8(b)
  {
    hide Crc8, FeedBits, DifferWithin;
    Crc8IsRegister(a);
    Crc8IsRegister(b);
    MessagesDiffer(G8, 0x00FF, a, b, k, 8);
  }

  // ----- Division -----

  /** q(x) times x^16 + g(x), schoolbook, most significant coefficient first. */
  function Product(g: bv16, q: seq<bool>): (r: seq<bool>)
    ensures |r| == |q| + 16
  {
    if q == [] then Zeros(16)
    else
      var line := if q[0] then [true] + WordBits(g, 16) else Zeros(17);
      XorBits(line + Zeros(|q| - 1), [false] + Product(g, q[1..]))
  }

  /** The quotient the register goes through. */
  function Quotient(g: bv16, c: bv16, m: seq<bool>): (q: seq<bool>)
    ensures |q| == |m|
    decreases |m|
  {
    if m == [] then [] else [Top(c) != m[0]] + Quotient(g, FeedBit(g, c, m[0]), m[1..])
  }

  lemma {:induction false} WordBitsAdd(a: bv16, b: bv16, n: nat)
    ensures WordBits(Add(a, b), n) == XorBits(WordBits(a, n), WordBits(b, n))
    decreases n
  {
    hide Add, Up, Top;
    if n > 0 {
      UpAdd(a, b);
      WordBitsAdd(Up(a), Up(b), n - 1);
    }
  }

  lemma {:induction false} WordBitsUp(c: bv16, n: nat)
    requires n >= 1
    ensures WordBits(c, n) == [Top(c)] + WordBits(Up(c), n - 1)
  {
  }

  lemma {:induction false} UpPads(c: bv16, n: nat)
    ensures WordBits(c, n + 1)[..n] == WordBits(c, n)
    decreases n
  {
    hide Up, Top;
    if n > 0 {
      UpPads(Up(c), n - 1);
      assert WordBits(c, n + 1)[..n] == [Top(c)] + WordBits(Up(c), n)[..n - 1];
    }
  }

  /** The register after one bit: doubled, less the generator if a quotient bit came out. */
  lemma FeedBitParts(g: bv16, c: bv16, b: bool)
    ensures FeedBit(g, c, b) == if Top(c) != b then Add(Up(c), g) else Up(c)
  {
    hide Add, Up, Top;
    DropTop(c);
  }

  lemma SixteenUps(c: bv16)
    ensures !Top(Up(Up(Up(Up(Up(Up(Up(Up(Up(Up(Up(Up(Up(Up(Up(Up(c)))))))))))))))))
  {
  }

  /** A word moved up ends in a zero. */
  lemma {:induction false} UpEndsZero(c: bv16)
    ensures WordBits(Up(c), 16) == WordBits(c, 17)[1..] && !WordBits(c, 17)[16]
  {
    hide Up, Top;
    WordBitsUp(c, 17);
    LastBit(c, 16);
    SixteenUps(c);
    TopUpN(c);
  }

  lemma {:induction false} LastBit(c: bv16, n: nat)
    ensures WordBits(c, n + 1)[n] == Top(UpN(c, n))
    decreases n
  {
    hide Up, Top;
    if n > 0 { LastBit(Up(c), n - 1); }
  }

  lemma {:induction false} TopUpN(c: bv16)
    ensures UpN(c, 16) == Up(Up(Up(Up(Up(Up(Up(Up(Up(Up(Up(Up(Up(Up(Up(Up(c))))))))))))))))
  {
    hide Up;
    var c4 := Up(Up(Up(Up(c))));
    var c8 := Up(Up(Up(Up(c4))));
    var c12 := Up(Up(Up(Up(c8))));
    Up4(c, 12);
    Up4(c4, 8);
    Up4(c8, 4);
    Up4(c12, 0);
  }

  lemma Up4(c: bv16, n: nat)
    ensures UpN(c, n + 4) == UpN(Up(Up(Up(Up(c)))), n)
  {
    hide Up;
    assert UpN(c, n + 4) == UpN(Up(Up(c)), n + 2);
  }

  /** One division step, on the first 17 coefficients. */
  lemma {:induction false} StepDivides(g: bv16, c: bv16, b: bool)
    ensures var t := Top(c) != b;
            XorBits([b] + Zeros(16), WordBits(c, 16) + [false]) ==
            XorBits(if t then [true] + WordBits(g, 16) else Zeros(17), [false] + WordBits(FeedBit(g, c, b), 16))
  {
    hide Add, Up, Top, WordBits, FeedBit, UpN;
    var t := Top(c) != b;
    FeedBitParts(g, c, b);
    WordBitsUp(c, 16);
    UpEndsZero(c);
    UpPads(c, 16);
    WordBitsAdd(Up(c), g, 16);
    var w, u, gg := WordBits(c, 16), WordBits(Up(c), 16), WordBits(g, 16);
    assert w + [false] == [Top(c)] + u by {
      WordBitsUp(c, 17);
      assert WordBits(c, 17) == w + [WordBits(c, 17)[16]];
    }
    var l := XorBits([b] + Zeros(16), [Top(c)] + u);
    var r := XorBits(if t then [true] + gg else Zeros(17), [false] + WordBits(FeedBit(g, c, b), 16));
    forall i | 0 <= i < 17 ensures l[i] == r[i] { }
  }

  /** The dividend: the message times x^16, with the register added on top. */
  function Dividend(c: bv16, m: seq<bool>): (r: seq<bool>)
    ensures |r| == |m| + 16
  {
    XorBits(m + Zeros(16), WordBits(c, 16) + Zeros(|m|))
  }

  lemma {:induction false} DividendSplit(g: bv16, c: bv16, m: seq<bool>)
    requires m != []
    ensures var t := Top(c) != m[0];
            Dividend(c, m) ==
            XorBits((if t then [true] + WordBits(g, 16) else Zeros(17)) + Zeros(|m| - 1),
                    [false] + Dividend(FeedBit(g, c, m[0]), m[1..]))
  {
    hide WordBits, FeedBit, Top;
    var rest := m[1..];
    var t := Top(c) != m[0];
    StepDivides(g, c, m[0]);
    var w, w' := WordBits(c, 16), WordBits(FeedBit(g, c, m[0]), 16);
    var line := if t then [true] + WordBits(g, 16) else Zeros(17);
    var head := XorBits([m[0]] + Zeros(16), w + [false]);
    assert head == XorBits(line, [false] + w');
    var l := Dividend(c, m);
    var r := XorBits(line + Zeros(|m| - 1), [false] + Dividend(FeedBit(g, c, m[0]), rest));
    forall i | 0 <= i < |l| ensures l[i] == r[i] {
      if i < 17 {
        assert head[i] == (line[i] != ([false] + w')[i]);
      }
    }
  }

  lemma {:induction false} Divides(g: bv16, c: bv16, m: seq<bool>)
    ensures Dividend(c, m) ==
            XorBits(Product(g, Quotient(g, c, m)), Zeros(|m|) + WordBits(FeedBits(g, c, m), 16))
    decreases |m|
  {
    hide WordBits, FeedBit, Top;
    if m == [] {
      assert m + Zeros(16) == Zeros(16);
    } else {
      var c', rest := FeedBit(g, c, m[0]), m[1..];
      Divides(g, c', rest);
      DividendSplit(g, c, m);
      var q, q' := Quotient(g, c, m), Quotient(g, c', rest);
      assert q[1..] == q';
      var rem := WordBits(FeedBits(g, c, m), 16);
      var line := (if q[0] then [true] + WordBits(g, 16) else Zeros(17)) + Zeros(|m| - 1);
      Regroup(line, Product(g, q'), Zeros(|rest|) + rem);
      assert [false] + (Zeros(|rest|) + rem) == Zeros(|m|) + rem;
    }
  }

  lemma Regroup(line: seq<bool>, p: seq<bool>, r: seq<bool>)
    requires |line| == |p| + 1 && |p| == |r|
    ensures XorBits(line, [false] + XorBits(p, r)) == XorBits(XorBits(line, [false] + p), [false] + r)
  {
  }

  /** The register computes a remainder: message times x^16 equals quotient
      times generator plus the CRC, which has degree below 16. */
  lemma CrcIsRemainder(g: bv16, m: seq<bool>)
    ensures m + Zeros(16) == XorBits(Product(g, Quotient(g, 0, m)), Zeros(|m|) + WordBits(FeedBits(g, 0, m), 16))
  {
    hide Top;
    Divides(g, 0, m);
    ZeroWord(16);
    assert Dividend(0, m) == m + Zeros(16);
  }

  lemma {:induction false} ZeroWord(n: nat)
    ensures WordBits(0, n) == Zeros(n)
  {
    assert Up(0) == 0 && !Top(0);
    if n > 0 { ZeroWord(n - 1); }
  }

  /** And the only one: no other quotient of that length leaves a remainder of degree below 16. */
  lemma {:induction false} RemainderUnique(g: bv16, q1: seq<bool>, q2: seq<bool>, r1: seq<bool>, r2: seq<bool>)
    requires |q1| == |q2| && |r1| == |r2| == 16
    requires XorBits(Product(g, q1), Zeros(|q1|) + r1) == XorBits(Product(g, q2), Zeros(|q2|) + r2)
    ensures q1 == q2 && r1 == r2
  {
    hide WordBits;
    var a := XorBits(Product(g, q1), Zeros(|q1|) + r1);
    var b := XorBits(Product(g, q2), Zeros(|q2|) + r2);
    if q1 == [] {
      assert forall i :: 0 <= i < 16 ==> a[i] == r1[i] && b[i] == r2[i];
    } else {
      assert a[0] == q1[0] && b[0] == q2[0];
      Strip(g, q1, r1);
      Strip(g, q2, r2);
      var p1, p2 := XorBits(Product(g, q1[1..]), Zeros(|q1| - 1) + r1), XorBits(Product(g, q2[1..]), Zeros(|q1| - 1) + r2);
      var line := (if q1[0] then [true] + WordBits(g, 16) else Zeros(17)) + Zeros(|q1| - 1);
      forall i | 0 <= i < |p1| ensures p1[i] == p2[i] {
        assert XorBits(line, [false] + p1)[i + 1] == XorBits(line, [false] + p2)[i + 1];
      }
      RemainderUnique(g, q1[1..], q2[1..], r1, r2);
      assert q1 == [q1[0]] + q1[1..] && q2 == [q2[0]] + q2[1..];
    }
  }

  lemma Strip(g: bv16, q: seq<bool>, r: seq<bool>)
    requires q != [] && |r| == 16
    ensures XorBits(Product(g, q), Zeros(|q|) + r) ==
            XorBits((if q[0] then [true] + WordBits(g, 16) else Zeros(17)) + Zeros(|q| - 1),
                    [false] + XorBits(Product(g, q[1..]), Zeros(|q| - 1) + r))
  {
    hide WordBits;
    var line := (if q[0] then [true] + WordBits(g, 16) else Zeros(17)) + Zeros(|q| - 1);
    Regroup(line, Product(g, q[1..]), Zeros(|q| - 1) + r);
    assert [false] + (Zeros(|q| - 1) + r) == Zeros(|q|) + r;
  }
}
