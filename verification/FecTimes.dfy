/** How close the timestamps given to a rebuilt packet are to the lost ones. */
module FecTimes {
  import opened Bytes
  import opened Arithmetic
  import opened Packets
  import opened FecEncoding
  import opened FecReceiving

  /** A 64-bit counter carried by the packets of a group. */
  ghost predicate Counter(v: seq<int>) {
    forall i :: 0 <= i < |v| ==> 0 <= v[i] < TWO64
  }

  /** Every step from one packet to the next is `s` or `s + 1`. */
  ghost predicate Steady(v: seq<int>, s: int) {
    forall i :: 0 <= i < |v| - 1 ==> s <= v[i + 1] - v[i] <= s + 1
  }

  ghost predicate Uniform(v: seq<int>, s: int) {
    forall i :: 0 <= i < |v| - 1 ==> v[i + 1] - v[i] == s
  }

  /** The receiver's estimate of `v[e]` from the first two other values. */
  function Estimate(v: seq<int>, e: nat): int
    requires |v| >= 3 && e < |v|
  {
    var i0 := if e == 0 then 1 else 0;
    var i1 := if e <= 1 then 2 else 1;
    Extrapolate(v[i0], v[i1], i1 - i0, e - i0)
  }

  /** The same estimate over unbounded integers. */
  function Raw(v: seq<int>, e: nat): int
    requires |v| >= 3 && e < |v|
  {
    var i0 := if e == 0 then 1 else 0;
    var i1 := if e <= 1 then 2 else 1;
    v[i0] + TruncDiv(v[i1] - v[i0], i1 - i0) * (e - i0)
  }

  /** The survivors' distance, where it is halved, and the estimate fit an i64. */
  ghost predicate Fits(v: seq<int>, e: nat)
    requires |v| >= 3 && e < |v|
  {
    (e == 1 ==> -TWO63 <= v[2] - v[0] < TWO63) && Raw(v, e) < TWO63
  }

  /** Worst error: one step is off by at most one unit, and a late packet
      repeats the first step's error e - 1 times. */
  function Slack(e: nat): int { if e <= 2 then 1 else e - 1 }

  lemma {:induction false} SteadySpan(v: seq<int>, s: int, e: nat)
    requires Steady(v, s) && 1 <= e < |v|
    ensures (e - 1) * s <= v[e] - v[1] <= (e - 1) * (s + 1)
  {
    if e > 1 {
      SteadySpan(v, s, e - 1);
      assert s <= v[(e - 1) + 1] - v[e - 1] <= s + 1;
      assert (e - 2) * s + s == (e - 1) * s && (e - 2) * (s + 1) + (s + 1) == (e - 1) * (s + 1);
    }
  }

  lemma {:induction false} UniformSpan(v: seq<int>, s: int, e: nat)
    requires Uniform(v, s) && 1 <= e < |v|
    ensures v[e] - v[1] == (e - 1) * s
  {
    if e > 1 {
      UniformSpan(v, s, e - 1);
      assert v[(e - 1) + 1] - v[e - 1] == s;
      assert (e - 2) * s + s == (e - 1) * s;
    }
  }

  lemma WrapMultiple(x: int, k: int)
    ensures WrapI64(x + k * TWO64) == WrapI64(x)
  {
    ModMultiple(x + TWO63, k);
  }

  lemma ModMultiple(x: int, k: int)
    ensures (x + k * TWO64) % TWO64 == x % TWO64
  {
    DivUnique(x + k * TWO64, x / TWO64 + k, x % TWO64, TWO64);
  }

  lemma WrapDistance(x: int) returns (k: int)
    requires -TWO64 < x < TWO64
    ensures WrapI64(x) == x + k * TWO64
    ensures -TWO63 <= x < TWO63 ==> k == 0
    ensures x >= TWO63 ==> k == -1
    ensures x < -TWO63 ==> k == 1
  {
    k := if x >= TWO63 then -1 else if x < -TWO63 then 1 else 0;
  }

  /** A number in i64, clamped at zero. */
  function Clamped(x: int): int { if x >= TWO64 then x - TWO64 else if x < 0 || x >= TWO63 then 0 else x }

  lemma ClampedIsWrap(x: int)
    requires -TWO63 <= x < TWO64 + TWO63
    ensures var w := WrapI64(x); Clamped(x) == if w < 0 then 0 else w
  {
  }

  /** Stepping from one packet to the next, wrap-around cancels out. */
  lemma EstimateSingle(v: seq<int>, e: nat)
    requires |v| >= 3 && e < |v| && e != 1 && Counter(v) && -TWO63 <= Raw(v, e) < TWO64 + TWO63
    ensures Estimate(v, e) == Clamped(Raw(v, e))
  {
    hide WrapI64, Clamped;
    var i0 := if e == 0 then 1 else 0;
    var i1 := i0 + 1;
    var diff := v[i1] - v[i0];
    var k := WrapDistance(diff);
    var d := e - i0;
    assert v[i0] + (diff + k * TWO64) * d == Raw(v, e) + (k * d) * TWO64;
    WrapMultiple(Raw(v, e), k * d);
    ClampedIsWrap(Raw(v, e));
  }

  /** Halving the distance of two packets, it does not. */
  lemma EstimateHalf(v: seq<int>)
    requires |v| >= 3 && Counter(v)
    ensures -TWO63 <= v[2] - v[0] < TWO63 ==> Estimate(v, 1) == Clamped(Raw(v, 1))
    ensures v[2] - v[0] >= TWO63 ==> Estimate(v, 1) <= v[0]
    ensures v[2] - v[0] < -TWO63 ==> Estimate(v, 1) <= (v[2] - v[0]) / 2 + TWO63 + 1 - (TWO64 - v[0])
                                     || Estimate(v, 1) == 0
  {
    hide WrapI64;
    var diff := v[2] - v[0];
    var k := WrapDistance(diff);
    ClampedIsWrap(v[0] + TruncDiv(diff + k * TWO64, 2));
  }

  /** `x` is within `Slack` of `y`, and so is what the receiver makes of it if and
      only if `x` fits. */
  lemma CloseIfFits(x: int, y: int, e: nat)
    requires 0 <= y < TWO64 && e < 16 && -Slack(e) <= x - y <= Slack(e)
    ensures -Slack(e) <= Clamped(x) - y <= Slack(e) <==> x < TWO63
  {
  }

  /** The extrapolation in integers is close, whatever is missing. */
  lemma RawClose(v: seq<int>, s: int, e: nat)
    requires 3 <= |v| && e < |v| && Steady(v, s)
    ensures -Slack(e) <= Raw(v, e) - v[e] <= Slack(e)
  {
    assert s <= v[0 + 1] - v[0] <= s + 1;
    assert s <= v[1 + 1] - v[1] <= s + 1;
    if e >= 2 {
      LateClose(v, s, e);
    }
  }

  /** For any steady 64-bit counter and any missing position, the estimate is
      within the slack of the lost value if and only if it fits. */
  lemma EstimateClose(v: seq<int>, s: int, e: nat)
    requires 3 <= |v| <= 16 && e < |v| && Counter(v) && Steady(v, s)
    ensures -Slack(e) <= Estimate(v, e) - v[e] <= Slack(e) <==> Fits(v, e)
  {
    hide Estimate, Clamped, Raw;
    RawClose(v, s, e);
    assert 0 <= v[e] < TWO64;
    if e != 1 {
      EstimateSingle(v, e);
      CloseIfFits(Raw(v, e), v[e], e);
    } else {
      EstimateHalf(v);
      if -TWO63 <= v[2] - v[0] < TWO63 {
        CloseIfFits(Raw(v, 1), v[1], 1);
      } else {
        HalfwayFar(v, s);
      }
    }
  }

  /** More than 2^63 apart, the middle value is far from what comes of halving. */
  lemma HalfwayFar(v: seq<int>, s: int)
    requires 3 <= |v| && Counter(v) && Steady(v, s) && !(-TWO63 <= v[2] - v[0] < TWO63)
    ensures Estimate(v, 1) < v[1] - 1
  {
    hide Estimate;
    EstimateHalf(v);
    assert s <= v[0 + 1] - v[0] <= s + 1;
    assert s <= v[1 + 1] - v[1] <= s + 1;
    assert 0 <= v[0] < TWO64 && 0 <= v[2] < TWO64;
  }

  lemma LateClose(v: seq<int>, s: int, e: nat)
    requires 2 <= e < |v| && Steady(v, s)
    ensures -(e - 1) <= v[0] + (v[1] - v[0]) * e - v[e] <= e - 1
  {
    var step := v[1] - v[0];
    assert s <= v[0 + 1] - v[0] <= s + 1;
    SteadySpan(v, s, e);
    assert step * e == step + (e - 1) * step;
    LateError(e, s, step, v[e] - v[1]);
  }

  lemma LateError(e: nat, s: int, step: int, span: int)
    requires e >= 2 && s <= step <= s + 1
    requires (e - 1) * s <= span <= (e - 1) * (s + 1)
    ensures -(e - 1) <= (e - 1) * step - span <= e - 1
  {
    if step == s {
      assert (e - 1) * (s + 1) == (e - 1) * s + (e - 1);
    } else {
      assert step == s + 1;
      assert (e - 1) * (s + 1) == (e - 1) * s + (e - 1);
    }
  }

  /** Uniform packets: the estimate is the lost value if and only if it fits. */
  lemma EstimateUniform(v: seq<int>, s: int, e: nat)
    requires 3 <= |v| <= 16 && e < |v| && Counter(v) && Uniform(v, s)
    ensures Estimate(v, e) == v[e] <==> Fits(v, e)
    ensures Raw(v, e) == v[e]
  {
    hide Estimate, Raw, Clamped;
    RawUniform(v, s, e);
    EstimateClose(v, s, e);
    if Fits(v, e) {
      if e != 1 { EstimateSingle(v, e); } else { EstimateHalf(v); }
      ClampedSelf(v[e]);
    }
  }

  lemma ClampedSelf(x: int)
    requires 0 <= x < TWO63
    ensures Clamped(x) == x
  {
  }

  lemma RawUniform(v: seq<int>, s: int, e: nat)
    requires 3 <= |v| && e < |v| && Uniform(v, s)
    ensures Raw(v, e) == v[e]
  {
    assert v[0 + 1] - v[0] == s;
    assert v[1 + 1] - v[1] == s;
    if e == 1 {
      assert TruncDiv(v[2] - v[0], 2) == s;
    } else if e > 1 {
      UniformSpan(v, s, e);
      assert s * e == s + (e - 1) * s;
    }
  }

  function PtsOf(data: seq<Packet>): (r: seq<int>)
    ensures |r| == |data|
  {
    seq(|data|, i requires 0 <= i < |data| => data[i].header.ptsNs)
  }

  function OffsetsOf(data: seq<Packet>): (r: seq<int>)
    ensures |r| == |data|
  {
    seq(|data|, i requires 0 <= i < |data| => data[i].header.sampleOffset)
  }

  /** What stands in for the lost value in a rebuilt header. */
  function Substitute(v: seq<int>, e: nat): int
    requires |v| >= 2 && e < |v|
  {
    if |v| >= 3 then Estimate(v, e) else v[1 - e]
  }

  /** The times of a rebuilt packet, as the receiver computes them. */
  ghost predicate Stamped(h: Header, data: seq<Packet>, e: nat)
    requires |data| >= 2 && e < |data|
  {
    h.ptsNs == Substitute(PtsOf(data), e) && h.sampleOffset == Substitute(OffsetsOf(data), e)
  }

  /** The header built for the one missing packet of a group of three or more
      uses exactly these estimates; in a group of two it repeats the survivor's. */
  lemma {:induction false} SynthesizedTimes(slots: Slots, data: seq<Packet>, e: nat, base: u16, size: u8, len: u16)
    requires 2 <= |slots| == |data| <= 16 && e < |slots| && slots[e].None?
    requires forall i :: 0 <= i < |slots| && i != e ==> slots[i] == Some(data[i])
    ensures Find(slots, true, 0) < |slots|
    ensures var h := SynthesizeHeader(slots, base, size, e, len);
            Stamped(h, data, e)
  {
    hide Extrapolate;
    var i0 := if e == 0 then 1 else 0;
    assert Find(slots, true, 0) == i0 by { assert slots[i0].Some?; }
    if |data| >= 3 {
      var i1 := if e <= 1 then 2 else 1;
      assert Find(slots, true, i0 + 1) == i1 by { assert slots[i1].Some?; }
    } else {
      assert Find(slots, true, i0 + 1) == 2;
    }
  }

  lemma HeadersCount(data: seq<Packet>)
    ensures Counter(PtsOf(data)) && Counter(OffsetsOf(data))
  {
  }

  /** Whatever packet of a group of three or more is rebuilt: if steps vary by at
      most one nanosecond its timestamp is within `Slack` of the lost one, if
      packets are uniform it is exact, as its sample offset is; in each case if
      and only if the estimate fits. */
  lemma {:induction false} RebuiltTimes(h: Header, data: seq<Packet>, e: nat, s: int)
    requires 3 <= |data| <= 16 && e < |data| && Stamped(h, data, e)
    ensures Steady(PtsOf(data), s) ==>
              (-Slack(e) <= h.ptsNs - data[e].header.ptsNs <= Slack(e) <==> Fits(PtsOf(data), e))
    ensures Uniform(PtsOf(data), s) ==>
              (h.ptsNs == data[e].header.ptsNs <==> Fits(PtsOf(data), e))
    ensures Uniform(OffsetsOf(data), s) ==>
              (h.sampleOffset == data[e].header.sampleOffset <==> Fits(OffsetsOf(data), e))
  {
    hide Estimate, Steady, Uniform, Fits, Counter;
    var pts, offsets := PtsOf(data), OffsetsOf(data);
    HeadersCount(data);
    if Steady(pts, s) { EstimateClose(pts, s, e); }
    if Uniform(pts, s) { EstimateUniform(pts, s, e); }
    if Uniform(offsets, s) { EstimateUniform(offsets, s, e); }
  }
}
