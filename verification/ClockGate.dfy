/** What the outlier gate does, in terms of how many of the round trips in its
    window lie where: no sorting, no median function. */
module ClockGate {
  import opened Medians
  import opened ClockFilter

  /** Number of values that satisfy `p`. */
  function CountIf(s: seq<real>, p: real -> bool): (n: nat)
    ensures n <= |s|
  {
    if s == [] then 0 else (if p(s[0]) then 1 else 0) + CountIf(s[1..], p)
  }

  function Less(x: real): real -> bool { y => y < x }
  function AtMost(x: real): real -> bool { y => y <= x }

  /** Distances to `m`. */
  function Nearer(m: real, d: real): real -> bool { y => -d < y - m < d }
  function Within(m: real, d: real): real -> bool { y => -d <= y - m <= d }
  function AtLeast(m: real, d: real): real -> bool { y => !(-d < y - m < d) }

  /** `x` is the j-th smallest value: at most j lie below it, more than j up to it. */
  ghost predicate Ranks(s: seq<real>, j: nat, x: real) { CountIf(s, Less(x)) <= j < CountIf(s, AtMost(x)) }

  /** `d` is the j-th smallest distance to `m`. */
  ghost predicate DistanceRanks(s: seq<real>, m: real, j: nat, d: real) {
    d >= 0.0 && CountIf(s, Nearer(m, d)) <= j < CountIf(s, Within(m, d))
  }

  // ----- Counting and sorting -----

  lemma {:induction false} CountIfConcat(a: seq<real>, b: seq<real>, p: real -> bool)
    ensures CountIf(a + b, p) == CountIf(a, p) + CountIf(b, p)
  {
    if a == [] {
      assert a + b == b;
    } else {
      CountIfConcat(a[1..], b, p);
      assert (a + b)[1..] == a[1..] + b;
    }
  }

  lemma {:induction false} CountIfInsert(x: real, s: seq<real>, p: real -> bool)
    ensures CountIf(Insert(x, s), p) == CountIf(s, p) + if p(x) then 1 else 0
  {
    if s == [] {
      assert [x][1..] == [];
    } else if x <= s[0] {
      assert ([x] + s)[1..] == s;
    } else {
      CountIfInsert(x, s[1..], p);
      assert ([s[0]] + Insert(x, s[1..]))[1..] == Insert(x, s[1..]);
    }
  }

  lemma {:induction false} CountIfSort(s: seq<real>, p: real -> bool)
    ensures CountIf(Sort(s), p) == CountIf(s, p)
  {
    if s != [] {
      CountIfSort(s[1..], p);
      CountIfInsert(s[0], Sort(s[1..]), p);
    }
  }

  lemma {:induction false} CountIfAll(s: seq<real>, p: real -> bool)
    requires forall i :: 0 <= i < |s| ==> p(s[i])
    ensures CountIf(s, p) == |s|
  {
    if s != [] { CountIfAll(s[1..], p); }
  }

  lemma {:induction false} CountIfNone(s: seq<real>, p: real -> bool)
    requires forall i :: 0 <= i < |s| ==> !p(s[i])
    ensures CountIf(s, p) == 0
  {
    if s != [] { CountIfNone(s[1..], p); }
  }

  /** In a sorted list the j-th value is the one that ranks j-th. */
  lemma RankInSorted(t: seq<real>, j: nat, x: real)
    requires Sorted(t) && j < |t|
    ensures Ranks(t, j, x) <==> t[j] == x
  {
    var low, high := t[..j], t[j..];
    assert t == low + high && t == t[..j + 1] + t[j + 1..];
    CountIfConcat(low, high, Less(x));
    CountIfConcat(t[..j + 1], t[j + 1..], Less(x));
    CountIfConcat(low, high, AtMost(x));
    CountIfConcat(t[..j + 1], t[j + 1..], AtMost(x));
    if t[j] < x {
      CountIfAll(t[..j + 1], Less(x));
    } else if t[j] > x {
      CountIfNone(high, AtMost(x));
    } else {
      CountIfNone(high, Less(x));
      CountIfAll(t[..j + 1], AtMost(x));
    }
  }

  lemma RankIsSorted(s: seq<real>, j: nat, x: real)
    requires j < |s|
    ensures |Sort(s)| == |s| && (Ranks(s, j, x) <==> Sort(s)[j] == x)
  {
    SortFacts(s);
    CountIfSort(s, Less(x));
    CountIfSort(s, AtMost(x));
    RankInSorted(Sort(s), j, x);
  }

  /** The median, by ranks. */
  lemma MedianByRanks(s: seq<real>, lo: real, hi: real)
    requires s != [] && Ranks(s, (|s| - 1) / 2, lo) && Ranks(s, |s| / 2, hi)
    ensures Median(s) == (lo + hi) / 2.0
  {
    hide Sort, Ranks;
    RankIsSorted(s, (|s| - 1) / 2, lo);
    RankIsSorted(s, |s| / 2, hi);
    MiddleIs(Sort(s), lo, hi);
  }

  lemma MiddleIs(t: seq<real>, lo: real, hi: real)
    requires t != [] && t[(|t| - 1) / 2] == lo && t[|t| / 2] == hi
    ensures MiddleOf(t) == (lo + hi) / 2.0
  {
    if |t| % 2 == 1 { assert (|t| - 1) / 2 == |t| / 2; } else { assert (|t| - 1) / 2 == |t| / 2 - 1; }
  }

  lemma {:induction false} CountDistances(s: seq<real>, m: real, d: real)
    ensures CountIf(Deviations(s, m), Less(d)) == CountIf(s, Nearer(m, d))
    ensures CountIf(Deviations(s, m), AtMost(d)) == CountIf(s, Within(m, d))
  {
    if s != [] {
      CountDistances(s[1..], m, d);
      var all := Deviations(s, m);
      assert all[1..] == Deviations(s[1..], m);
    }
  }

  /** The deviations of the sorted window, ranked. */
  lemma DistanceRankIs(s: seq<real>, m: real, j: nat, d: real)
    requires j < |s| && DistanceRanks(s, m, j, d)
    ensures Ranks(Deviations(Sort(s), m), j, d)
  {
    CountDistances(Sort(s), m, d);
    CountIfSort(s, Nearer(m, d));
    CountIfSort(s, Within(m, d));
  }

  // ----- The gate -----

  /** 5 standard deviations of the spread, at 1.4826 to a median deviation, and
      no less than a millisecond. */
  function Margin(mad: real): real { if 7.413 * mad >= 1000000.0 then 7.413 * mad else 1000000.0 }

  /** The gate, exactly: with `lo` and `hi` the middle round trips of the window,
      m halfway between them, and `dlo` and `dhi` the middle distances to m, an
      exchange is rejected if and only if the clock has ten samples and its round
      trip is above m by more than the margin of the middle distance. */
  lemma GateByRanks(c: Clock, rtt: real, lo: real, hi: real, dlo: real, dhi: real)
    requires var w, m := c.window, (lo + hi) / 2.0;
             && w != [] && Ranks(w, (|w| - 1) / 2, lo) && Ranks(w, |w| / 2, hi)
             && DistanceRanks(w, m, (|w| - 1) / 2, dlo) && DistanceRanks(w, m, |w| / 2, dhi)
    ensures Rejects(c, rtt) <==> c.samples >= 10 && rtt > (lo + hi) / 2.0 + Margin((dlo + dhi) / 2.0)
  {
    hide Ranks, DistanceRanks, Median, Sort, Deviations;
    var w, m := c.window, (lo + hi) / 2.0;
    MedianByRanks(w, lo, hi);
    SortFacts(w);
    DistanceRankIs(w, m, (|w| - 1) / 2, dlo);
    DistanceRankIs(w, m, |w| / 2, dhi);
    MedianByRanks(Deviations(Sort(w), m), dlo, dhi);
  }

  /** Every window has such values, so the gate is always decided this way. */
  lemma RanksExist(w: seq<real>) returns (lo: real, hi: real, dlo: real, dhi: real)
    requires w != []
    ensures var m := (lo + hi) / 2.0;
            && Ranks(w, (|w| - 1) / 2, lo) && Ranks(w, |w| / 2, hi)
            && DistanceRanks(w, m, (|w| - 1) / 2, dlo) && DistanceRanks(w, m, |w| / 2, dhi)
  {
    hide CountIf, Insert, Sort;
    SortFacts(w);
    lo, hi := Sort(w)[(|w| - 1) / 2], Sort(w)[|w| / 2];
    RankIsSorted(w, (|w| - 1) / 2, lo);
    RankIsSorted(w, |w| / 2, hi);
    var m := (lo + hi) / 2.0;
    dlo := DistanceAt(w, m, (|w| - 1) / 2);
    dhi := DistanceAt(w, m, |w| / 2);
  }

  lemma DistanceAt(w: seq<real>, m: real, j: nat) returns (d: real)
    requires j < |w|
    ensures DistanceRanks(w, m, j, d)
  {
    var ds := Deviations(w, m);
    SortFacts(ds);
    d := Sort(ds)[j];
    RankIsSorted(ds, j, d);
    CountDistances(w, m, d);
    if d < 0.0 {
      DistancesPositive(w, m);
      CountIfNone(ds, AtMost(d));
      assert false;
    }
  }

  lemma {:induction false} DistancesPositive(s: seq<real>, m: real)
    ensures forall i :: 0 <= i < |s| ==> Deviations(s, m)[i] >= 0.0
  {
    if s != [] { DistancesPositive(s[1..], m); }
  }

  // ----- Wide and narrow windows -----

  lemma {:induction false} CountComplement(s: seq<real>, m: real, d: real)
    ensures CountIf(s, Nearer(m, d)) + CountIf(s, AtLeast(m, d)) == |s|
  {
    if s != [] { CountComplement(s[1..], m, d); }
  }

  lemma {:induction false} CountMono(s: seq<real>, p: real -> bool, q: real -> bool)
    requires forall x :: p(x) ==> q(x)
    ensures CountIf(s, p) <= CountIf(s, q)
  {
    if s != [] { CountMono(s[1..], p, q); }
  }

  /** A path that varies is not mistaken for a spike: if most of the window lies
      at distance d or more from its middle m, nothing up to m plus the margin of
      d is rejected. */
  lemma WideAccepts(c: Clock, rtt: real, lo: real, hi: real, d: real)
    requires var w, m := c.window, (lo + hi) / 2.0;
             && w != [] && Ranks(w, (|w| - 1) / 2, lo) && Ranks(w, |w| / 2, hi)
             && d >= 0.0 && 2 * CountIf(w, AtLeast(m, d)) > |w| && rtt <= m + Margin(d)
    ensures !Rejects(c, rtt)
  {
    var w, m := c.window, (lo + hi) / 2.0;
    var dlo := DistanceAt(w, m, (|w| - 1) / 2);
    var dhi := DistanceAt(w, m, |w| / 2);
    GateByRanks(c, rtt, lo, hi, dlo, dhi);
    CountComplement(w, m, d);
    if dlo < d { CountMono(w, Within(m, dlo), Nearer(m, d)); }
    if dhi < d { CountMono(w, Within(m, dhi), Nearer(m, d)); }
  }

  /** And a narrow one hides no spike: if most of the window lies within d of m,
      a bootstrapped clock rejects everything above m plus the margin of d. */
  lemma NarrowRejects(c: Clock, rtt: real, lo: real, hi: real, d: real)
    requires var w, m := c.window, (lo + hi) / 2.0;
             && w != [] && Ranks(w, (|w| - 1) / 2, lo) && Ranks(w, |w| / 2, hi)
             && d >= 0.0 && 2 * CountIf(w, Within(m, d)) > |w| && rtt > m + Margin(d)
    requires c.samples >= 10
    ensures Rejects(c, rtt)
  {
    var w, m := c.window, (lo + hi) / 2.0;
    var dlo := DistanceAt(w, m, (|w| - 1) / 2);
    var dhi := DistanceAt(w, m, |w| / 2);
    GateByRanks(c, rtt, lo, hi, dlo, dhi);
    if dlo > d { CountMono(w, Within(m, d), Nearer(m, dlo)); }
    if dhi > d { CountMono(w, Within(m, d), Nearer(m, dhi)); }
  }

  /** Half of the window is not enough: with five of ten round trips 10 ms away
      from the middle, 20 ms, one of 60 ms is rejected, though the margin of 10 ms
      would reach 94 ms. */
  lemma HalfIsNotEnough(c: Clock)
    requires c.samples >= 10
    requires c.window == [10000000.0, 20000000.0, 30000000.0, 20000000.0, 10000000.0,
                          20000000.0, 30000000.0, 20000000.0, 30000000.0, 20000000.0]
    ensures 2 * CountIf(c.window, AtLeast(20000000.0, 10000000.0)) == |c.window|
    ensures 60000000.0 <= 20000000.0 + Margin(10000000.0) && Rejects(c, 60000000.0)
  {
    var w, m := c.window, 20000000.0;
    Ten(w, Less(m));
    Ten(w, AtMost(m));
    Ten(w, Nearer(m, 0.0));
    Ten(w, Within(m, 0.0));
    Ten(w, Nearer(m, 10000000.0));
    Ten(w, Within(m, 10000000.0));
    Ten(w, AtLeast(m, 10000000.0));
    GateByRanks(c, 60000000.0, m, m, 0.0, 10000000.0);
  }

  function One(p: real -> bool, x: real): nat { if p(x) then 1 else 0 }

  lemma Ten(s: seq<real>, p: real -> bool)
    requires |s| == 10
    ensures CountIf(s, p) == One(p, s[0]) + One(p, s[1]) + One(p, s[2]) + One(p, s[3]) + One(p, s[4]) +
                             One(p, s[5]) + One(p, s[6]) + One(p, s[7]) + One(p, s[8]) + One(p, s[9])
  {
    Five(s[..5], p);
    Five(s[5..], p);
    assert s == s[..5] + s[5..];
    CountIfConcat(s[..5], s[5..], p);
  }

  lemma Five(s: seq<real>, p: real -> bool)
    requires |s| == 5
    ensures CountIf(s, p) == One(p, s[0]) + One(p, s[1]) + One(p, s[2]) + One(p, s[3]) + One(p, s[4])
  {
    var a, b, c, d := s[1..], s[2..], s[3..], s[4..];
    assert a[1..] == b && b[1..] == c && c[1..] == d && d[1..] == [];
    assert a[0] == s[1] && b[0] == s[2] && c[0] == s[3] && d[0] == s[4];
    assert CountIf(d, p) == One(p, s[4]);
    assert CountIf(c, p) == One(p, s[3]) + CountIf(d, p);
    assert CountIf(b, p) == One(p, s[2]) + CountIf(c, p);
    assert CountIf(a, p) == One(p, s[1]) + CountIf(b, p);
  }
}
