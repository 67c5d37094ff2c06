/** Order statistics of the RTT window. */
module Medians {

  function Insert(x: real, s: seq<real>): seq<real> {
    if s == [] then [x] else if x <= s[0] then [x] + s else [s[0]] + Insert(x, s[1..])
  }

  /** The standard library's sort, on finite values. */
  function Sort(s: seq<real>): (r: seq<real>) {
    if s == [] then [] else Insert(s[0], Sort(s[1..]))
  }

  ghost predicate Sorted(s: seq<real>) {
    forall i, j :: 0 <= i < j < |s| ==> s[i] <= s[j]
  }

  /** Number of values in `[lo, hi]`. */
  function CountIn(s: seq<real>, lo: real, hi: real): (n: nat)
    ensures n <= |s|
  {
    if s == [] then 0 else (if lo <= s[0] <= hi then 1 else 0) + CountIn(s[1..], lo, hi)
  }

  function MiddleOf(sorted: seq<real>): real
    requires sorted != []
  {
    var n := |sorted|;
    if n % 2 == 1 then sorted[n / 2] else (sorted[n / 2 - 1] + sorted[n / 2]) / 2.0
  }

  function Median(s: seq<real>): real
    requires s != []
  {
    SortFacts(s);
    MiddleOf(Sort(s))
  }

  function Abs(x: real): real { if x < 0.0 then -x else x }

  function Deviations(s: seq<real>, m: real): (r: seq<real>)
    ensures |r| == |s|
  {
    if s == [] then [] else [Abs(s[0] - m)] + Deviations(s[1..], m)
  }

  lemma {:induction false} InsertAbove(x: real, s: seq<real>, lb: real)
    requires lb <= x && forall k :: 0 <= k < |s| ==> lb <= s[k]
    ensures forall k :: 0 <= k < |Insert(x, s)| ==> lb <= Insert(x, s)[k]
  {
    if s != [] { InsertAbove(x, s[1..], lb); }
  }

  lemma {:induction false} InsertSorted(x: real, s: seq<real>)
    requires Sorted(s)
    ensures Sorted(Insert(x, s))
  {
    if s != [] && x > s[0] {
      InsertSorted(x, s[1..]);
      InsertAbove(x, s[1..], s[0]);
    }
  }

  lemma {:induction false} InsertContents(x: real, s: seq<real>)
    ensures multiset(Insert(x, s)) == multiset(s) + multiset{x}
    ensures |Insert(x, s)| == |s| + 1
  {
    if s != [] && x > s[0] {
      InsertContents(x, s[1..]);
      assert s == [s[0]] + s[1..];
    }
  }

  /** `Sort` is a sorting permutation. */
  lemma {:induction false} SortFacts(s: seq<real>)
    ensures Sorted(Sort(s))
    ensures multiset(Sort(s)) == multiset(s)
    ensures |Sort(s)| == |s|
  {
    hide Insert;
    if s != [] {
      SortFacts(s[1..]);
      InsertSorted(s[0], Sort(s[1..]));
      InsertContents(s[0], Sort(s[1..]));
      assert s == [s[0]] + s[1..];
    }
  }

  lemma {:induction false} CountConcat(a: seq<real>, b: seq<real>, lo: real, hi: real)
    ensures CountIn(a + b, lo, hi) == CountIn(a, lo, hi) + CountIn(b, lo, hi)
  {
    if a == [] {
      assert a + b == b;
    } else {
      CountConcat(a[1..], b, lo, hi);
      assert (a + b)[1..] == a[1..] + b;
    }
  }

  lemma {:induction false} CountInsert(x: real, s: seq<real>, lo: real, hi: real)
    ensures CountIn(Insert(x, s), lo, hi) == CountIn([x] + s, lo, hi)
  {
    assert ([x] + s)[1..] == s;
    if s != [] && x > s[0] {
      CountInsert(x, s[1..], lo, hi);
      assert ([x] + s[1..])[1..] == s[1..];
      assert ([s[0]] + Insert(x, s[1..]))[1..] == Insert(x, s[1..]);
    }
  }

  lemma {:induction false} CountSort(s: seq<real>, lo: real, hi: real)
    ensures CountIn(Sort(s), lo, hi) == CountIn(s, lo, hi)
  {
    if s != [] {
      CountSort(s[1..], lo, hi);
      CountInsert(s[0], Sort(s[1..]), lo, hi);
      assert ([s[0]] + Sort(s[1..]))[1..] == Sort(s[1..]);
    }
  }

  lemma {:induction false} CountAll(s: seq<real>, lo: real, hi: real)
    requires forall i :: 0 <= i < |s| ==> lo <= s[i] <= hi
    ensures CountIn(s, lo, hi) == |s|
  {
    if s != [] { CountAll(s[1..], lo, hi); }
  }

  lemma {:induction false} CountNone(s: seq<real>, lo: real, hi: real)
    requires forall i :: 0 <= i < |s| ==> !(lo <= s[i] <= hi)
    ensures CountIn(s, lo, hi) == 0
  {
    if s != [] { CountNone(s[1..], lo, hi); }
  }

  /** A strict majority of the values in `[lo, hi]` puts the median there. */
  lemma MajorityMedian(s: seq<real>, lo: real, hi: real)
    requires 2 * CountIn(s, lo, hi) > |s|
    ensures lo <= Median(s) <= hi
  {
    var t, n := Sort(s), |s|;
    SortFacts(s);
    CountSort(s, lo, hi);
    MiddleIn(t, lo, hi, n / 2);
    if n % 2 == 0 {
      MiddleIn(t, lo, hi, n / 2 - 1);
    }
  }

  lemma MiddleIn(t: seq<real>, lo: real, hi: real, k: nat)
    requires Sorted(t) && 2 * CountIn(t, lo, hi) > |t|
    requires k < |t| && 2 * k <= |t| <= 2 * (k + 1)
    ensures lo <= t[k] <= hi
  {
    assert t == t[..k] + t[k..];
    CountConcat(t[..k], t[k..], lo, hi);
    if t[k] > hi {
      CountNone(t[k..], lo, hi);
      assert false;
    }
    assert t == t[..k + 1] + t[k + 1..];
    CountConcat(t[..k + 1], t[k + 1..], lo, hi);
    if t[k] < lo {
      CountNone(t[..k + 1], lo, hi);
      assert false;
    }
  }

  /** Values close together stay close to any point among them. */
  lemma {:induction false} CountDeviations(s: seq<real>, lo: real, hi: real, m: real)
    requires lo <= m <= hi
    ensures CountIn(Deviations(s, m), 0.0, hi - lo) >= CountIn(s, lo, hi)
  {
    if s != [] { CountDeviations(s[1..], lo, hi, m); }
  }

  /** Copies values out and takes their median. */
  method SortedAndMedian(s: seq<real>) returns (sorted: seq<real>, m: real)
    requires s != []
    ensures sorted == Sort(s) && m == Median(s)
  {
    var v := new real[|s|](i requires 0 <= i < |s| => s[i]);
    assert v[..] == s;
    m := MedianOf(v);
    sorted := v[..];
  }

  /** `median_of`: sorts the slice in place and reads its middle. */
  method MedianOf(v: array<real>) returns (m: real)
    requires v.Length > 0
    modifies v
    ensures v[..] == Sort(old(v[..])) && m == Median(old(v[..]))
  {
    ghost var was := v[..];
    SortFacts(v[..]);
    var sorted := Sort(v[..]);
    for i := 0 to v.Length
      invariant forall k :: 0 <= k < i ==> v[k] == sorted[k]
    {
      v[i] := sorted[i];
    }
    assert v[..] == sorted;
    var n := v.Length;
    m := if n % 2 == 1 then v[n / 2] else (v[n / 2 - 1] + v[n / 2]) / 2.0;
  }
}
