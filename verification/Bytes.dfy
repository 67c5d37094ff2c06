/** Fixed-width integers, bytes and the option type shared by every component. */
module Bytes {

  type byte = bv8
  type u8 = x: int | 0 <= x < 0x100
  type u16 = x: int | 0 <= x < 0x1_0000
  type u64 = x: int | 0 <= x < 0x1_0000_0000_0000_0000

  datatype Option<+T> = None | Some(value: T)

  /** `wrapping_add` and `wrapping_sub` on u16: Dafny's `%` is never negative. */
  function WrapAdd(a: u16, b: int): u16 { (a + b) % 0x1_0000 }

  function WrapSub(a: u16, b: int): u16 { (a - b) % 0x1_0000 }

  /** A list of lists, flattened in order. */
  function Concat<T>(xss: seq<seq<T>>): seq<T> {
    if xss == [] then [] else Concat(xss[..|xss| - 1]) + xss[|xss| - 1]
  }

  lemma {:induction false} ConcatFront<T>(xss: seq<seq<T>>)
    requires xss != []
    ensures Concat(xss) == xss[0] + Concat(xss[1..])
  {
    if |xss| > 1 {
      ConcatFront(xss[..|xss| - 1]);
      assert xss[..|xss| - 1][1..] == xss[1..][..|xss| - 2];
    }
  }

  lemma {:induction false} ConcatPlus<T>(a: seq<seq<T>>, b: seq<seq<T>>)
    ensures Concat(a + b) == Concat(a) + Concat(b)
  {
    if b == [] {
      assert a + b == a;
    } else {
      ConcatPlus(a, b[..|b| - 1]);
      assert (a + b)[..|a + b| - 1] == a + b[..|b| - 1];
    }
  }
}
