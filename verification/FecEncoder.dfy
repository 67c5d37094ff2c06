/** The sending half of the XOR error correction. */
module FecEncoding {
  import opened Bytes
  import opened Xor

  const MIN_GROUP: nat := 2
  const MAX_GROUP: nat := 16

  datatype Parity = Parity(payload: seq<byte>, lenXor: u16)

  /** The parity of a group, defined column by column: as long as the longest
      payload, each byte the XOR of that column of the zero-extended payloads. */
  function ParityOf(group: seq<seq<byte>>): Parity {
    LenXorIsU16(group);
    Parity(seq(Longest(group), i requires 0 <= i => Column(group, i)), LenXor(group))
  }

  /** XORs a payload into an accumulator, byte by byte, without growing it. */
  method XorInto(acc: seq<byte>, payload: seq<byte>) returns (r: seq<byte>)
    ensures |r| == |acc|
    ensures forall j :: 0 <= j < |acc| ==> r[j] == acc[j] ^ At(payload, j)
  {
    r := acc;
    for i := 0 to |payload|
      invariant |r| == |acc|
      invariant forall j :: 0 <= j < |acc| ==> r[j] == if j < i then acc[j] ^ payload[j] else acc[j]
    {
      if i < |r| {
        r := r[i := r[i] ^ payload[i]];
      }
    }
  }

  class FecEncoder {
    const groupSize: u8
    var parity: seq<byte>
    var lenXor: u16
    var count: nat
    /** The payloads fed since the last completed group. */
    ghost var Group: seq<seq<byte>>

    ghost predicate Valid()
      reads this
    {
      && MIN_GROUP <= groupSize <= MAX_GROUP
      && count == |Group| < groupSize
      && (count > 0 ==> Parity(parity, lenXor) == ParityOf(Group))
    }

    constructor (size: u8)
      requires MIN_GROUP <= size <= MAX_GROUP
      ensures Valid() && groupSize == size && Group == []
    {
      groupSize := size;
      parity, lenXor, count := [], 0, 0;
      Group := [];
    }

    /** Accumulates one payload; the group's parity comes out with its last one. */
    method Feed(payload: seq<byte>) returns (r: Option<Parity>)
      requires Valid()
      modifies this
      ensures Valid()
      ensures r == if |old(Group)| + 1 == groupSize then Some(ParityOf(old(Group) + [payload])) else None
      ensures Group == if r.Some? then [] else old(Group) + [payload]
    {
      ghost var was := Group;
      Group := Group + [payload];
      assert Group[..|Group| - 1] == was;
      if count == 0 {
        parity := seq(|payload|, i => 0);
        lenXor := 0;
      }
      if |payload| > |parity| {
        parity := parity + seq(|payload| - |parity|, i => 0);
      }
      assert forall j :: 0 <= j < |parity| ==> parity[j] == Column(was, j) by {
        if count > 0 { ColumnBeyond(was); }
      }
      var folded := XorInto(parity, payload);
      parity := folded;
      ParityExtends(was, payload, parity);
      LenXorIsU16(Group);
      lenXor := XorNat(lenXor, |payload| % 0x1_0000);
      count := count + 1;
      if count >= groupSize {
        count := 0;
        r := Some(Parity(parity, lenXor));
        parity := [];
        Group := [];
      } else {
        r := None;
      }
    }
  }

  lemma ParityExtends(group: seq<seq<byte>>, payload: seq<byte>, r: seq<byte>)
    requires |r| == Longest(group + [payload])
    requires forall j :: 0 <= j < |r| ==> r[j] == Column(group, j) ^ At(payload, j)
    ensures r == ParityOf(group + [payload]).payload
  {
    assert (group + [payload])[..|group|] == group;
  }

  /** Past the longest payload every column is zero. */
  lemma ColumnBeyond(ps: seq<seq<byte>>)
    ensures forall j: nat :: j >= Longest(ps) ==> Column(ps, j) == 0
  {
  }
}
