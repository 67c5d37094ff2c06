/** Audio packets as they travel. */
module Packets {
  import opened Bytes

  datatype Flags = Flags(first: bool, last: bool, fec: bool, formatChange: bool)

  const NO_FLAGS := Flags(false, false, false, false)
  const FEC_FLAG := Flags(false, false, true, false)

  datatype Header = Header(
    version: nat,
    flags: Flags,
    format: nat,
    sequence: u16,
    streamId: nat,
    ptsNs: u64,
    sampleOffset: u64,
    payloadLen: u16,
    fecGroupSize: u8,
    fecIndex: u8,
    fecLenXor: u16)

  datatype Packet = Packet(header: Header, payload: seq<byte>)

  function Payloads(ps: seq<Packet>): (r: seq<seq<byte>>)
    ensures |r| == |ps|
  {
    seq(|ps|, i requires 0 <= i < |ps| => ps[i].payload)
  }
}
