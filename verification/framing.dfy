/**
 Byte framing of 16-bit register transfers on the two-wire bus: a write sends
 the register pointer followed by the value most significant byte first, and a
 read returns two bytes that are reassembled in the same order.
 */
module Framing {

  /** Most significant byte, `value >> 8`. */
  function Msb(v: bv16): bv8 {
    (v >> 8) as bv8
  }

  /** Least significant byte, `value & 0xFF`. */
  function Lsb(v: bv16): bv8 {
    (v & 0xFF) as bv8
  }

  /** Reassembly of a read: `(hi << 8) | lo`. */
  function Assemble(hi: bv8, lo: bv8): bv16 {
    ((hi as bv16) << 8) | (lo as bv16)
  }

  /** The three bytes writeReg puts on the bus. */
  function WriteFrame(reg: bv8, v: bv16): (frame: seq<bv8>)
    ensures |frame| == 3 && frame[0] == reg
    ensures Assemble(frame[1], frame[2]) == v
  {
    SplitAssemble(v);
    [reg, Msb(v), Lsb(v)]
  }

  /** Splitting a word into its two bytes and reassembling them is the identity. */
  lemma SplitAssemble(v: bv16)
    ensures Assemble(Msb(v), Lsb(v)) == v
  {
  }

  /** Reassembling two bytes and splitting the word gives the bytes back. */
  lemma AssembleSplit(hi: bv8, lo: bv8)
    ensures Msb(Assemble(hi, lo)) == hi && Lsb(Assemble(hi, lo)) == lo
  {
  }

  /** Different (register, value) pairs never produce the same frame. */
  lemma WriteFrameInjective(r1: bv8, v1: bv16, r2: bv8, v2: bv16)
    requires WriteFrame(r1, v1) == WriteFrame(r2, v2)
    ensures r1 == r2 && v1 == v2
  {
    assert WriteFrame(r1, v1)[0] == WriteFrame(r2, v2)[0];
    assert WriteFrame(r1, v1)[1] == WriteFrame(r2, v2)[1];
    assert WriteFrame(r1, v1)[2] == WriteFrame(r2, v2)[2];
  }
}
