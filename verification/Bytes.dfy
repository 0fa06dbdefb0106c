// Fixed-width words and the little-endian byte layout shared by every wire
// format in the repository.
module Bytes {
  type byte = x: int | 0 <= x < 0x100
  type u16 = x: int | 0 <= x < 0x1_0000
  type u32 = x: int | 0 <= x < 0x1_0000_0000
  type u64 = x: int | 0 <= x < 0x1_0000_0000_0000_0000
  type i64 = x: int | -0x8000_0000_0000_0000 <= x < 0x8000_0000_0000_0000

  function Pow256(n: nat): (p: nat)
    ensures p > 0
  {
    if n == 0 then 1 else 256 * Pow256(n - 1)
  }

  /** The low n bytes of value, least significant first. */
  function LE(value: nat, n: nat): (bytes: seq<byte>)
    ensures |bytes| == n
    decreases n
  {
    if n == 0 then [] else [value % 256] + LE(value / 256, n - 1)
  }

  function ReadLE(bytes: seq<byte>): nat
    decreases |bytes|
  {
    if bytes == [] then 0 else bytes[0] + 256 * ReadLE(bytes[1..])
  }

  /** Reading back what was written returns the value reduced to n bytes. */
  lemma {:induction false} ReadWritten(value: nat, n: nat)
    ensures value < Pow256(n) ==> ReadLE(LE(value, n)) == value
    decreases n
  {
    if n > 0 {
      assert LE(value, n)[1..] == LE(value / 256, n - 1);
      ReadWritten(value / 256, n - 1);
    }
  }

  lemma {:induction false} WrittenRead(bytes: seq<byte>)
    ensures ReadLE(bytes) < Pow256(|bytes|)
    ensures LE(ReadLE(bytes), |bytes|) == bytes
    decreases |bytes|
  {
    if bytes != [] {
      WrittenRead(bytes[1..]);
      assert bytes == [bytes[0]] + bytes[1..];
    }
  }

  lemma Widths()
    ensures Pow256(2) == 0x1_0000
    ensures Pow256(4) == 0x1_0000_0000
    ensures Pow256(8) == 0x1_0000_0000_0000_0000
  {
  }
}
