/** Little-endian integers in byte sequences. */
module Bytes {
  import opened Values

  type Byte = b: nat | b < 256

  /** `n` bytes of `v`, low byte first; higher bits are dropped. */
  function Put(n: nat, v: nat): (bs: seq<Byte>)
    ensures |bs| == n
  {
    if n == 0 then [] else [v % 256] + Put(n - 1, v / 256)
  }

  function Get(bs: seq<Byte>): nat {
    if bs == [] then 0 else bs[0] + 256 * Get(bs[1..])
  }

  function Pow256(n: nat): (p: nat)
    ensures p >= 1
  {
    if n == 0 then 1 else 256 * Pow256(n - 1)
  }

  lemma {:induction false} GetPut(n: nat, v: nat)
    requires v < Pow256(n)
    ensures Get(Put(n, v)) == v
  {
    if n > 0 {
      assert Put(n, v)[1..] == Put(n - 1, v / 256);
      GetPut(n - 1, v / 256);
    }
  }

  /** The field widths of the file format. */
  lemma Widths()
    ensures Pow256(1) == 256 && Pow256(2) == TWO_16 && Pow256(4) == TWO_32 && Pow256(8) == TWO_64
  {
    assert Pow256(3) == 0x100_0000;
    assert Pow256(5) == 0x100_0000_0000;
    assert Pow256(6) == 0x1_0000_0000_0000;
    assert Pow256(7) == 0x100_0000_0000_0000;
  }

  /** Two's complement reading of a 32-bit field. */
  function Signed32(v: nat): int { if v < TWO_31 then v else v - TWO_32 }

  function PutU16(v: nat): (bs: seq<Byte>) ensures |bs| == 2 { Put(2, v) }

  function PutU32(v: nat): (bs: seq<Byte>) ensures |bs| == 4 { Put(4, v) }

  function PutI32(v: int): (bs: seq<Byte>) ensures |bs| == 4 { Put(4, v % TWO_32) }

  function PutI64(v: int): (bs: seq<Byte>) ensures |bs| == 8 { Put(8, v % TWO_64) }

  /** What a reader finds at `p`, if the field does not run past `end`. */
  function Field(buf: seq<Byte>, p: nat, n: nat, end: nat): Option<nat>
    requires end <= |buf|
  {
    if p + n > end then None else Some(Get(buf[p..p + n]))
  }

  lemma FieldOfPut(buf: seq<Byte>, p: nat, n: nat, end: nat, v: nat)
    requires p + n <= end <= |buf| && buf[p..p + n] == Put(n, v) && v < Pow256(n)
    ensures Field(buf, p, n, end) == Some(v)
  {
    GetPut(n, v);
  }

  lemma SignedOfWrapped(v: int)
    ensures -TWO_31 <= v < TWO_31 ==> Signed32(v % TWO_32) == v
    ensures -TWO_63 <= v < TWO_63 ==> Signed(Pattern(v)) == v
  {
  }
}
