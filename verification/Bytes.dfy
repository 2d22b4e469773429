/** Byte strings, and the little-endian and variable-length integers of Bitcoin's serialization. */
module Bytes {
  type Byte = b: int | 0 <= b < 256

  /** The result of a reader: malformed input, or a value and the offset after it. */
  datatype Read<+T> = Short | Got(val: T, off: nat) {
    predicate IsFailure() { Short? }

    function PropagateFailure<U>(): Read<U>
      requires Short?
    {
      Short
    }

    function Extract(): (T, nat)
      requires Got?
    {
      (val, off)
    }
  }

  function Pow256(k: nat): (p: nat)
    ensures p > 0
  {
    if k == 0 then 1 else 256 * Pow256(k - 1)
  }

  /** The low `k` bytes of `n`, least significant first. */
  function LE(n: nat, k: nat): (s: seq<Byte>)
    ensures |s| == k
    decreases k
  {
    if k == 0 then [] else [n % 256] + LE(n / 256, k - 1)
  }

  function FromLE(s: seq<Byte>): nat {
    if s == [] then 0 else s[0] + 256 * FromLE(s[1..])
  }

  lemma {:induction false} FromLEBound(s: seq<Byte>)
    ensures FromLE(s) < Pow256(|s|)
  {
    if s != [] { FromLEBound(s[1..]); }
  }

  lemma {:induction false} FromLEOfLE(n: nat, k: nat)
    requires n < Pow256(k)
    ensures FromLE(LE(n, k)) == n
    decreases k
  {
    if k > 0 {
      FromLEOfLE(n / 256, k - 1);
      assert LE(n, k)[1..] == LE(n / 256, k - 1);
    }
  }

  lemma Pow256Values()
    ensures Pow256(1) == 0x100 && Pow256(2) == 0x1_0000
    ensures Pow256(4) == 0x1_0000_0000 && Pow256(8) == 0x1_0000_0000_0000_0000
  {
    assert Pow256(3) == 0x100_0000 && Pow256(4) == 0x1_0000_0000;
    assert Pow256(5) == 0x100_0000_0000 && Pow256(6) == 0x1_0000_0000_0000;
    assert Pow256(7) == 0x100_0000_0000_0000;
  }

  // ---- reading at an offset -------------------------------------------

  /** `s` stands in `buf` at `off`. */
  ghost predicate At(buf: seq<Byte>, off: nat, s: seq<Byte>) {
    off + |s| <= |buf| && buf[off..off + |s|] == s
  }

  lemma AtSplit(buf: seq<Byte>, off: nat, s: seq<Byte>, t: seq<Byte>)
    requires At(buf, off, s + t)
    ensures At(buf, off, s) && At(buf, off + |s|, t)
  {
    assert buf[off..off + |s|] == (s + t)[..|s|];
    assert buf[off + |s|..off + |s| + |t|] == (s + t)[|s|..];
  }

  lemma AtWhole(buf: seq<Byte>)
    ensures At(buf, 0, buf)
  {
  }

  /** A fixed-width little-endian integer. */
  function RdLE(buf: seq<Byte>, off: nat, k: nat): (r: Read<nat>)
    ensures r.Got? ==> r.off == off + k <= |buf|
  {
    if off + k > |buf| then Short else Got(FromLE(buf[off..off + k]), off + k)
  }

  lemma RdLEAt(buf: seq<Byte>, off: nat, n: nat, k: nat)
    requires At(buf, off, LE(n, k)) && n < Pow256(k)
    ensures RdLE(buf, off, k) == Got(n, off + k)
  {
    FromLEOfLE(n, k);
  }

  lemma RdLEBound(buf: seq<Byte>, off: nat, k: nat)
    ensures RdLE(buf, off, k).Got? ==> RdLE(buf, off, k).val < Pow256(k)
  {
    if off + k <= |buf| { FromLEBound(buf[off..off + k]); }
  }

  /** `k` raw bytes. */
  function RdBytes(buf: seq<Byte>, off: nat, k: nat): (r: Read<seq<Byte>>)
    ensures r.Got? ==> r.off == off + k <= |buf| && |r.val| == k
  {
    if off + k > |buf| then Short else Got(buf[off..off + k], off + k)
  }

  lemma RdBytesAt(buf: seq<Byte>, off: nat, s: seq<Byte>)
    requires At(buf, off, s)
    ensures RdBytes(buf, off, |s|) == Got(s, off + |s|)
  {
  }

  // ---- variable-length integers ---------------------------------------

  const U64_END: nat := 0x1_0000_0000_0000_0000

  function Varint(n: nat): (s: seq<Byte>)
    ensures |s| == VarintSize(n)
  {
    if n < 0xfd then [n]
    else if n <= 0xffff then [0xfd] + LE(n, 2)
    else if n <= 0xffff_ffff then [0xfe] + LE(n, 4)
    else [0xff] + LE(n, 8)
  }

  function VarintSize(n: nat): nat {
    if n < 0xfd then 1 else if n <= 0xffff then 3 else if n <= 0xffff_ffff then 5 else 9
  }

  function RdVarint(buf: seq<Byte>, off: nat): (r: Read<nat>)
    ensures r.Got? ==> off < r.off <= |buf|
  {
    if off >= |buf| then Short
    else
      var b := buf[off];
      if b < 0xfd then Got(b, off + 1)
      else RdLE(buf, off + 1, if b == 0xfd then 2 else if b == 0xfe then 4 else 8)
  }

  /** Reading back a printed length gives the length, for every 64-bit value. */
  lemma RdVarintAt(buf: seq<Byte>, off: nat, n: nat)
    requires At(buf, off, Varint(n)) && n < U64_END
    ensures RdVarint(buf, off) == Got(n, off + VarintSize(n))
  {
    Pow256Values();
    assert buf[off] == Varint(n)[0];
    if n >= 0xfd {
      var k := if n <= 0xffff then 2 else if n <= 0xffff_ffff then 4 else 8;
      AtSplit(buf, off, [Varint(n)[0]], LE(n, k));
      RdLEAt(buf, off + 1, n, k);
    }
  }

  lemma RdVarintBound(buf: seq<Byte>, off: nat)
    ensures RdVarint(buf, off).Got? ==> RdVarint(buf, off).val < U64_END
  {
    Pow256Values();
    RdLEBound(buf, off + 1, 2);
    RdLEBound(buf, off + 1, 4);
    RdLEBound(buf, off + 1, 8);
  }

  /** The value bits of a signed 64-bit integer, and back. */
  function AsU64(i: int): (v: nat)
    requires -0x8000_0000_0000_0000 <= i < 0x8000_0000_0000_0000
    ensures v < U64_END
  {
    if i < 0 then i + U64_END else i
  }

  function AsI64(v: nat): (i: int)
    requires v < U64_END
    ensures -0x8000_0000_0000_0000 <= i < 0x8000_0000_0000_0000
    ensures AsU64(i) == v
  {
    if v < 0x8000_0000_0000_0000 then v else v - U64_END
  }
}
