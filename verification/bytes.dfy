/**
 * Raw bytes, unsigned 32-bit words and in-place overwrites of a byte stream:
 * the vocabulary shared by the texture buffers and the binary name-table codec.
 */
module Bytes {

  type byte = x: int | 0 <= x < 0x100

  type u32 = x: int | 0 <= x < 0x1_0000_0000

  const U32_LIMIT: int := 0x1_0000_0000

  /** C#'s `int`: a signed 32-bit value. */
  type i32 = x: int | -0x8000_0000 <= x < 0x8000_0000

  /**
   * An `int` product as C# computes it unchecked: the mathematical value
   * wrapped into the signed 32-bit range, i.e. the one `i32` congruent to `x`
   * modulo 2^32.
   */
  function WrapI32(x: int): (r: i32)
    ensures (x - r) % U32_LIMIT == 0
    ensures -0x8000_0000 <= x < 0x8000_0000 ==> r == x
  {
    var m := x % U32_LIMIT;
    if m < 0x8000_0000 then m else m - U32_LIMIT
  }

  /** `n` zero bytes, as a freshly allocated `byte[n]` holds. */
  function Zeros(n: nat): (r: seq<byte>)
    ensures |r| == n
    ensures forall i :: 0 <= i < n ==> r[i] == 0
  {
    seq(n, _ => 0)
  }

  /**
   * The four little-endian bytes of `v` taken as an unsigned 32-bit value,
   * i.e. after the source's `(uint)` conversion.
   */
  function EncodeU32(v: int): (r: seq<byte>)
    ensures |r| == 4
  {
    var w := v % U32_LIMIT;
    [w % 0x100, w / 0x100 % 0x100, w / 0x1_0000 % 0x100, w / 0x100_0000]
  }

  function DecodeU32(b: seq<byte>): u32
    requires |b| == 4
  {
    b[0] as int + 0x100 * (b[1] as int) + 0x1_0000 * (b[2] as int) + 0x100_0000 * (b[3] as int)
  }

  /** Decoding an encoded word gives back the word modulo 2^32. */
  lemma DecodeEncodeU32(v: int)
    ensures DecodeU32(EncodeU32(v)) == v % U32_LIMIT
  {
    var w := v % U32_LIMIT;
    var q1 := w / 0x100;
    var q2 := q1 / 0x100;
    var q3 := q2 / 0x100;
    assert w == w % 0x100 + 0x100 * q1;
    assert q1 == q1 % 0x100 + 0x100 * q2;
    assert q2 == q2 % 0x100 + 0x100 * q3;
    assert w / 0x1_0000 == q2;
    assert w / 0x100_0000 == q3;
  }

  /**
   * The stream `buf` after writing `bytes` at position `pos`: bytes already
   * present are overwritten and the stream grows when the write passes its end.
   */
  function Overwrite(buf: seq<byte>, pos: nat, bytes: seq<byte>): (r: seq<byte>)
    requires pos <= |buf|
    ensures |r| == if pos + |bytes| <= |buf| then |buf| else pos + |bytes|
    ensures forall i :: 0 <= i < |r| && pos <= i < pos + |bytes| ==> r[i] == bytes[i - pos]
    ensures forall i :: 0 <= i < |r| && !(pos <= i < pos + |bytes|) ==> r[i] == buf[i]
    ensures r[pos..pos + |bytes|] == bytes
  {
    buf[..pos] + bytes + if pos + |bytes| <= |buf| then buf[pos + |bytes|..] else []
  }

  /** Two adjacent writes are one write of the concatenation. */
  lemma OverwriteTwice(buf: seq<byte>, pos: nat, x: seq<byte>, y: seq<byte>)
    requires pos <= |buf|
    ensures pos + |x| <= |Overwrite(buf, pos, x)|
    ensures Overwrite(Overwrite(buf, pos, x), pos + |x|, y) == Overwrite(buf, pos, x + y)
  {
    var a := Overwrite(Overwrite(buf, pos, x), pos + |x|, y);
    var b := Overwrite(buf, pos, x + y);
    assert |a| == |b|;
    forall i | 0 <= i < |a|
      ensures a[i] == b[i]
    {
      if pos <= i < pos + |x| {
        assert (x + y)[i - pos] == x[i - pos];
      } else if pos + |x| <= i < pos + |x| + |y| {
        assert (x + y)[i - pos] == y[i - pos - |x|];
      }
    }
  }

  /** Filling a zeroed tail from its front: the written bytes join the prefix and the tail shrinks. */
  lemma OverwriteZeros(prefix: seq<byte>, n: nat, bytes: seq<byte>)
    requires |bytes| <= n
    ensures Overwrite(prefix + Zeros(n), |prefix|, bytes) == (prefix + bytes) + Zeros(n - |bytes|)
  {
    var a := Overwrite(prefix + Zeros(n), |prefix|, bytes);
    var b := (prefix + bytes) + Zeros(n - |bytes|);
    assert |a| == |b|;
    forall i | 0 <= i < |a|
      ensures a[i] == b[i]
    {
      if i < |prefix| {
        assert (prefix + Zeros(n))[i] == prefix[i];
      } else if i >= |prefix| + |bytes| {
        assert (prefix + Zeros(n))[i] == 0;
      }
    }
  }

  /**
   * Span.CopyTo: copies `src` into `dst` starting at index `at`; the array
   * afterwards is the old contents with `src` written over them at `at`.
   */
  method CopyInto(src: seq<byte>, dst: array<byte>, at: nat)
    requires at + |src| <= dst.Length
    modifies dst
    ensures dst[..] == Overwrite(old(dst[..]), at, src)
  {
    forall k | 0 <= k < |src| {
      dst[at + k] := src[k];
    }
  }
}
