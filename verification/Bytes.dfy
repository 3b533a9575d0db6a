/** Byte strings, and little-endian integers in them: a number written in a fixed number of bytes,
    and read back from any place in a buffer where that many bytes lie. The readers give no value
    when they would read past the end. */
module Bytes {
  import opened Outcomes

  type byte = n: int | 0 <= n < 256

  type bytes = seq<byte>

  function Pow256(k: nat): nat {
    if k == 0 then 1 else 256 * Pow256(k - 1)
  }

  function Le(n: nat, k: nat): (b: bytes)
    ensures |b| == k
  {
    if k == 0 then [] else [n % 256] + Le(n / 256, k - 1)
  }

  function FromLe(b: bytes): nat {
    if b == [] then 0 else b[0] + 256 * FromLe(b[1..])
  }

  lemma {:induction false} LeRoundTrip(n: nat, k: nat)
    requires n < Pow256(k)
    ensures FromLe(Le(n, k)) == n
  {
    if k > 0 {
      LeRoundTrip(n / 256, k - 1);
      assert Le(n, k)[1..] == Le(n / 256, k - 1);
    }
  }

  lemma {:induction false} FromLeRoundTrip(b: bytes)
    ensures FromLe(b) < Pow256(|b|) && Le(FromLe(b), |b|) == b
  {
    if b != [] {
      FromLeRoundTrip(b[1..]);
      assert b == [b[0]] + b[1..];
    }
  }

  lemma Widths()
    ensures Pow256(4) == 0x1_0000_0000 && Pow256(8) == 0x1_0000_0000_0000_0000
  {
    assert Pow256(4) == 256 * (256 * (256 * (256 * Pow256(0))));
    assert Pow256(8) == 256 * (256 * (256 * (256 * Pow256(4))));
  }

  /** A slice of a part that lies at `offset`. */
  lemma SubSlice(b: bytes, offset: nat, part: bytes, i: nat, j: nat)
    requires offset + |part| <= |b| && b[offset..offset + |part|] == part && i <= j <= |part|
    ensures b[offset + i..offset + j] == part[i..j]
  {
    forall k | 0 <= k < j - i ensures b[offset + i..offset + j][k] == part[i..j][k] {
      assert b[offset..offset + |part|][i + k] == b[offset + (i + k)];
    }
  }

  /** The `width` bytes at `offset`, or none when they do not all lie in the buffer. */
  function ReadUint(b: bytes, offset: int, width: nat): Option<nat> {
    if offset < 0 || offset + width > |b| then None else Some(FromLe(b[offset..offset + width]))
  }

  /** A 64-bit pattern read as two's complement. */
  function Signed64(n: nat): int {
    if n < 0x8000_0000_0000_0000 then n else n - 0x1_0000_0000_0000_0000
  }

  function ReadInt64(b: bytes, offset: int): Option<int> {
    var n := ReadUint(b, offset, 8);
    if n.None? then None else Some(Signed64(n.value))
  }
}
