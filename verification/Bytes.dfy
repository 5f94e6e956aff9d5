/** Numbers and their big-endian byte strings, shared by the counter-mode cipher and the
    address comparison. */
module Bytes {
  type byte = x: int | 0 <= x < 256

  /** `n` as `len` bytes, most significant first; what does not fit is dropped. */
  function BigEndian(n: nat, len: nat): (s: seq<byte>)
    ensures |s| == len
  {
    if len == 0 then [] else BigEndian(n / 256, len - 1) + [n % 256]
  }

  function FromBigEndian(s: seq<byte>): nat {
    if s == [] then 0 else FromBigEndian(s[..|s| - 1]) * 256 + s[|s| - 1]
  }

  function Pow256(n: nat): (r: nat)
    ensures r > 0
  {
    if n == 0 then 1 else 256 * Pow256(n - 1)
  }

  function Pow2(n: nat): (r: nat)
    ensures r > 0
  {
    if n == 0 then 1 else 2 * Pow2(n - 1)
  }

  lemma {:induction false} BigEndianReadsBack(n: nat, len: nat)
    requires n < Pow256(len)
    ensures FromBigEndian(BigEndian(n, len)) == n
  {
    if len > 0 {
      BigEndianReadsBack(n / 256, len - 1);
      assert BigEndian(n, len)[..len - 1] == BigEndian(n / 256, len - 1);
    }
  }

  /** Only the low part reaches the last byte. */
  lemma LowByte(q: nat, lo: nat)
    ensures (256 * q + lo) / 256 == q + lo / 256 && (256 * q + lo) % 256 == lo % 256
  {
  }

  lemma Rotate(x: nat, y: nat)
    ensures x * (256 * y) == 256 * (x * y)
  {
  }

  lemma {:induction false} BigEndianJoins(hi: nat, lo: nat, m: nat, len: nat)
    requires lo < Pow256(m)
    ensures BigEndian(hi * Pow256(m) + lo, len + m) == BigEndian(hi, len) + BigEndian(lo, m)
  {
    if m > 0 {
      var n := hi * Pow256(m) + lo;
      var q := hi * Pow256(m - 1);
      Rotate(hi, Pow256(m - 1));
      assert n == 256 * q + lo;
      LowByte(q, lo);
      BigEndianJoins(hi, lo / 256, m - 1, len);
    }
  }

  lemma {:induction false} PowJoins(m: nat, n: nat)
    ensures Pow256(m + n) == Pow256(m) * Pow256(n)
  {
    if n > 0 {
      PowJoins(m, n - 1);
      Rotate(Pow256(m), Pow256(n - 1));
    }
  }
}
