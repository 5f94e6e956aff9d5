/** Comparing memory without branching on its contents (di_ops.c). */
module DiOps {
  import opened Bytes

  function Minus(x: int, y: int): int {
    x - y
  }

  /** What memcmp promises: the difference at the first place that differs, zero without one. */
  function MemCmp(a: seq<byte>, b: seq<byte>): (r: int)
    requires |a| == |b|
    ensures r == 0 <==> a == b
  {
    if a == [] then 0
    else if a[0] != b[0] then Minus(a[0], b[0])
    else
      assert a == [a[0]] + a[1..] && b == [b[0]] + b[1..];
      MemCmp(a[1..], b[1..])
  }

  lemma {:induction false} MemCmpAt(a: seq<byte>, b: seq<byte>, k: nat)
    requires |a| == |b| && k < |a| && a[..k] == b[..k] && a[k] != b[k]
    ensures MemCmp(a, b) == Minus(a[k], b[k])
  {
    if k > 0 {
      assert a[..k][0] == b[..k][0];
      assert a[1..][..k - 1] == a[..k][1..] && b[1..][..k - 1] == b[..k][1..];
      MemCmpAt(a[1..], b[1..], k - 1);
    }
  }

  lemma {:induction false} FirstDifference(a: seq<byte>, b: seq<byte>) returns (k: nat)
    requires |a| == |b| && a != b
    ensures k < |a| && a[..k] == b[..k] && a[k] != b[k]
  {
    k := 0;
    while k < |a| && a[k] == b[k]
      invariant k <= |a| && a[..k] == b[..k]
    {
      k := k + 1;
    }
    assert a[..|a|] == a && b[..|b|] == b;
  }

  // ---- Two's complement: a number is its low bits and, above them, its sign

  const INT_BITS := 31  // the bits of an `int` below its sign

  function Sign(x: int): int {
    if x < 0 then -1 else 0
  }

  function BitXor(x: int, y: int, n: nat): int
    decreases n
  {
    if n == 0 then (if Sign(x) == Sign(y) then 0 else -1)
    else 2 * BitXor(x / 2, y / 2, n - 1) + (if x % 2 == y % 2 then 0 else 1)
  }

  function BitAnd(x: int, y: int, n: nat): int
    decreases n
  {
    if n == 0 then (if x < 0 && y < 0 then -1 else 0)
    else 2 * BitAnd(x / 2, y / 2, n - 1) + (if x % 2 == 1 && y % 2 == 1 then 1 else 0)
  }

  /** ">> 8" that keeps the sign: division by 256, rounding down. */
  function ShiftRight8(x: int): int {
    x / 256
  }

  /** The difference of two bytes has no bit beyond theirs, and is zero just for equal bytes. */
  lemma {:induction false} XorOfSmall(x: nat, y: nat, k: nat, n: nat)
    requires x < Pow2(k) && y < Pow2(k) && k <= n
    ensures 0 <= BitXor(x, y, n) < Pow2(k)
    ensures BitXor(x, y, n) == 0 <==> x == y
  {
    if k > 0 {
      XorOfSmall(x / 2, y / 2, k - 1, n - 1);
      assert x == 2 * (x / 2) + x % 2 && y == 2 * (y / 2) + y % 2;
    } else if n > 0 {
      XorOfSmall(0, 0, 0, n - 1);
    }
  }

  /** "&" with all ones keeps a number that fits, and with zero clears it. */
  lemma {:induction false} AndWithMask(x: int, n: nat)
    requires 0 <= x + Pow2(n) && x < Pow2(n)
    ensures BitAnd(x, -1, n) == x && BitAnd(x, 0, n) == 0
    decreases n
  {
    if n > 0 { AndWithMask(x / 2, n - 1); }
  }

  lemma IntRange()
    ensures Pow2(8) == 256 && Pow2(INT_BITS) >= 256
  {
    assert Pow2(4) == 16 && Pow2(8) == 16 * Pow2(4);
    PowGrows(8, 23);
  }

  lemma {:induction false} PowGrows(m: nat, n: nat)
    ensures Pow2(m + n) >= Pow2(m)
  {
    if n > 0 { PowGrows(m, n - 1); }
  }

  /** What the loop body makes of two bytes: all ones exactly when they agree, and zero otherwise. */
  lemma MaskIsEquality(v1: byte, v2: byte)
    ensures ShiftRight8(BitXor(v1, v2, INT_BITS) - 1) == if v1 == v2 then -1 else 0
  {
    hide BitXor, Pow2;
    IntRange();
    XorOfSmall(v1, v2, 8, INT_BITS);
  }

  /** tor_memcmp: every byte is visited, from the last to the first, and the result so far is masked
      instead of being tested. */
  method TorMemcmp(a: array<byte>, b: array<byte>, len: nat) returns (retval: int)
    requires len <= a.Length && len <= b.Length
    ensures retval == MemCmp(a[..len], b[..len])
  {
    hide BitXor, BitAnd, ShiftRight8, Pow2;
    retval := 0;
    var i := len;
    while i != 0
      invariant 0 <= i <= len
      invariant retval == MemCmp(a[i..len], b[i..len]) && -256 < retval < 256
    {
      i := i - 1;
      assert a[i..len][1..] == a[i + 1..len] && b[i..len][1..] == b[i + 1..len];
      var v1, v2 := a[i], b[i];
      var equal_p := BitXor(v1, v2, INT_BITS);
      equal_p := equal_p - 1;
      equal_p := ShiftRight8(equal_p);
      MaskIsEquality(v1, v2);
      IntRange();
      AndWithMask(retval, INT_BITS);
      retval := BitAnd(retval, equal_p, INT_BITS);
      retval := retval + Minus(v1, v2);
    }
  }
}
