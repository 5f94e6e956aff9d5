/** Masked comparison of network addresses (address.c, address.h). */
module Address {
  import opened Bytes
  import opened DiOps

  // Only the order of the family numbers matters.
  const AF_UNSPEC := 0
  const AF_INET := 2
  const AF_INET6 := 10

  /** `tor_addr_t`; the payload of an unspecified address means nothing but is still there.
      IPv4 is kept in host order, IPv6 as its sixteen bytes. */
  datatype Addr =
    | Unspec(dummy: nat)
    | V4(host: nat)
    | V6(bytes: seq<byte>)
  {
    ghost predicate Valid() {
      (V4? ==> host < 0x1_0000_0000) && (V6? ==> |bytes| == 16)
    }

    function Family(): nat {
      match this
      case Unspec(_) => AF_UNSPEC
      case V4(_) => AF_INET
      case V6(_) => AF_INET6
    }
  }

  datatype How = Exact | Semantic

  const MAPPED := 0xffff * 0x1_0000_0000

  function Tristate(a: int, b: int): int {
    if a < b then -1 else if a == b then 0 else 1
  }

  /** An unsigned right shift, one bit at a time. */
  function Shr(x: nat, n: nat): nat {
    if n == 0 then x else Shr(x / 2, n - 1)
  }

  /** tor_addr_is_v4 */
  predicate IsV4(a: Addr)
    requires a.Valid()
  {
    a.V4? || (a.V6? && FromBigEndian(a.bytes[..4]) == 0 && FromBigEndian(a.bytes[4..8]) == 0
              && FromBigEndian(a.bytes[8..12]) == 0xffff)
  }

  /** The IPv4 address inside a mapped one. */
  function Host(a: Addr): nat
    requires a.Valid()
  {
    match a
    case Unspec(_) => 0
    case V4(h) => h
    case V6(s) => FromBigEndian(s[12..])
  }

  /** tor_addr_compare_masked; IPv6 masks above 128 read past the address and are excluded. */
  function CompareMasked(a: Addr, b: Addr, mbits: nat, how: How): int
    requires a.Valid() && b.Valid()
    requires a.V6? && b.V6? ==> mbits <= 128
  {
    if a.Family() == b.Family() then
      match a
      case Unspec(_) => 0
      case V4(_) =>
        if mbits == 0 then 0
        else
          var m := if mbits > 32 then 32 else mbits;
          Tristate(Shr(a.host, 32 - m), Shr(b.host, 32 - m))
      case V6(_) =>
        var bytes := mbits / 8;
        var leftover := mbits % 8;
        var r := MemCmp(a.bytes[..bytes], b.bytes[..bytes]);
        if bytes != 0 && r != 0 then r
        else if leftover != 0 then
          Tristate(Shr(a.bytes[bytes], 8 - leftover), Shr(b.bytes[bytes], 8 - leftover))
        else 0
    else if how == Exact then
      Tristate(a.Family(), b.Family())
    else if mbits == 0 then 0
    else
      var v1 := if a.V6? && IsV4(a) then AF_INET else a.Family();
      var v2 := if b.V6? && IsV4(b) then AF_INET else b.Family();
      if v1 == v2 then
        if a.V6? && mbits <= 96 then 0
        else
          var inner := if a.V6? then mbits - 96 else mbits;
          var m := if inner > 32 then 32 else inner;
          Tristate(Shr(Host(a), 32 - m), Shr(Host(b), 32 - m))
      else
        Tristate(a.Family(), b.Family())
  }

  // ---- Prefixes as numbers

  /** The top `mbits` bits of an address as one big-endian number. */
  ghost function Top(a: Addr, mbits: nat): nat
    requires a.Valid() && mbits <= 128
  {
    match a
    case Unspec(_) => 0
    case V4(h) => Shr(h, if mbits > 32 then 0 else 32 - mbits)
    case V6(s) => Shr(FromBigEndian(s), 128 - mbits)
  }

  lemma {:induction false} ShrJoins(x: nat, m: nat, n: nat)
    ensures Shr(x, m + n) == Shr(Shr(x, m), n)
  {
    if m > 0 {
      ShrJoins(x / 2, m - 1, n);
    }
  }

  lemma HalfSum(y: nat, x: nat)
    ensures (2 * y + x) / 2 == y + x / 2
  {
  }

  lemma MoveTwo(p: nat, y: nat)
    ensures p * (2 * y) == 2 * (p * y)
  {
  }

  lemma {:induction false} ShrOver(p: nat, x: nat, a: nat, b: nat)
    ensures Shr(p * Pow2(a + b) + x, b) == p * Pow2(a) + Shr(x, b)
  {
    if b > 0 {
      var y := p * Pow2(a + (b - 1));
      MoveTwo(p, Pow2(a + (b - 1)));
      assert p * Pow2(a + b) == 2 * y;
      HalfSum(y, x);
      ShrOver(p, x / 2, a, b - 1);
    }
  }

  lemma ByteShift(x: nat)
    ensures Shr(x, 8) == x / 256 && Pow2(8) == 256
  {
    ShrJoins(x, 4, 4);
    var y := x / 2 / 2 / 2 / 2;
    assert Shr(x, 4) == Shr(x / 2 / 2, 2) == y;
    assert Shr(y, 4) == Shr(y / 2 / 2, 2) == y / 2 / 2 / 2 / 2;
    assert Pow2(2) == 4 && Pow2(4) == 4 * Pow2(2) && Pow2(6) == 4 * Pow2(4) && Pow2(8) == 4 * Pow2(6);
  }

  lemma {:induction false} DropBytes(s: seq<byte>, k: nat)
    requires k <= |s|
    ensures Shr(FromBigEndian(s), 8 * (|s| - k)) == FromBigEndian(s[..k])
  {
    if k == |s| {
      assert s[..k] == s;
    } else {
      var t := s[..|s| - 1];
      assert FromBigEndian(s) / 256 == FromBigEndian(t);
      ByteShift(FromBigEndian(s));
      ShrJoins(FromBigEndian(s), 8, 8 * (|t| - k));
      DropBytes(t, k);
      assert t[..k] == s[..k];
    }
  }

  /** Whole bytes and leftover bits together are the top bits of the number. */
  lemma TopOfBytes(s: seq<byte>, mbits: nat)
    requires |s| == 16 && mbits <= 128
    ensures var k, l := mbits / 8, mbits % 8;
            Shr(FromBigEndian(s), 128 - mbits)
            == if l == 0 then FromBigEndian(s[..k]) else FromBigEndian(s[..k]) * Pow2(l) + Shr(s[k], 8 - l)
  {
    var k, l := mbits / 8, mbits % 8;
    var n := FromBigEndian(s);
    if l == 0 {
      DropBytes(s, k);
    } else {
      DropBytes(s, k + 1);
      assert s[..k + 1][..k] == s[..k];
      var p := FromBigEndian(s[..k]);
      ShrJoins(n, 8 * (15 - k), 8 - l);
      ByteShift(0);
      ShrOver(p, s[k], l, 8 - l);
    }
  }

  lemma {:induction false} FirstDifferenceDecides(a: seq<byte>, b: seq<byte>, k: nat)
    requires |a| == |b| && k < |a| && a[..k] == b[..k] && a[k] < b[k]
    ensures FromBigEndian(a) < FromBigEndian(b)
  {
    var n := |a| - 1;
    if k == n {
    } else {
      assert a[..n][..k] == a[..k] && b[..n][..k] == b[..k];
      FirstDifferenceDecides(a[..n], b[..n], k);
    }
  }

  /** memcmp orders byte strings as big-endian numbers. */
  lemma MemCmpIsOrder(a: seq<byte>, b: seq<byte>)
    requires |a| == |b|
    ensures Tristate(MemCmp(a, b), 0) == Tristate(FromBigEndian(a), FromBigEndian(b))
  {
    if a != b {
      var k := FirstDifference(a, b);
      MemCmpAt(a, b, k);
      if a[k] < b[k] {
        FirstDifferenceDecides(a, b, k);
      } else {
        FirstDifferenceDecides(b, a, k);
      }
    }
  }

  // ---- Comparison within a family

  lemma {:induction false} ShrBound(x: nat, a: nat, b: nat)
    requires x < Pow2(a + b)
    ensures Shr(x, b) < Pow2(a)
  {
    if b > 0 {
      assert Pow2(a + b) == 2 * Pow2(a + (b - 1));
      ShrBound(x / 2, a, b - 1);
    }
  }

  lemma HostBits(x: nat)
    requires x < 0x1_0000_0000
    ensures Shr(x, 32) == 0 && Pow2(32) == 0x1_0000_0000
  {
    assert Pow2(8) == 256 by { ByteShift(0); }
    assert Pow2(12) == 16 * Pow2(8) && Pow2(16) == 16 * Pow2(12) by {
      assert Pow2(10) == 4 * Pow2(8) && Pow2(12) == 4 * Pow2(10) && Pow2(14) == 4 * Pow2(12) && Pow2(16) == 4 * Pow2(14);
    }
    assert Pow2(32) == 0x1_0000 * Pow2(16) by {
      assert Pow2(18) == 4 * Pow2(16) && Pow2(20) == 4 * Pow2(18) && Pow2(22) == 4 * Pow2(20) && Pow2(24) == 4 * Pow2(22);
      assert Pow2(26) == 4 * Pow2(24) && Pow2(28) == 4 * Pow2(26) && Pow2(30) == 4 * Pow2(28) && Pow2(32) == 4 * Pow2(30);
    }
    ShrBound(x, 0, 32);
  }

  lemma HighPartDecides(p: nat, q: nat, x: nat, y: nat, w: nat)
    requires x < w && y < w
    ensures Tristate(p * w + x, q * w + y) == if p == q then Tristate(x, y) else Tristate(p, q)
  {
    if p < q {
      assert (p + 1) * w <= q * w;
    } else if q < p {
      assert (q + 1) * w <= p * w;
    }
  }

  /** Bytes first, then the leftover bits of the next byte: the order of the top bits. */
  lemma BytesCompareIsPrefix(s: seq<byte>, t: seq<byte>, mbits: nat, how: How)
    requires |s| == 16 && |t| == 16 && mbits <= 128
    ensures Tristate(CompareMasked(V6(s), V6(t), mbits, how), 0)
         == Tristate(Shr(FromBigEndian(s), 128 - mbits), Shr(FromBigEndian(t), 128 - mbits))
  {
    hide Shr, FromBigEndian, Pow2, MemCmp;
    var k, l := mbits / 8, mbits % 8;
    TopOfBytes(s, mbits);
    TopOfBytes(t, mbits);
    MemCmpIsOrder(s[..k], t[..k]);
    if l != 0 {
      ByteShift(0);
      ShrBound(s[k], l, 8 - l);
      ShrBound(t[k], l, 8 - l);
      HighPartDecides(FromBigEndian(s[..k]), FromBigEndian(t[..k]), Shr(s[k], 8 - l), Shr(t[k], 8 - l), Pow2(l));
    }
  }

  /** Masked comparison within a family is comparison of the top bits as one number. */
  lemma SameFamilyIsPrefix(a: Addr, b: Addr, mbits: nat, how: How)
    requires a.Valid() && b.Valid() && a.Family() == b.Family() && mbits <= 128
    ensures Tristate(CompareMasked(a, b, mbits, how), 0) == Tristate(Top(a, mbits), Top(b, mbits))
  {
    hide Shr, FromBigEndian, Pow2, MemCmp;
    match a
    case Unspec(_) =>
    case V4(h) =>
      HostBits(h);
      HostBits(b.host);
    case V6(s) =>
      BytesCompareIsPrefix(s, b.bytes, mbits, how);
  }

  /** Equal up to the payload of unspecified addresses. */
  ghost predicate Same(a: Addr, b: Addr) {
    a == b || (a.Unspec? && b.Unspec?)
  }

  /** The exact comparison orders by family, then by the top bits. */
  lemma ExactIsKeyOrder(a: Addr, b: Addr, mbits: nat)
    requires a.Valid() && b.Valid() && mbits <= 128
    ensures Tristate(CompareMasked(a, b, mbits, Exact), 0)
         == if a.Family() == b.Family() then Tristate(Top(a, mbits), Top(b, mbits)) else Tristate(a.Family(), b.Family())
  {
    hide Shr, FromBigEndian, Pow2, MemCmp, Top;
    if a.Family() == b.Family() {
      SameFamilyIsPrefix(a, b, mbits, Exact);
    }
  }

  /** For each mask the exact comparison is a total preorder: antisymmetric in sign, and transitive. */
  lemma ExactIsTotalPreorder(a: Addr, b: Addr, c: Addr, mbits: nat)
    requires a.Valid() && b.Valid() && c.Valid() && mbits <= 128
    ensures CompareMasked(a, a, mbits, Exact) == 0
    ensures CompareMasked(a, b, mbits, Exact) < 0 <==> CompareMasked(b, a, mbits, Exact) > 0
    ensures CompareMasked(a, b, mbits, Exact) <= 0 && CompareMasked(b, c, mbits, Exact) <= 0
        ==> CompareMasked(a, c, mbits, Exact) <= 0
  {
    hide Top, CompareMasked;
    ExactIsKeyOrder(a, a, mbits);
    ExactIsKeyOrder(a, b, mbits);
    ExactIsKeyOrder(b, a, mbits);
    ExactIsKeyOrder(b, c, mbits);
    ExactIsKeyOrder(a, c, mbits);
  }

  /** With the full mask only equal addresses compare equal, so there it is a total order. */
  lemma ExactIsTotalOrder(a: Addr, b: Addr)
    requires a.Valid() && b.Valid()
    ensures CompareMasked(a, b, 128, Exact) == 0 <==> Same(a, b)
  {
    hide FromBigEndian, MemCmp, CompareMasked;
    ExactIsKeyOrder(a, b, 128);
    if a.V6? && b.V6? {
      MemCmpIsOrder(a.bytes, b.bytes);
    }
  }

  // ---- Comparison across families

  /** Under the semantic comparison a mapped address stands for the IPv4 address inside it, with the
      mask counted from the first argument. */
  lemma MappedIsItsHost(a: Addr, b: Addr, m: nat)
    requires a.Valid() && b.Valid() && a.V6? && IsV4(a) && b.V4? && m <= 32
    ensures V4(Host(a)).Valid()
    ensures CompareMasked(a, b, 96 + m, Semantic) == CompareMasked(V4(Host(a)), b, m, Semantic)
    ensures CompareMasked(b, a, m, Semantic) == CompareMasked(b, V4(Host(a)), m, Semantic)
    ensures CompareMasked(a, b, 96 + m, Semantic) == -CompareMasked(b, a, m, Semantic)
  {
    hide Shr;
    WordNumber(a.bytes[12..]);
  }

  lemma {:induction false} NumberJoins(s: seq<byte>, k: nat)
    requires k <= |s|
    ensures FromBigEndian(s) == FromBigEndian(s[..k]) * Pow256(|s| - k) + FromBigEndian(s[k..])
    ensures FromBigEndian(s[k..]) < Pow256(|s| - k)
  {
    if k == |s| {
      assert s[..k] == s;
    } else {
      var n := |s| - 1;
      NumberJoins(s[..n], k);
      assert s[..n][..k] == s[..k] && s[..n][k..] == s[k..][..n - k];
      var p, q, y := FromBigEndian(s[..k]), FromBigEndian(s[k..][..n - k]), Pow256(n - k);
      LastByte(s);
      LastByte(s[k..]);
      assert Pow256(|s| - k) == 256 * y;
      ShiftIn(p, y, q, s[n]);
    }
  }

  lemma LastByte(s: seq<byte>)
    requires s != []
    ensures FromBigEndian(s) == FromBigEndian(s[..|s| - 1]) * 256 + s[|s| - 1]
  {
  }

  lemma ShiftIn(p: nat, y: nat, q: nat, d: int)
    ensures (p * y + q) * 256 + d == p * (256 * y) + (q * 256 + d)
  {
    assert p * (256 * y) == 256 * (p * y);
  }

  lemma WordNumber(s: seq<byte>)
    requires |s| == 4
    ensures var a: int, b: int, c: int, d: int := s[0], s[1], s[2], s[3];
            FromBigEndian(s) == a * 0x100_0000 + b * 0x1_0000 + c * 0x100 + d < Pow256(4) == 0x1_0000_0000
  {
    assert s[..3][..2] == s[..2] && s[..2][..1] == s[..1] && s[..1][..0] == [];
    assert FromBigEndian(s[..1]) == s[0] && FromBigEndian(s[..2]) == FromBigEndian(s[..1]) * 256 + s[1];
    assert FromBigEndian(s[..3]) == FromBigEndian(s[..2]) * 256 + s[2];
    assert Pow256(2) == 0x1_0000 && Pow256(4) == 0x1_0000 * Pow256(2);
  }

  /** The mapped addresses are one block of numbers, in the order of the addresses inside them. */
  lemma MappedBlock(a: Addr)
    requires a.Valid() && a.V6?
    ensures IsV4(a) <==> MAPPED <= Top(a, 128) < MAPPED + 0x1_0000_0000
    ensures IsV4(a) ==> Top(a, 128) == MAPPED + Host(a)
  {
    hide FromBigEndian, Pow256;
    var s := a.bytes;
    WordNumber(s[12..]);
    WordNumber(s[8..12]);
    WordNumber(s[4..8]);
    NumberJoins(s, 12);
    NumberJoins(s[..12], 8);
    NumberJoins(s[..8], 4);
    assert s[..12][..8] == s[..8] && s[..12][8..] == s[8..12];
    assert s[..8][..4] == s[..4] && s[..8][4..] == s[4..8];
  }

  /** The bits of an IPv4 address that a mask selects when the address comes first. */
  ghost function Fine(h: nat, mbits: nat): nat {
    Shr(h, if mbits > 32 then 0 else 32 - mbits)
  }

  /** The bits it selects when a mapped address comes first: the mask counts the 96 bits before them. */
  ghost function Coarse(h: nat, mbits: nat): nat
    requires mbits <= 128
  {
    if mbits <= 96 then 0 else Shr(h, 128 - mbits)
  }

  lemma {:induction false} ShrMonotone(x: nat, y: nat, n: nat)
    requires x <= y
    ensures Shr(x, n) <= Shr(y, n)
  {
    if n > 0 { ShrMonotone(x / 2, y / 2, n - 1); }
  }

  /** What is in order for the fine bits is in order for the coarse ones. */
  lemma FineDecidesCoarse(h: nat, k: nat, mbits: nat)
    requires mbits <= 128 && Fine(h, mbits) <= Fine(k, mbits)
    ensures Coarse(h, mbits) <= Coarse(k, mbits)
  {
    if mbits > 96 { ShrMonotone(h, k, 128 - mbits); }
  }

  /** The prefix of a mapped address is the same number for all of them, followed by the coarse bits. */
  lemma MappedTop(y: Addr, mbits: nat) returns (base: nat)
    requires y.Valid() && y.V6? && IsV4(y) && mbits <= 128
    ensures base == if mbits <= 96 then Shr(0xffff, 96 - mbits) else 0xffff * Pow2(mbits - 96)
    ensures Top(y, mbits) == base + Coarse(Host(y), mbits)
  {
    hide FromBigEndian, IsV4, Host;
    MappedBlock(y);
    var n, h: nat := FromBigEndian(y.bytes), Host(y);
    assert Top(y, 128) == n && h < 0x1_0000_0000;
    HostBits(h);
    if mbits <= 96 {
      ShrOver(0xffff, h, 0, 32);
      ShrJoins(n, 32, 96 - mbits);
      base := Shr(0xffff, 96 - mbits);
    } else {
      ShrOver(0xffff, h, mbits - 96, 128 - mbits);
      base := 0xffff * Pow2(mbits - 96);
    }
  }

  lemma MappedTops(y: Addr, z: Addr, mbits: nat)
    requires y.Valid() && y.V6? && IsV4(y) && z.Valid() && z.V6? && IsV4(z) && mbits <= 128
    ensures Top(y, mbits) <= Top(z, mbits) <==> Coarse(Host(y), mbits) <= Coarse(Host(z), mbits)
  {
    hide Top, Coarse, Host, IsV4, Pow2, Shr;
    var b := MappedTop(y, mbits);
    var c := MappedTop(z, mbits);
  }

  ghost predicate IsMapped(a: Addr)
    requires a.Valid()
  {
    a.V6? && IsV4(a)
  }

  /** The semantic comparison in numbers, for every mask. */
  lemma SemanticInNumbers(a: Addr, b: Addr, mbits: nat)
    requires a.Valid() && b.Valid() && mbits <= 128
    ensures Tristate(CompareMasked(a, b, mbits, Semantic), 0) ==
            if mbits == 0 then 0
            else if a.Family() == b.Family() then Tristate(Top(a, mbits), Top(b, mbits))
            else if a.V4? && IsMapped(b) then Tristate(Fine(a.host, mbits), Fine(Host(b), mbits))
            else if IsMapped(a) && b.V4? then Tristate(Coarse(Host(a), mbits), Coarse(b.host, mbits))
            else Tristate(a.Family(), b.Family())
  {
    hide FromBigEndian, IsV4, Shr, Top, MemCmp;
    if a.Family() == b.Family() {
      SameFamilyIsPrefix(a, b, mbits, Semantic);
      if mbits == 0 {
        NoBits(a, b);
      }
    }
  }

  lemma NoBits(a: Addr, b: Addr)
    requires a.Valid() && b.Valid() && a.Family() == b.Family()
    ensures CompareMasked(a, b, 0, Semantic) == 0
  {
  }

  /** Swapping the addresses changes the sign, except between an IPv4 address and a mapped one that
      differ in the fine bits and agree in the coarse ones. */
  lemma SemanticSymmetry(a: Addr, b: Addr, mbits: nat)
    requires a.Valid() && b.Valid() && mbits <= 128
    ensures Tristate(CompareMasked(a, b, mbits, Semantic), 0) == -Tristate(CompareMasked(b, a, mbits, Semantic), 0)
       <==> mbits == 0 || !((a.V4? && IsMapped(b)) || (IsMapped(a) && b.V4?))
            || Fine(Host(a), mbits) == Fine(Host(b), mbits) || Coarse(Host(a), mbits) != Coarse(Host(b), mbits)
  {
    hide FromBigEndian, IsV4, Shr, Top, CompareMasked;
    SemanticInNumbers(a, b, mbits);
    SemanticInNumbers(b, a, mbits);
    var h, k: nat := Host(a), Host(b);
    if Fine(h, mbits) <= Fine(k, mbits) { FineDecidesCoarse(h, k, mbits); }
    if Fine(k, mbits) <= Fine(h, mbits) { FineDecidesCoarse(k, h, mbits); }
  }

  /** The semantic comparison as "at most". */
  ghost predicate AtMost(a: Addr, b: Addr, mbits: nat)
    requires a.Valid() && b.Valid() && mbits <= 128
  {
    CompareMasked(a, b, mbits, Semantic) <= 0
  }

  ghost predicate TransitiveOn(all: set<Addr>, mbits: nat)
    requires (forall a | a in all :: a.Valid()) && mbits <= 128
  {
    forall a, b, c | a in all && b in all && c in all && AtMost(a, b, mbits) && AtMost(b, c, mbits) :: AtMost(a, c, mbits)
  }

  /** An unmapped IPv6 address whose prefix is not above that of a mapped one, and an IPv4 address not
      below the mapped one. */
  ghost predicate BelowMapped(x: Addr, low: Addr, y: Addr, mbits: nat)
    requires x.Valid() && low.Valid() && y.Valid() && mbits <= 128
  {
    && x.V4? && low.V6? && !IsV4(low) && IsMapped(y)
    && Top(low, mbits) <= Top(y, mbits) && Coarse(Host(y), mbits) <= Coarse(x.host, mbits)
  }

  /** An IPv4 address between two others, or mapped ones, that the fine bits order one way and the
      coarse bits around it do not. */
  ghost predicate Straddled(x: Addr, y: Addr, z: Addr, mbits: nat)
    requires x.Valid() && y.Valid() && z.Valid() && mbits <= 128
  {
    && x.V4? && IsMapped(y) && (z.V4? || IsMapped(z))
    && Fine(Host(z), mbits) < Fine(x.host, mbits) <= Fine(Host(y), mbits)
    && Coarse(Host(y), mbits) <= Coarse(Host(z), mbits)
  }

  /** The triples on which the comparison is not transitive. */
  ghost predicate Crossed(x: Addr, y: Addr, z: Addr, mbits: nat)
    requires x.Valid() && y.Valid() && z.Valid() && mbits <= 128
  {
    mbits > 0 && (BelowMapped(x, y, z, mbits) || Straddled(x, y, z, mbits))
  }

  /** How prefixes, fine bits and coarse bits of two addresses go together. */
  lemma BitsAgree(a: Addr, b: Addr, mbits: nat)
    requires a.Valid() && b.Valid() && mbits <= 128
    ensures IsMapped(a) && IsMapped(b) ==>
              (Top(a, mbits) <= Top(b, mbits) <==> Coarse(Host(a), mbits) <= Coarse(Host(b), mbits))
    ensures Fine(Host(a), mbits) <= Fine(Host(b), mbits) ==> Coarse(Host(a), mbits) <= Coarse(Host(b), mbits)
    ensures a.V4? ==> Top(a, mbits) == Fine(Host(a), mbits)
  {
    hide IsV4, Shr;
    if IsMapped(a) && IsMapped(b) { MappedTops(a, b, mbits); }
    if Fine(Host(a), mbits) <= Fine(Host(b), mbits) { FineDecidesCoarse(Host(a), Host(b), mbits); }
  }

  lemma CrossedIsCycle(x: Addr, y: Addr, z: Addr, mbits: nat)
    requires x.Valid() && y.Valid() && z.Valid() && mbits <= 128 && Crossed(x, y, z, mbits)
    ensures AtMost(y, z, mbits) && ((AtMost(z, x, mbits) && !AtMost(y, x, mbits)) || (AtMost(x, y, mbits) && !AtMost(x, z, mbits)))
  {
    hide Top, IsV4, Shr, CompareMasked;
    SemanticInNumbers(y, z, mbits);
    SemanticInNumbers(z, x, mbits);
    SemanticInNumbers(y, x, mbits);
    SemanticInNumbers(x, y, mbits);
    SemanticInNumbers(x, z, mbits);
    BitsAgree(y, z, mbits);
    BitsAgree(x, z, mbits);
    BitsAgree(z, x, mbits);
  }

  lemma CycleIsCrossed(a: Addr, b: Addr, c: Addr, mbits: nat)
    requires a.Valid() && b.Valid() && c.Valid() && mbits <= 128
    requires AtMost(a, b, mbits) && AtMost(b, c, mbits) && !AtMost(a, c, mbits)
    ensures Crossed(a, b, c, mbits) || Crossed(b, c, a, mbits) || Crossed(c, a, b, mbits)
  {
    hide Top, IsV4, Shr, CompareMasked, Fine, Coarse;
    SemanticInNumbers(a, b, mbits);
    SemanticInNumbers(b, c, mbits);
    SemanticInNumbers(a, c, mbits);
    BitsAgree(a, b, mbits);
    BitsAgree(b, a, mbits);
    BitsAgree(b, c, mbits);
    BitsAgree(c, b, mbits);
    BitsAgree(a, c, mbits);
    BitsAgree(c, a, mbits);
  }

  /** For every mask the semantic comparison is transitive on exactly the sets without a crossed triple. */
  lemma SemanticTransitivity(all: set<Addr>, mbits: nat)
    requires (forall a | a in all :: a.Valid()) && mbits <= 128
    ensures TransitiveOn(all, mbits) <==> forall x, y, z | x in all && y in all && z in all :: !Crossed(x, y, z, mbits)
  {
    hide Crossed, AtMost;
    if TransitiveOn(all, mbits) {
      forall x, y, z | x in all && y in all && z in all ensures !Crossed(x, y, z, mbits) {
        if Crossed(x, y, z, mbits) {
          CrossedIsCycle(x, y, z, mbits);
        }
      }
    } else {
      var a, b, c :| a in all && b in all && c in all && AtMost(a, b, mbits) && AtMost(b, c, mbits) && !AtMost(a, c, mbits);
      CycleIsCrossed(a, b, c, mbits);
    }
  }

  /** With the full mask the crossed triples are an IPv4 address, an IPv6 one below the mapped block,
      and a mapped one not above the first. */
  lemma CrossedAtFullMask(x: Addr, y: Addr, z: Addr)
    requires x.Valid() && y.Valid() && z.Valid()
    ensures Crossed(x, y, z, 128) <==>
            x.V4? && y.V6? && Top(y, 128) < MAPPED && IsMapped(z) && Host(z) <= x.host
  {
    hide FromBigEndian, IsV4, Top;
    if y.V6? { MappedBlock(y); }
    if z.V6? { MappedBlock(z); }
  }

  /** 1.2.3.4 is below ::1, which is below ::ffff:1.2.3.4, which equals 1.2.3.4. */
  lemma SemanticIsNotTransitive(x: Addr, low: Addr, mapped: Addr)
    requires x == V4(0x0102_0304)
    requires low == V6([0, 0, 0, 0, 0, 0, 0, 0, 0, 0, 0, 0, 0, 0, 0, 1])
    requires mapped == V6([0, 0, 0, 0, 0, 0, 0, 0, 0, 0, 255, 255, 1, 2, 3, 4])
    ensures CompareMasked(mapped, x, 128, Semantic) == 0
    ensures CompareMasked(low, mapped, 128, Semantic) < 0
    ensures CompareMasked(x, low, 128, Semantic) < 0
    ensures !TransitiveOn({x, low, mapped}, 128)
  {
    hide FromBigEndian, MemCmp;
    ExampleComparisons(low.bytes, mapped.bytes);
    assert AtMost(low, mapped, 128) && AtMost(mapped, x, 128) && !AtMost(low, x, 128) by {
      assert low.bytes[..16] == low.bytes && mapped.bytes[..16] == mapped.bytes;
    }
  }

  lemma ExampleComparisons(s: seq<byte>, t: seq<byte>)
    requires s == [0, 0, 0, 0, 0, 0, 0, 0, 0, 0, 0, 0, 0, 0, 0, 1]
    requires t == [0, 0, 0, 0, 0, 0, 0, 0, 0, 0, 255, 255, 1, 2, 3, 4]
    ensures MemCmp(s, t) < 0
    ensures IsV4(V6(t)) && !IsV4(V6(s)) && Host(V6(t)) == 0x0102_0304
  {
    hide FromBigEndian, MemCmp;
    WordNumber(s[8..12]);
    WordNumber(t[..4]);
    WordNumber(t[4..8]);
    WordNumber(t[8..12]);
    WordNumber(t[12..]);
    MemCmpAt(s, t, 10);
  }

  /** Under a mask of 96 bits 5.0.0.0 is below ::ffff:6.0.0.0, which equals both 5.0.0.0 and 1.0.0.0. */
  lemma SemanticIsNotTransitiveMasked(x: Addr, y: Addr, z: Addr)
    requires x == V4(0x0500_0000) && z == V4(0x0100_0000)
    requires y == V6([0, 0, 0, 0, 0, 0, 0, 0, 0, 0, 255, 255, 6, 0, 0, 0])
    ensures CompareMasked(x, y, 96, Semantic) < 0
    ensures CompareMasked(y, x, 96, Semantic) == 0 && CompareMasked(y, z, 96, Semantic) == 0
    ensures CompareMasked(x, z, 96, Semantic) > 0
    ensures !TransitiveOn({x, y, z}, 96)
  {
    hide FromBigEndian;
    var t := y.bytes;
    WordNumber(t[..4]);
    WordNumber(t[4..8]);
    WordNumber(t[8..12]);
    WordNumber(t[12..]);
    assert Host(y) == 0x0600_0000 && IsV4(y);
    assert AtMost(x, y, 96) && AtMost(y, z, 96) && !AtMost(x, z, 96);
  }
}
