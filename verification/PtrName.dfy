/** Reverse lookup names (address.c): RFC 1035 section 3.5 for IPv4, RFC 3596 section 2.5 for IPv6.
    A C string is an array whose only NUL is its last element. */
module PtrName {
  import opened Wrappers
  import opened Bytes
  import opened Address
  import opened Text
  import Decimal

  const INET_NTOA_BUF_LEN := 16
  const REVERSE_LOOKUP_NAME_BUF_LEN := 73
  const IN_ADDR := ".in-addr.arpa"
  const IP6 := ".ip6.arpa"

  // ---- Characters

  /** strcasecmpend(s, suffix) == 0, for a lower-case suffix. */
  predicate EndsNoCase(s: string, suffix: string) {
    |suffix| <= |s| && LowerAll(s[|s| - |suffix|..]) == suffix
  }

  function HexChar(d: nat): char
    requires d < 16
  {
    "0123456789abcdef"[d]
  }

  /** hex_decode_digit */
  function HexDecodeDigit(c: char): (v: int)
    ensures -1 <= v < 16
  {
    if '0' <= c <= '9' then c as int - '0' as int
    else if 'a' <= c <= 'f' then c as int - 'a' as int + 10
    else if 'A' <= c <= 'F' then c as int - 'A' as int + 10
    else -1
  }

  lemma HexReadsBack(d: nat, c: char)
    requires d < 16
    ensures HexDecodeDigit(HexChar(d)) == d
    ensures HexDecodeDigit(c) == d ==> HexChar(d) == Lower(c)
  {
  }

  // ---- Names

  /** Character `p` of the nibbles of an IPv6 address, last byte first and low nibble first. */
  function NibbleChar(bytes: seq<byte>, p: nat): char
    requires |bytes| == 16 && p < 64
  {
    var b := bytes[15 - p / 4];
    if p % 2 == 1 then '.' else if p % 4 == 0 then HexChar(b % 16) else HexChar(b / 16)
  }

  function Ip6Name(bytes: seq<byte>): (s: string)
    requires |bytes| == 16
    ensures |s| == 72
  {
    seq(64, p requires 0 <= p < 64 => NibbleChar(bytes, p)) + "ip6.arpa"
  }

  function Dotted(a: nat, b: nat, c: nat, d: nat): string {
    Decimal.Print(a) + "." + Decimal.Print(b) + "." + Decimal.Print(c) + "." + Decimal.Print(d)
  }

  function InAddrName(h: nat): string {
    Dotted(h % 256, h / 0x100 % 256, h / 0x1_0000 % 256, h / 0x100_0000 % 256) + IN_ADDR
  }

  function Name(a: Addr): Option<string>
    requires a.Valid()
  {
    match a
    case Unspec(_) => None
    case V4(h) => Some(InAddrName(h))
    case V6(s) => Some(Ip6Name(s))
  }

  /** tor_snprintf of a text already formatted. */
  method Snprintf(out: array<char>, text: string) returns (r: int)
    modifies out
    ensures r == if |text| < out.Length then |text| else -1
    ensures r >= 0 ==> out[..|text| + 1] == text + ['\0']
  {
    if out.Length == 0 {
      return -1;
    }
    var k := 0;
    while k < |text| && k + 1 < out.Length
      invariant 0 <= k <= |text| && k < out.Length
      invariant out[..k] == text[..k]
    {
      out[k] := text[k];
      k := k + 1;
    }
    out[k] := '\0';
    out[out.Length - 1] := '\0';
    r := if |text| < out.Length then |text| else -1;
  }

  /** tor_addr_to_PTR_name */
  method ToPtrName(out: array<char>, addr: Addr) returns (r: int)
    requires addr.Valid()
    modifies out
    ensures Name(addr) == None ==> r == -1
    ensures match Name(addr) case None => true case Some(name) =>
              && r == (if |name| < out.Length then |name| else -1)
              && (r >= 0 ==> out[..|name| + 1] == name + ['\0'])
  {
    match addr
    case V4(h) =>
      r := Snprintf(out, InAddrName(h));
    case V6(bytes) =>
      if out.Length < REVERSE_LOOKUP_NAME_BUF_LEN {
        return -1;
      }
      var cp := 0;
      var i := 15;
      while i >= 0
        invariant -1 <= i <= 15 && cp == 4 * (15 - i)
        invariant forall p | 0 <= p < cp :: out[p] == NibbleChar(bytes, p)
      {
        var b := bytes[i];
        out[cp] := HexChar(b % 16);
        out[cp + 1] := '.';
        out[cp + 2] := HexChar(b / 16);
        out[cp + 3] := '.';
        cp := cp + 4;
        i := i - 1;
      }
      var tail := "ip6.arpa\0";
      i := 0;
      while i < 9
        invariant 0 <= i <= 9 && cp == 64
        invariant forall p | 0 <= p < cp :: out[p] == NibbleChar(bytes, p)
        invariant forall p | 0 <= p < i :: out[64 + p] == tail[p]
      {
        out[cp + i] := tail[i];
        i := i + 1;
      }
      ghost var name := Ip6Name(bytes);
      assert forall p | 64 <= p < 73 :: out[p] == tail[p - 64] by {
        forall p | 64 <= p < 73 ensures out[p] == tail[p - 64] { var q := p - 64; assert out[64 + q] == tail[q]; }
      }
      r := 32 * 2 + 8;
    case Unspec(_) =>
      r := -1;
  }

  // ---- Reading names

  /** How many leading digits "%3u" takes. */
  function Digits(s: string, width: nat): (k: nat)
    ensures k <= |s| && k <= width && Decimal.IsNumeral(s[..k])
    ensures k < width && k < |s| ==> !Decimal.IsDigit(s[k])
  {
    if width == 0 || s == "" || !Decimal.IsDigit(s[0]) then 0
    else
      var k := Digits(s[1..], width - 1);
      assert s[..k + 1] == [s[0]] + s[1..][..k];
      k + 1
  }

  /** "%3u.%3u...", `n` numbers and nothing after them. */
  function Numbers(s: string, n: nat): (r: Option<seq<nat>>)
    ensures r.Some? ==> |r.value| == n
    ensures r.Some? && n > 0 ==> |s| < 4 * n
  {
    if n == 0 then Some([])
    else
      var k := Digits(s, 3);
      if k == 0 then None
      else if n == 1 then
        if k == |s| then Some([Decimal.Value(s[..k])]) else None
      else if k == |s| || s[k] != '.' then None
      else match Numbers(s[k + 1..], n - 1)
        case None => None
        case Some(rest) => Some([Decimal.Value(s[..k])] + rest)
  }

  /** tor_inet_aton, in host order. */
  function InetAton(s: string): (r: Option<nat>)
    ensures r.Some? ==> r.value < 0x1_0000_0000
    ensures |s| >= INET_NTOA_BUF_LEN ==> r.None?
  {
    match Numbers(s, 4)
    case None => None
    case Some(v) =>
      if v[0] > 255 || v[1] > 255 || v[2] > 255 || v[3] > 255 then None
      else Some(v[0] * 0x100_0000 + v[1] * 0x1_0000 + v[2] * 0x100 + v[3])
  }

  function ReverseBytes(n: nat): nat {
    n % 256 * 0x100_0000 + n / 0x100 % 256 * 0x1_0000 + n / 0x1_0000 % 256 * 0x100 + n / 0x100_0000 % 256
  }

  /** Hex digit, dot, hex digit, dot. */
  predicate GroupAt(s: string, i: nat) {
    && 4 * i + 4 <= |s|
    && HexDecodeDigit(s[4 * i]) >= 0 && s[4 * i + 1] == '.'
    && HexDecodeDigit(s[4 * i + 2]) >= 0 && s[4 * i + 3] == '.'
  }

  /** Thirty-two hex digits, each with its dot, then the suffix and nothing else. */
  ghost predicate IsIp6Name(s: string) {
    && |s| == 72
    && (forall i | 0 <= i < 16 :: GroupAt(s, i))
    && LowerAll(s[64..]) == "ip6.arpa"
  }

  function Nibble(c: char): (v: nat)
    ensures v < 16
  {
    var v := HexDecodeDigit(c);
    if v < 0 then 0 else v
  }

  /** Byte `i` of the name, counting from the front. */
  function Ip6Byte(s: string, i: nat): byte
    requires 4 * i + 4 <= |s|
  {
    Nibble(s[4 * i]) + 16 * Nibble(s[4 * i + 2])
  }

  function Ip6Bytes(s: string): (b: seq<byte>)
    requires |s| >= 64
    ensures |b| == 16
  {
    seq(16, k requires 0 <= k < 16 => Ip6Byte(s, 15 - k))
  }

  /** Results 0, -1 and 1. */
  datatype Outcome = NotPtr | Bad | Parsed(addr: Addr)

  ghost function Parse(s: string, family: nat, acceptRegular: bool, regular: string -> Option<Addr>): Outcome {
    if EndsNoCase(s, IN_ADDR) then
      if family == AF_INET6 then Bad
      else match InetAton(s[..|s| - |IN_ADDR|])
        case None => Bad
        case Some(n) => Parsed(V4(ReverseBytes(n)))
    else if EndsNoCase(s, IP6) then
      if family == AF_INET || !IsIp6Name(s) then Bad else Parsed(V6(Ip6Bytes(s)))
    else if !acceptRegular then NotPtr
    else match regular(s)
      case None => NotPtr
      case Some(a) => if a.Family() != family && family != AF_UNSPEC then Bad else Parsed(a)
  }

  ghost predicate IsCString(a: array<char>)
    reads a
  {
    a.Length > 0 && a[a.Length - 1] == '\0' && forall k | 0 <= k < a.Length - 1 :: a[k] != '\0'
  }

  /** A string that ends in ".ip6.arpa" has no dot at its last place, so after a dot there is always
      one more character before the NUL. */
  lemma MoreAfterDot(a: array<char>, p: nat)
    requires IsCString(a) && EndsNoCase(a[..a.Length - 1], IP6)
    requires p < a.Length && a[p] == '.'
    ensures p + 2 < a.Length
  {
    var s := a[..a.Length - 1];
    assert LowerAll(s[|s| - 9..])[8] == 'a';
  }

  lemma BytesRead(b: seq<byte>, s: string)
    requires |b| == 16 && |s| >= 64 && forall k | 0 <= k < 16 :: b[15 - k] == Ip6Byte(s, k)
    ensures b == Ip6Bytes(s)
  {
    forall k | 0 <= k < 16 ensures b[k] == Ip6Byte(s, 15 - k) {
      assert b[15 - (15 - k)] == Ip6Byte(s, 15 - k);
    }
  }

  /** The .ip6.arpa half of the parser: no index test, yet no read beyond the NUL. */
  method ParseIp6(address: array<char>, family: nat) returns (result: Outcome)
    requires IsCString(address) && EndsNoCase(address[..address.Length - 1], IP6)
    ensures result == if family == AF_INET || !IsIp6Name(address[..address.Length - 1]) then Bad
                      else Parsed(V6(Ip6Bytes(address[..address.Length - 1])))
  {
    hide HexDecodeDigit, LowerAll;
    if family == AF_INET {
      return Bad;
    }
    ghost var s := address[..address.Length - 1];
    var in6 := new byte[16](_ => 0);
    var cp := 0;
    var i := 0;
    while i < 16
      invariant 0 <= i <= 16 && cp == 4 * i && cp + 1 < address.Length
      invariant forall k | 0 <= k < i :: GroupAt(s, k) && in6[15 - k] == Ip6Byte(s, k)
    {
      var n0 := HexDecodeDigit(address[cp]);
      if address[cp + 1] != '.' {
        assert !GroupAt(s, i);
        return Bad;
      }
      MoreAfterDot(address, cp + 1);
      var n1 := HexDecodeDigit(address[cp + 2]);
      if address[cp + 3] != '.' {
        assert !GroupAt(s, i);
        return Bad;
      }
      MoreAfterDot(address, cp + 3);
      if n0 < 0 || n1 < 0 {
        assert !GroupAt(s, i);
        return Bad;
      }
      in6[15 - i] := n0 + 16 * n1;
      cp := cp + 4;
      i := i + 1;
    }
    assert s[64..] == address[cp..address.Length - 1];
    if LowerAll(address[cp..address.Length - 1]) != "ip6.arpa" {
      return Bad;
    }
    BytesRead(in6[..], s);
    result := Parsed(V6(in6[..]));
  }

  /** tor_addr_parse_PTR_name; `regular` stands for tor_addr_parse. */
  method ParsePtrName(address: array<char>, family: nat, acceptRegular: bool, regular: string -> Option<Addr>)
      returns (result: Outcome)
    requires IsCString(address)
    ensures result == Parse(address[..address.Length - 1], family, acceptRegular, regular)
  {
    var s := address[..address.Length - 1];
    if EndsNoCase(s, IN_ADDR) {
      if family == AF_INET6 {
        return Bad;
      }
      var len := |s| - |IN_ADDR|;
      if len >= INET_NTOA_BUF_LEN {
        return Bad;
      }
      var inaddr := InetAton(s[..len]);
      if inaddr == None {
        return Bad;
      }
      return Parsed(V4(ReverseBytes(inaddr.value)));
    }
    if EndsNoCase(s, IP6) {
      result := ParseIp6(address, family);
      return;
    }
    if acceptRegular {
      var r := regular(s);
      if r == None {
        return NotPtr;
      }
      if r.value.Family() != family && family != AF_UNSPEC {
        return Bad;
      }
      return Parsed(r.value);
    }
    result := NotPtr;
  }

  // ---- Round trips

  lemma NibbleGroup(bytes: seq<byte>, i: nat)
    requires |bytes| == 16 && i < 16
    ensures NibbleChar(bytes, 4 * i) == HexChar(bytes[15 - i] % 16) && NibbleChar(bytes, 4 * i + 1) == '.'
    ensures NibbleChar(bytes, 4 * i + 2) == HexChar(bytes[15 - i] / 16) && NibbleChar(bytes, 4 * i + 3) == '.'
  {
    hide HexChar;
    assert 4 * i / 4 == i && (4 * i + 1) / 4 == i && (4 * i + 2) / 4 == i && (4 * i + 3) / 4 == i;
    assert 4 * i % 4 == 0 && (4 * i + 2) % 4 == 2;
    assert 4 * i % 2 == 0 && (4 * i + 2) % 2 == 0 && (4 * i + 1) % 2 == 1 && (4 * i + 3) % 2 == 1;
  }

  lemma GroupReadsBack(bytes: seq<byte>, i: nat)
    requires |bytes| == 16 && i < 16
    ensures GroupAt(Ip6Name(bytes), i) && Ip6Byte(Ip6Name(bytes), i) == bytes[15 - i]
  {
    hide HexChar, HexDecodeDigit, NibbleChar;
    var s := Ip6Name(bytes);
    NibbleGroup(bytes, i);
    var b: int := bytes[15 - i];
    HexReadsBack(b % 16, s[4 * i]);
    HexReadsBack(b / 16, s[4 * i]);
  }

  /** The printed IPv6 name is accepted and gives the address back. */
  lemma Ip6NameReads(bytes: seq<byte>)
    requires |bytes| == 16
    ensures IsIp6Name(Ip6Name(bytes)) && Ip6Bytes(Ip6Name(bytes)) == bytes
    ensures EndsNoCase(Ip6Name(bytes), IP6) && !EndsNoCase(Ip6Name(bytes), IN_ADDR)
  {
    hide GroupAt, Ip6Byte, Ip6Name, LowerAll, EndsNoCase;
    var s := Ip6Name(bytes);
    forall i | 0 <= i < 16 ensures GroupAt(s, i) {
      GroupReadsBack(bytes, i);
    }
    forall k | 0 <= k < 16 ensures Ip6Bytes(s)[k] == bytes[k] {
      GroupReadsBack(bytes, 15 - k);
    }
    Ip6NameEnds(bytes);
  }

  lemma Ip6NameEnds(bytes: seq<byte>)
    requires |bytes| == 16
    ensures var s := Ip6Name(bytes); LowerAll(s[64..]) == "ip6.arpa" && EndsNoCase(s, IP6) && !EndsNoCase(s, IN_ADDR)
  {
    hide NibbleChar, LowerAll;
    var s := Ip6Name(bytes);
    var t := "ip6.arpa";
    assert s[64..] == t && LowerAll(t) == t by { SmallSuffixes(); }
    assert s[63] == '.' by { NibbleGroup(bytes, 15); }
    assert s[63..] == ['.'] + s[64..] == IP6 && LowerAll(IP6) == IP6 by { SmallSuffixes(); }
    assert s[59..][6] == s[65] == s[64..][1] == 'p';
    LowerAt(s[59..], 6);
    assert LowerAll(s[59..]) != IN_ADDR;
  }

  lemma SmallSuffixes()
    ensures LowerAll("ip6.arpa") == "ip6.arpa" && LowerAll(IP6) == IP6
  {
  }

  lemma LowerAt(s: string, k: nat)
    requires k < |s|
    ensures LowerAll(s)[k] == Lower(s[k])
  {
  }

  lemma GroupReprints(s: string, i: nat)
    requires IsIp6Name(s) && i < 16
    ensures var t := Ip6Name(Ip6Bytes(s));
            && t[4 * i] == Lower(s[4 * i]) && t[4 * i + 1] == s[4 * i + 1]
            && t[4 * i + 2] == Lower(s[4 * i + 2]) && t[4 * i + 3] == s[4 * i + 3]
  {
    hide HexChar, HexDecodeDigit, NibbleChar, Lower;
    var bytes := Ip6Bytes(s);
    assert GroupAt(s, i);
    var lo, hi := Nibble(s[4 * i]), Nibble(s[4 * i + 2]);
    assert bytes[15 - i] == lo + 16 * hi;
    assert (lo + 16 * hi) % 16 == lo && (lo + 16 * hi) / 16 == hi;
    NibbleGroup(bytes, i);
    HexReadsBack(lo, s[4 * i]);
    HexReadsBack(hi, s[4 * i + 2]);
  }

  /** Every accepted name of an IPv6 address is its canonical name up to letter case. */
  lemma Ip6NameReprints(s: string)
    requires IsIp6Name(s)
    ensures Ip6Name(Ip6Bytes(s)) == LowerAll(s)
  {
    hide NibbleChar, Ip6Bytes;
    var t := Ip6Name(Ip6Bytes(s));
    forall p | 0 <= p < 64 ensures t[p] == LowerAll(s)[p] {
      var i := p / 4;
      assert GroupAt(s, i);
      GroupReprints(s, i);
    }
    assert LowerAll(s)[64..] == LowerAll(s[64..]);
    assert t[64..] == "ip6.arpa";
    forall p | 64 <= p < 72 ensures t[p] == LowerAll(s)[p] {
      assert t[p] == t[64..][p - 64] && LowerAll(s)[p] == LowerAll(s)[64..][p - 64];
    }
  }

  lemma DigitsOfNumeral(n: nat, t: string)
    requires n < 1000 && (t == "" || !Decimal.IsDigit(t[0]))
    ensures Digits(Decimal.Print(n) + t, 3) == |Decimal.Print(n)|
  {
    Decimal.PrintReadsBack(n);
    Decimal.PrintIsShort(n);
    DigitsTake(Decimal.Print(n), t, 3);
  }

  lemma {:induction false} DigitsTake(s: string, t: string, width: nat)
    requires Decimal.IsNumeral(s) && |s| <= width && (t == "" || !Decimal.IsDigit(t[0]))
    ensures Digits(s + t, width) == |s|
  {
    if s == "" {
      assert s + t == t;
    } else {
      assert (s + t)[1..] == s[1..] + t;
      DigitsTake(s[1..], t, width - 1);
    }
  }

  lemma LastNumber(n: nat)
    requires n < 1000
    ensures Numbers(Decimal.Print(n), 1) == Some([n])
  {
    hide Digits;
    var s := Decimal.Print(n);
    DigitsOfNumeral(n, "");
    Decimal.PrintReadsBack(n);
    assert s + "" == s && s[..|s|] == s;
  }

  lemma NextNumber(n: nat, t: string, m: nat)
    requires n < 1000 && m > 0 && Numbers(t, m).Some?
    ensures Numbers(Decimal.Print(n) + "." + t, m + 1) == Some([n] + Numbers(t, m).value)
  {
    hide Digits;
    var p := Decimal.Print(n);
    var s := p + "." + t;
    DigitsOfNumeral(n, "." + t);
    Decimal.PrintReadsBack(n);
    assert s == p + ("." + t);
    assert s[..|p|] == p && s[|p| + 1..] == t;
  }

  lemma DottedReads(a: nat, b: nat, c: nat, d: nat)
    requires a < 256 && b < 256 && c < 256 && d < 256
    ensures InetAton(Dotted(a, b, c, d)) == Some(a * 0x100_0000 + b * 0x1_0000 + c * 0x100 + d)
  {
    hide Numbers;
    var t1 := Decimal.Print(d);
    var t2 := Decimal.Print(c) + "." + t1;
    var t3 := Decimal.Print(b) + "." + t2;
    var t4 := Decimal.Print(a) + "." + t3;
    LastNumber(d);
    NextNumber(c, t1, 1);
    NextNumber(b, t2, 2);
    NextNumber(a, t3, 3);
    assert Dotted(a, b, c, d) == t4;
    assert Numbers(t4, 4) == Some([a] + ([b] + ([c] + [d])));
  }

  lemma SplitBytes(x3: nat, x2: nat, x1: nat, x0: nat, n: nat)
    requires x3 < 256 && x2 < 256 && x1 < 256 && x0 < 256
    requires n == x3 * 0x100_0000 + x2 * 0x1_0000 + x1 * 0x100 + x0
    ensures n % 256 == x0 && n / 0x100 % 256 == x1 && n / 0x1_0000 % 256 == x2 && n / 0x100_0000 % 256 == x3
  {
    var n1, n2 := x3 * 0x1_0000 + x2 * 0x100 + x1, x3 * 0x100 + x2;
    assert n == n1 * 256 + x0 && n / 256 == n1;
    assert n1 == n2 * 256 + x1 && n1 / 256 == n2 && n / 0x1_0000 == n2;
    assert n2 == x3 * 256 + x2 && n2 / 256 == x3 && n / 0x100_0000 == x3;
  }

  lemma JoinBytes(n: nat)
    requires n < 0x1_0000_0000
    ensures n == n / 0x100_0000 % 256 * 0x100_0000 + n / 0x1_0000 % 256 * 0x1_0000 + n / 0x100 % 256 * 0x100 + n % 256
  {
    var n1 := n / 256;
    var n2 := n1 / 256;
    var n3 := n2 / 256;
    assert n == n1 * 256 + n % 256 && n1 == n2 * 256 + n1 % 256 && n2 == n3 * 256 + n2 % 256;
    assert n2 == n / 0x1_0000 && n3 == n / 0x100_0000;
  }

  lemma BytesReverse(h: nat)
    requires h < 0x1_0000_0000
    ensures ReverseBytes(h % 256 * 0x100_0000 + h / 0x100 % 256 * 0x1_0000 + h / 0x1_0000 % 256 * 0x100 + h / 0x100_0000 % 256) == h
  {
    var a, b, c, d := h % 256, h / 0x100 % 256, h / 0x1_0000 % 256, h / 0x100_0000 % 256;
    SplitBytes(a, b, c, d, a * 0x100_0000 + b * 0x1_0000 + c * 0x100 + d);
    JoinBytes(h);
  }

  /** The printed IPv4 name is read by the first branch and gives the address back. */
  lemma InAddrNameReads(h: nat)
    requires h < 0x1_0000_0000
    ensures var s := InAddrName(h);
            && EndsNoCase(s, IN_ADDR)
            && InetAton(s[..|s| - |IN_ADDR|]).Some?
            && ReverseBytes(InetAton(s[..|s| - |IN_ADDR|]).value) == h
  {
    hide InetAton, ReverseBytes;
    var a, b, c, d := h % 256, h / 0x100 % 256, h / 0x1_0000 % 256, h / 0x100_0000 % 256;
    var s := InAddrName(h);
    assert s[..|s| - |IN_ADDR|] == Dotted(a, b, c, d) && s[|s| - |IN_ADDR|..] == IN_ADDR;
    assert LowerAll(IN_ADDR) == IN_ADDR;
    DottedReads(a, b, c, d);
    BytesReverse(h);
  }

  /** Reading the printed name of any address gives that address. */
  lemma NameReadsBack(a: Addr, family: nat, acceptRegular: bool, regular: string -> Option<Addr>)
    requires a.Valid() && !a.Unspec? && (family == AF_UNSPEC || family == a.Family())
    ensures Name(a).Some? && Parse(Name(a).value, family, acceptRegular, regular) == Parsed(a)
  {
    hide EndsNoCase, InetAton, ReverseBytes, Ip6Bytes, InAddrName, Ip6Name;
    match a
    case V4(h) => InAddrNameReads(h);
    case V6(bytes) => Ip6NameReads(bytes);
  }

  /** What the parser accepts under ".ip6.arpa" prints back to itself, up to letter case. */
  lemma AcceptedIp6Reprints(s: string, family: nat, acceptRegular: bool, regular: string -> Option<Addr>)
    requires EndsNoCase(s, IP6) && Parse(s, family, acceptRegular, regular).Parsed?
    ensures var a := Parse(s, family, acceptRegular, regular).addr;
            a.V6? && a.Valid() && Name(a) == Some(LowerAll(s)) && |s| == 72
  {
    assert !EndsNoCase(s, IN_ADDR) by {
      var n := |s|;
      if n >= 13 {
        assert LowerAll(s[n - 9..])[2] == Lower(s[n - 7]) == 'p';
        assert LowerAll(s[n - 13..])[6] == Lower(s[n - 7]);
        assert IN_ADDR[6] == 'd';
      }
    }
    Ip6NameReprints(s);
  }
}
