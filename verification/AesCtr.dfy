/** AES counter mode over an uninterpreted block cipher (aes.c), against NIST SP 800-38A,
    section 6.5 with the incrementing function of appendix B.1.  Bytes of a counter are
    numbers, bytes of key stream and data are bit vectors. */
module AesCtr {
  import opened Bytes

  const BLOCK := 16
  const WORD := 0x1_0000_0000
  const COUNTERS := 0x1_00000000_00000000_00000000_00000000  // 2^128

  type Block = s: seq<byte> | |s| == BLOCK witness seq(BLOCK, _ => 0)
  type KeyBlock = s: seq<bv8> | |s| == BLOCK witness seq(BLOCK, _ => 0)

  // ---- The standard

  /** The standard's incrementing function adds modulo 2^128. */
  function Wrap(n: nat): (r: nat)
    ensures r < COUNTERS
  {
    n % COUNTERS
  }

  /** Byte `k` of the key stream that starts from counter block `iv`. */
  ghost function KeyStream(encrypt: Block -> KeyBlock, iv: nat, k: nat): bv8 {
    encrypt(BigEndian(Wrap(iv + k / BLOCK), BLOCK))[k % BLOCK]
  }

  function Masked(text: bv8, key: bv8): bv8 {
    text ^ key
  }

  /** Encrypting `data`, the first byte of which is byte `from` of the stream. */
  ghost function Stream(encrypt: Block -> KeyBlock, iv: nat, from: nat, data: seq<bv8>): (r: seq<bv8>)
    ensures |r| == |data|
  {
    seq(|data|, k requires 0 <= k < |data| => Masked(data[k], KeyStream(encrypt, iv, from + k)))
  }

  lemma StreamAt(encrypt: Block -> KeyBlock, iv: nat, from: nat, data: seq<bv8>, k: nat)
    requires k < |data|
    ensures Stream(encrypt, iv, from, data)[k] == Masked(data[k], KeyStream(encrypt, iv, from + k))
  {
  }

  /** How the data is cut into calls does not matter. */
  lemma StreamConcat(encrypt: Block -> KeyBlock, iv: nat, from: nat, a: seq<bv8>, b: seq<bv8>)
    ensures Stream(encrypt, iv, from, a + b) == Stream(encrypt, iv, from, a) + Stream(encrypt, iv, from + |a|, b)
  {
    hide KeyStream;
    var whole := Stream(encrypt, iv, from, a + b);
    var parts := Stream(encrypt, iv, from, a) + Stream(encrypt, iv, from + |a|, b);
    forall j | 0 <= j < |whole| ensures whole[j] == parts[j] {
      if |a| <= j {
        assert from + |a| + (j - |a|) == from + j;
      }
    }
  }

  /** Encrypting twice from the same place restores the data. */
  lemma StreamTwice(encrypt: Block -> KeyBlock, iv: nat, from: nat, data: seq<bv8>)
    ensures Stream(encrypt, iv, from, Stream(encrypt, iv, from, data)) == data
  {
    hide KeyStream;
    var twice := Stream(encrypt, iv, from, Stream(encrypt, iv, from, data));
    forall j | 0 <= j < |data| ensures twice[j] == data[j] {
      var x := KeyStream(encrypt, iv, from + j);
      assert (data[j] ^ x) ^ x == data[j];
    }
  }

  /** Byte `k` of what a call writes when it reads its own output from place `gap` on. */
  ghost function Fed(encrypt: Block -> KeyBlock, iv: nat, from: nat, text: seq<bv8>, gap: nat, k: nat): bv8
    requires k < |text| && gap > 0
    decreases k
  {
    Masked(if k < gap then text[k] else Fed(encrypt, iv, from, text, gap, k - gap), KeyStream(encrypt, iv, from + k))
  }

  ghost function Written(encrypt: Block -> KeyBlock, iv: nat, from: nat, text: seq<bv8>, gap: nat): (r: seq<bv8>)
    requires gap > 0
    ensures |r| == |text| && forall k | 0 <= k < |text| :: r[k] == Fed(encrypt, iv, from, text, gap, k)
  {
    seq(|text|, k requires 0 <= k < |text| => Fed(encrypt, iv, from, text, gap, k))
  }

  lemma WrittenAt(encrypt: Block -> KeyBlock, iv: nat, from: nat, text: seq<bv8>, gap: nat, k: nat)
    requires k < |text| && gap > 0
    ensures var coded := Written(encrypt, iv, from, text, gap);
            coded[k] == Masked(if k < gap then text[k] else coded[k - gap], KeyStream(encrypt, iv, from + k))
  {
    hide KeyStream;
  }

  /** A call that reads none of its own output writes the stream. */
  lemma WrittenIsStream(encrypt: Block -> KeyBlock, iv: nat, from: nat, text: seq<bv8>, gap: nat)
    requires gap > 0 && gap >= |text|
    ensures Written(encrypt, iv, from, text, gap) == Stream(encrypt, iv, from, text)
  {
    hide KeyStream;
    forall k | 0 <= k < |text|
      ensures Written(encrypt, iv, from, text, gap)[k] == Stream(encrypt, iv, from, text)[k] {
      StreamAt(encrypt, iv, from, text, k);
    }
  }

  /** How far the output of a call lies behind its input, if it overlaps the input from behind. */
  ghost function Gap(input: array<bv8>, inAt: nat, len: nat, output: array<bv8>, outAt: nat): (gap: nat)
    ensures gap > 0
  {
    if input == output && inAt < outAt then outAt - inAt else len + 1
  }

  /** A buffer that held `was` has the first `i` bytes of `coded` at `at`, and is otherwise unchanged. */
  ghost predicate Holds(now: seq<bv8>, was: seq<bv8>, coded: seq<bv8>, at: nat, i: nat) {
    && |now| == |was| && i <= |coded| && at + i <= |was|
    && (forall k | 0 <= k < |now| :: now[k] == if at <= k < at + i then coded[k - at] else was[k])
  }

  lemma HoldsNext(now: seq<bv8>, was: seq<bv8>, coded: seq<bv8>, at: nat, i: nat, x: bv8)
    requires Holds(now, was, coded, at, i) && i < |coded| && at + i < |now| && x == coded[i]
    ensures Holds(now[at + i := x], was, coded, at, i + 1)
  {
  }

  lemma HoldsAll(now: seq<bv8>, was: seq<bv8>, coded: seq<bv8>, at: nat)
    requires Holds(now, was, coded, at, |coded|)
    ensures now[at..at + |coded|] == coded
    ensures forall k | 0 <= k < |now| && !(at <= k < at + |coded|) :: now[k] == was[k]
  {
  }

  lemma HoldsNothing(was: seq<bv8>, coded: seq<bv8>, at: nat)
    requires at <= |was|
    ensures Holds(was, was, coded, at, 0)
  {
  }

  /** The byte a call reads is of the text, or of its own output some places back. */
  lemma Reads(input: seq<bv8>, output: seq<bv8>, was: seq<bv8>, text: seq<bv8>, coded: seq<bv8>, inAt: nat, outAt: nat, i: nat, same: bool)
    requires Holds(output, was, coded, outAt, i) && i < |text| && inAt + |text| <= |input| && (same ==> input == output)
    requires text == (if same then was else input)[inAt..inAt + |text|]
    ensures input[inAt + i] == if same && inAt < outAt && outAt - inAt <= i then coded[i - (outAt - inAt)] else text[i]
  {
  }

  function Flatten(calls: seq<seq<bv8>>): seq<bv8> {
    if calls == [] then [] else Flatten(calls[..|calls| - 1]) + calls[|calls| - 1]
  }

  /** What a run of calls writes: each one starts where the bytes so far end. */
  ghost function Run(encrypt: Block -> KeyBlock, iv: nat, calls: seq<seq<bv8>>): seq<bv8> {
    if calls == [] then []
    else
      var before := calls[..|calls| - 1];
      Run(encrypt, iv, before) + Stream(encrypt, iv, |Flatten(before)|, calls[|calls| - 1])
  }

  lemma {:induction false} RunIsStream(encrypt: Block -> KeyBlock, iv: nat, calls: seq<seq<bv8>>)
    ensures Run(encrypt, iv, calls) == Stream(encrypt, iv, 0, Flatten(calls))
  {
    hide KeyStream, Stream;
    if calls == [] {
      StreamOfNothing(encrypt, iv, 0);
    } else {
      var before := calls[..|calls| - 1];
      RunIsStream(encrypt, iv, before);
      StreamConcat(encrypt, iv, 0, Flatten(before), calls[|calls| - 1]);
    }
  }

  /** Whatever the calls on either side, a second run from the same iv restores the data. */
  lemma RunRestores(encrypt: Block -> KeyBlock, iv: nat, sent: seq<seq<bv8>>, received: seq<seq<bv8>>)
    requires Flatten(received) == Run(encrypt, iv, sent)
    ensures Run(encrypt, iv, received) == Flatten(sent)
  {
    RunIsStream(encrypt, iv, sent);
    RunIsStream(encrypt, iv, received);
    StreamTwice(encrypt, iv, 0, Flatten(sent));
  }

  // ---- Words and bytes

  function Value(c3: nat, c2: nat, c1: nat, c0: nat): nat {
    ((c3 * WORD + c2) * WORD + c1) * WORD + c0
  }

  function WordBytes(w: nat): (s: seq<byte>)
    requires w < WORD
    ensures |s| == 4
  {
    [w / 0x100_0000, w / 0x1_0000 % 256, w / 0x100 % 256, w % 256]
  }

  function BytesWord(s: seq<byte>): (w: nat)
    requires |s| == 4
    ensures w < WORD
  {
    var a: int, b: int, c: int, d: int := s[0], s[1], s[2], s[3];
    a * 0x100_0000 + b * 0x1_0000 + c * 0x100 + d
  }

  lemma WordReadsBack(s: seq<byte>)
    requires |s| == 4
    ensures WordBytes(BytesWord(s)) == s
  {
    var w := BytesWord(s);
    var w1, w2 := w / 0x100, w / 0x1_0000;
    var a: int, b: int, c: int, d: int := s[0], s[1], s[2], s[3];
    assert w1 == a * 0x1_0000 + b * 0x100 + c && w % 256 == d;
    assert w2 == a * 0x100 + b && w1 % 256 == c;
    assert w / 0x100_0000 == a && w2 % 256 == b;
  }

  lemma WordIsBigEndian(w: nat)
    requires w < WORD
    ensures WordBytes(w) == BigEndian(w, 4) && Pow256(4) == WORD
  {
    var a, b, c := w / 256, w / 256 / 256, w / 256 / 256 / 256;
    Quotients(w, a, b, c);
    assert BigEndian(w, 4) == BigEndian(a, 3) + [w % 256];
    assert BigEndian(a, 3) == BigEndian(b, 2) + [a % 256];
    assert BigEndian(b, 2) == BigEndian(c, 1) + [b % 256];
    assert BigEndian(c, 1) == BigEndian(c / 256, 0) + [c % 256] == [c % 256];
    assert Pow256(1) == 256 && Pow256(2) == 256 * Pow256(1) && Pow256(3) == 256 * Pow256(2);
  }

  lemma Quotients(w: nat, a: nat, b: nat, c: nat)
    requires w < WORD && a == w / 256 && b == a / 256 && c == b / 256
    ensures w / 0x100 == a && w / 0x1_0000 == b && w / 0x100_0000 == c < 256
  {
    var x, y, z := w % 256, a % 256, b % 256;
    assert w == 256 * a + x && a == 256 * b + y && b == 256 * c + z;
    assert w == 0x1_0000 * b + (256 * y + x) && w == 0x100_0000 * c + (0x1_0000 * z + 256 * y + x);
  }

  /** Appending one more word to a counter appends its four bytes. */
  lemma WordJoins(hi: nat, w: nat, len: nat)
    requires w < WORD
    ensures BigEndian(hi * WORD + w, len + 4) == BigEndian(hi, len) + WordBytes(w)
  {
    hide *;
    WordIsBigEndian(w);
    BigEndianJoins(hi, w, 4, len);
  }

  function WordsBytes(c3: nat, c2: nat, c1: nat, c0: nat): (s: seq<byte>)
    requires c3 < WORD && c2 < WORD && c1 < WORD && c0 < WORD
    ensures |s| == BLOCK
  {
    WordBytes(c3) + WordBytes(c2) + WordBytes(c1) + WordBytes(c0)
  }

  /** The four words in network order are the 128-bit counter in network order. */
  lemma WordsAreBlock(c3: nat, c2: nat, c1: nat, c0: nat)
    requires c3 < WORD && c2 < WORD && c1 < WORD && c0 < WORD
    ensures WordsBytes(c3, c2, c1, c0) == BigEndian(Value(c3, c2, c1, c0), BLOCK)
  {
    hide BigEndian, WordBytes;
    WordIsBigEndian(c3);
    var v2 := c3 * WORD + c2;
    WordJoins(c3, c2, 4);
    var v1 := v2 * WORD + c1;
    WordJoins(v2, c1, 8);
    WordJoins(v1, c0, 12);
    assert Value(c3, c2, c1, c0) == v1 * WORD + c0;
  }

  /** "++" on a 32-bit word. */
  function Inc(w: nat): (r: nat)
    requires w < WORD
    ensures r == if w + 1 == WORD then 0 else w + 1
  {
    (w + 1) % WORD
  }

  /** The nested carries over four wrapping words add one to the 128-bit counter. */
  lemma CarryIsIncrement(c3: nat, c2: nat, c1: nat, c0: nat)
    requires c3 < WORD && c2 < WORD && c1 < WORD && c0 < WORD
    ensures var d0 := Inc(c0);
            var d1 := if d0 == 0 then Inc(c1) else c1;
            var d2 := if d0 == 0 && d1 == 0 then Inc(c2) else c2;
            var d3 := if d0 == 0 && d1 == 0 && d2 == 0 then Inc(c3) else c3;
            Value(d3, d2, d1, d0) == Wrap(Value(c3, c2, c1, c0) + 1)
  {
    hide Inc, Wrap;
    WrapNext(Value(c3, c2, c1, c0));
  }

  lemma WrapNext(v: nat)
    requires v < COUNTERS
    ensures Wrap(v + 1) == if v + 1 == COUNTERS then 0 else v + 1
  {
  }

  lemma BlockValue(iv: Block, c3: nat, c2: nat, c1: nat, c0: nat)
    requires c3 < WORD && c2 < WORD && c1 < WORD && c0 < WORD
    requires WordsBytes(c3, c2, c1, c0) == iv
    ensures Value(c3, c2, c1, c0) == FromBigEndian(iv) < COUNTERS
  {
    hide FromBigEndian, BigEndian, WordsBytes;
    WordsAreBlock(c3, c2, c1, c0);
    assert Pow256(16) == COUNTERS by {
      WordIsBigEndian(0);
      PowJoins(4, 4);
      PowJoins(8, 8);
    }
    BigEndianReadsBack(Value(c3, c2, c1, c0), BLOCK);
  }

  /** The words read from a block are its number, and the number is the block. */
  lemma WordsOfBlock(iv: Block)
    ensures var v := Value(BytesWord(iv[..4]), BytesWord(iv[4..8]), BytesWord(iv[8..12]), BytesWord(iv[12..]));
            v == FromBigEndian(iv) < COUNTERS && BigEndian(v, BLOCK) == iv
  {
    hide BigEndian, FromBigEndian, WordBytes, BytesWord, Value;
    var c3, c2, c1, c0 := BytesWord(iv[..4]), BytesWord(iv[4..8]), BytesWord(iv[8..12]), BytesWord(iv[12..]);
    WordReadsBack(iv[..4]);
    WordReadsBack(iv[4..8]);
    WordReadsBack(iv[8..12]);
    WordReadsBack(iv[12..]);
    assert iv == iv[..4] + iv[4..8] + iv[8..12] + iv[12..];
    WordsAreBlock(c3, c2, c1, c0);
    BlockValue(iv, c3, c2, c1, c0);
  }

  lemma ZeroBlock()
    ensures BigEndian(0, BLOCK) == seq(BLOCK, _ => 0) && Value(0, 0, 0, 0) == Wrap(0) == 0
  {
    WordsAreBlock(0, 0, 0, 0);
    assert WordBytes(0) == [0, 0, 0, 0];
  }

  lemma NextCount(n: nat)
    ensures Wrap(Wrap(n) + 1) == Wrap(n + 1)
  {
    var q := n / COUNTERS;
    assert n + 1 == q * COUNTERS + (n % COUNTERS + 1);
    if n % COUNTERS + 1 == COUNTERS {
      assert n + 1 == (q + 1) * COUNTERS;
    }
  }

  lemma Position(b: nat, c: nat)
    requires c < BLOCK
    ensures (b * BLOCK + c) / BLOCK == b && (b * BLOCK + c) % BLOCK == c
  {
  }

  // ---- The cipher object

  class AesCounterCipher {
    var encrypt: Block -> KeyBlock
    var counter0: nat
    var counter1: nat
    var counter2: nat
    var counter3: nat
    const ctrBuf: array<byte>
    const buf: array<bv8>
    var pos: nat
    /** The number the counter started from, and how many bytes have been encrypted since. */
    ghost var iv: nat
    ghost var done: nat

    ghost predicate Separate() {
      && ctrBuf.Length == BLOCK && buf.Length == BLOCK
      && ctrBuf as object != buf as object
    }

    /** Not one of the cipher's own arrays. */
    ghost predicate Outside(a: array<bv8>) {
      a != buf && a as object != ctrBuf as object
    }

    ghost predicate Shaped()
      reads `counter0, `counter1, `counter2, `counter3
    {
      && Separate()
      && counter0 < WORD && counter1 < WORD && counter2 < WORD && counter3 < WORD
    }

    ghost function Counter(): nat
      reads `counter0, `counter1, `counter2, `counter3
    {
      Value(counter3, counter2, counter1, counter0)
    }

    ghost predicate WordAt(at: nat, w: nat)
      requires ctrBuf.Length == BLOCK && at + 4 <= BLOCK && w < WORD
      reads ctrBuf
    {
      var s := WordBytes(w);
      ctrBuf[at] == s[0] && ctrBuf[at + 1] == s[1] && ctrBuf[at + 2] == s[2] && ctrBuf[at + 3] == s[3]
    }

    /** `ctrBuf` holds these four words in network order. */
    ghost predicate Copied(c3: nat, c2: nat, c1: nat, c0: nat)
      requires ctrBuf.Length == BLOCK && c3 < WORD && c2 < WORD && c1 < WORD && c0 < WORD
      reads ctrBuf
    {
      WordAt(0, c3) && WordAt(4, c2) && WordAt(8, c1) && WordAt(12, c0)
    }

    lemma CopiedIsCounter()
      requires Shaped()
      ensures Copied(counter3, counter2, counter1, counter0) <==> ctrBuf[..] == BigEndian(Counter(), BLOCK)
    {
      hide WordBytes, BigEndian;
      WordsAreBlock(counter3, counter2, counter1, counter0);
    }

    /** `ctrBuf` is the counter in network order and `buf` its encryption. */
    ghost predicate Filled()
      reads `encrypt, `counter0, `counter1, `counter2, `counter3, ctrBuf, buf
    {
      && Shaped()
      && ctrBuf[..] == BigEndian(Counter(), BLOCK)
      && buf[..] == encrypt(BigEndian(Counter(), BLOCK))
    }

    /** The position after `done` bytes from `iv`: SP 800-38A's counter block and the offset in it. */
    ghost predicate Valid()
      reads this, ctrBuf, buf
    {
      && Separate() && Filled()
      && pos == done % BLOCK
      && Counter() == Wrap(iv + done / BLOCK)
    }

    /** While the words hold `iv + b`, byte `c` of `buf` is byte `16 * b + c` of the key stream. */
    lemma BufIsKeyStream(b: nat, c: nat)
      requires Filled() && c < BLOCK && Counter() == Wrap(iv + b)
      ensures buf[c] == KeyStream(encrypt, iv, b * BLOCK + c)
    {
      Position(b, c);
      assert buf[..][c] == buf[c];
    }

    /** aes_fill_buf_ */
    method FillBuf()
      requires Shaped() && ctrBuf[..] == BigEndian(Counter(), BLOCK)
      modifies buf
      ensures Filled()
    {
      var out := encrypt(ctrBuf[..]);
      var k := 0;
      while k < BLOCK
        invariant 0 <= k <= BLOCK
        invariant buf[..k] == out[..k]
        modifies buf
      {
        buf[k] := out[k];
        k := k + 1;
      }
    }

    /** UPDATE_CTR_BUF for the word that sits at byte `at`. */
    method UpdateCtrBuf(at: nat, w: nat)
      requires ctrBuf.Length == BLOCK && at + 4 <= BLOCK && w < WORD
      modifies ctrBuf
      ensures WordAt(at, w)
      ensures forall k | 0 <= k < BLOCK && !(at <= k < at + 4) :: ctrBuf[k] == old(ctrBuf[k])
    {
      ctrBuf[at] := w / 0x100_0000;
      ctrBuf[at + 1] := w / 0x1_0000 % 256;
      ctrBuf[at + 2] := w / 0x100 % 256;
      ctrBuf[at + 3] := w % 256;
    }

    /** The nested carries at the end of a block, with only the changed words copied out. */
    method Carry()
      requires Shaped() && Copied(counter3, counter2, counter1, counter0)
      modifies `counter0, `counter1, `counter2, `counter3, ctrBuf
      ensures Shaped() && Copied(counter3, counter2, counter1, counter0)
      ensures counter0 == Inc(old(counter0))
      ensures counter1 == if counter0 == 0 then Inc(old(counter1)) else old(counter1)
      ensures counter2 == if counter0 == 0 && counter1 == 0 then Inc(old(counter2)) else old(counter2)
      ensures counter3 == if counter0 == 0 && counter1 == 0 && counter2 == 0 then Inc(old(counter3)) else old(counter3)
    {
      hide WordBytes;
      counter0 := Inc(counter0);
      if counter0 == 0 {
        counter1 := Inc(counter1);
        if counter1 == 0 {
          counter2 := Inc(counter2);
          if counter2 == 0 {
            counter3 := Inc(counter3);
            UpdateCtrBuf(0, counter3);
          }
          UpdateCtrBuf(4, counter2);
        }
        UpdateCtrBuf(8, counter1);
      }
      UpdateCtrBuf(12, counter0);
    }

    /** Advancing to the next block adds one to the 128-bit counter and keeps both copies current. */
    method NextBlock()
      requires Filled()
      modifies `counter0, `counter1, `counter2, `counter3, ctrBuf, buf
      ensures Filled()
      ensures Counter() == Wrap(old(Counter()) + 1)
    {
      hide BigEndian, WordBytes, Value, Copied;
      CopiedIsCounter();
      CarryIsIncrement(counter3, counter2, counter1, counter0);
      Carry();
      CopiedIsCounter();
      FillBuf();
    }

    /** The step from block `b` of the stream to the next one. */
    method AdvanceBlock(ghost b: nat)
      requires Filled() && Counter() == Wrap(iv + b)
      modifies `counter0, `counter1, `counter2, `counter3, ctrBuf, buf
      ensures Filled() && Counter() == Wrap(iv + (b + 1))
    {
      hide Filled, Counter, Wrap;
      NextCount(iv + b);
      NextBlock();
    }

    /** memcpy and memset of the counter bytes. */
    method SetCtrBuf(bytes: Block)
      requires ctrBuf.Length == BLOCK
      modifies ctrBuf
      ensures ctrBuf[..] == bytes
    {
      var k := 0;
      while k < BLOCK
        invariant 0 <= k <= BLOCK
        invariant forall j | 0 <= j < k :: ctrBuf[j] == bytes[j]
        modifies ctrBuf
      {
        ctrBuf[k] := bytes[k];
        k := k + 1;
      }
    }

    /** aes_set_iv */
    method SetIv(start: Block)
      requires Separate()
      modifies `counter0, `counter1, `counter2, `counter3, `pos, `iv, `done, ctrBuf, buf
      ensures Valid() && iv == FromBigEndian(start) && done == 0
    {
      hide BigEndian, FromBigEndian, WordBytes, BytesWord, Value;
      WordsOfBlock(start);
      counter3 := BytesWord(start[..4]);
      counter2 := BytesWord(start[4..8]);
      counter1 := BytesWord(start[8..12]);
      counter0 := BytesWord(start[12..]);
      pos := 0;
      SetCtrBuf(start);
      FillBuf();
      iv, done := Counter(), 0;
    }

    /** aes_set_key: the counter and the position go back to zero. */
    method SetKey(key: Block -> KeyBlock)
      requires Separate()
      modifies this, ctrBuf, buf
      ensures Valid() && encrypt == key && iv == 0 && done == 0
    {
      hide BigEndian, WordBytes, Value, Wrap;
      encrypt := key;
      counter0, counter1, counter2, counter3 := 0, 0, 0, 0;
      ZeroBlock();
      SetCtrBuf(seq(BLOCK, _ => 0));
      pos := 0;
      FillBuf();
      iv, done := 0, 0;
    }

    /** aes_new_cipher */
    constructor (key: Block -> KeyBlock, start: Block)
      ensures Valid() && fresh(ctrBuf) && fresh(buf)
      ensures encrypt == key && iv == FromBigEndian(start) && done == 0
    {
      encrypt, counter0, counter1, counter2, counter3, pos := key, 0, 0, 0, 0, 0;
      ctrBuf := new byte[BLOCK](_ => 0);
      buf := new bv8[BLOCK](_ => 0);
      new;
      SetKey(key);
      SetIv(start);
    }

    /** One byte of a call; `was` is what the output buffer held before the call. */
    method CryptByte(input: array<bv8>, inAt: nat, i: nat, output: array<bv8>, outAt: nat, c: nat,
                     ghost was: seq<bv8>, ghost text: seq<bv8>, ghost coded: seq<bv8>)
      requires Separate() && Outside(output) && c < BLOCK && |coded| == |text| && |was| == output.Length
      requires i < |text| && inAt + |text| <= input.Length && outAt + |text| <= output.Length
      requires text == (if input == output then was else input[..])[inAt..inAt + |text|]
      requires var gap := Gap(input, inAt, |text|, output, outAt);
               coded[i] == Masked(if i < gap then text[i] else coded[i - gap], buf[c])
      requires Holds(output[..], was, coded, outAt, i)
      modifies output
      ensures Holds(output[..], was, coded, outAt, i + 1)
      ensures input != output ==> input[..] == old(input[..])
    {
      hide Holds, Masked;
      var x := Masked(input[inAt + i], buf[c]);
      assert x == coded[i] by {
        Reads(input[..], output[..], was, text, coded, inAt, outAt, i, input == output);
        assert input[inAt + i] == input[..][inAt + i];
      }
      ghost var next := output[..][outAt + i := x];
      HoldsNext(output[..], was, coded, outAt, i, x);
      output[outAt + i] := x;
      assert output[..] == next;
    }

    /** aes_crypt, from place `inAt` of one buffer to place `outAt` of another or the same. */
    method Crypt(input: array<bv8>, inAt: nat, len: nat, output: array<bv8>, outAt: nat)
      requires Valid() && inAt + len <= input.Length && outAt + len <= output.Length && Outside(input) && Outside(output)
      modifies `counter0, `counter1, `counter2, `counter3, `pos, `done, ctrBuf, buf, output
      ensures Valid() && done == old(done) + len
      ensures output[outAt..outAt + len]
           == Written(encrypt, iv, old(done), old(input[inAt..inAt + len]), Gap(input, inAt, len, output, outAt))
      ensures forall k | 0 <= k < output.Length && !(outAt <= k < outAt + len) :: output[k] == old(output[k])
    {
      hide BigEndian, KeyStream, Written, Value, Filled, Wrap, Counter, Holds, Fed, Gap, Masked;
      ghost var source, was := input[..], output[..];
      ghost var text, gap := input[inAt..inAt + len], Gap(input, inAt, len, output, outAt);
      if len == 0 {
        return;
      }
      var c: nat := pos;
      var i: nat := 0;
      ghost var from: nat, b: nat := done, done / BLOCK;
      ghost var coded := Written(encrypt, iv, from, text, gap);
      HoldsNothing(was, coded, outAt);
      while true
        invariant Separate() && Filled() && c < BLOCK && i <= len
        invariant b * BLOCK + c == from + i && Counter() == Wrap(iv + b)
        invariant (input != output ==> input[..] == source) && Holds(output[..], was, coded, outAt, i)
        decreases len - i
      {
        ghost var first := i;
        while true
          invariant Separate() && Filled() && c < BLOCK && first <= i <= len
          invariant b * BLOCK + c == from + i && Counter() == Wrap(iv + b)
          invariant (input != output ==> input[..] == source) && Holds(output[..], was, coded, outAt, i)
          decreases len - i
        {
          if i == len {
            Position(b, c);
            HoldsAll(output[..], was, coded, outAt);
            pos := c;
            done := from + len;
            return;
          }
          BufIsKeyStream(b, c);
          WrittenAt(encrypt, iv, from, text, gap, i);
          CryptByte(input, inAt, i, output, outAt, c, was, text, coded);
          i := i + 1;
          c := c + 1;
          if c == BLOCK { break; }
        }
        c := 0;
        pos := 0;
        ghost var now := output[..];
        AdvanceBlock(b);
        assert output[..] == now;
        assert Holds(output[..], was, coded, outAt, i);
        b := b + 1;
      }
    }

    /** aes_crypt_inplace */
    method CryptInplace(data: array<bv8>, len: nat)
      requires Valid() && len <= data.Length && Outside(data)
      modifies `counter0, `counter1, `counter2, `counter3, `pos, `done, ctrBuf, buf, data
      ensures Valid() && done == old(done) + len
      ensures data[..] == Stream(encrypt, iv, old(done), old(data[..len])) + old(data[len..])
    {
      hide BigEndian, KeyStream, Stream, Value, Filled, Wrap, Counter, Masked;
      if len == 0 {
        return;
      }
      var c: nat := pos;
      var i: nat := 0;
      ghost var from: nat, b: nat := done, done / BLOCK;
      ghost var text := data[..len];
      ghost var coded := Stream(encrypt, iv, from, text);
      while true
        invariant Separate() && Filled() && c < BLOCK && i <= len
        invariant b * BLOCK + c == from + i && Counter() == Wrap(iv + b)
        invariant forall k | i <= k < len :: data[k] == text[k]
        invariant forall k | len <= k < data.Length :: data[k] == old(data[k])
        invariant forall k | 0 <= k < i :: data[k] == coded[k]
        decreases len - i
      {
        ghost var first := i;
        while true
          invariant Separate() && Filled() && c < BLOCK && first <= i <= len
          invariant b * BLOCK + c == from + i && Counter() == Wrap(iv + b)
          invariant forall k | i <= k < len :: data[k] == text[k]
          invariant forall k | len <= k < data.Length :: data[k] == old(data[k])
          invariant forall k | 0 <= k < i :: data[k] == coded[k]
          decreases len - i
        {
          if i == len {
            Position(b, c);
            pos := c;
            done := from + len;
            return;
          }
          BufIsKeyStream(b, c);
          StreamAt(encrypt, iv, from, text, i);
          data[i] := Masked(data[i], buf[c]);
          i := i + 1;
          c := c + 1;
          if c == BLOCK { break; }
        }
        c := 0;
        pos := 0;
        AdvanceBlock(b);
        b := b + 1;
      }
    }

    /** A sequence of calls, each in place or into a buffer of its own. */
    method CryptAll(calls: seq<seq<bv8>>, inPlace: seq<bool>) returns (outputs: seq<seq<bv8>>)
      requires Valid() && |inPlace| == |calls|
      modifies `counter0, `counter1, `counter2, `counter3, `pos, `done, ctrBuf, buf
      ensures Valid() && done == old(done) + |Flatten(calls)|
      ensures |outputs| == |calls| && Flatten(outputs) == Stream(encrypt, iv, old(done), Flatten(calls))
      ensures old(done) == 0 ==> Flatten(outputs) == Run(encrypt, iv, calls)
    {
      hide KeyStream, Stream, Filled, Flatten;
      outputs := [];
      ghost var from := done;
      StreamOfNothing(encrypt, iv, from);
      for k := 0 to |calls|
        invariant Valid() && |outputs| == k
        invariant done == from + |Flatten(calls[..k])|
        invariant Flatten(outputs) == Stream(encrypt, iv, from, Flatten(calls[..k]))
      {
        var out := CryptOne(calls[k], inPlace[k]);
        StreamConcat(encrypt, iv, from, Flatten(calls[..k]), calls[k]);
        assert calls[..k + 1] == calls[..k] + [calls[k]];
        FlattenNext(calls[..k], calls[k]);
        FlattenNext(outputs, out);
        outputs := outputs + [out];
      }
      assert calls[..|calls|] == calls;
      RunIsStream(encrypt, iv, calls);
    }

    /** One call on fresh buffers. */
    method CryptOne(text: seq<bv8>, inPlace: bool) returns (out: seq<bv8>)
      requires Valid()
      modifies `counter0, `counter1, `counter2, `counter3, `pos, `done, ctrBuf, buf
      ensures Valid() && done == old(done) + |text| && out == Stream(encrypt, iv, old(done), text)
    {
      hide KeyStream, Stream, Filled, Written;
      var input := new bv8[|text|](i requires 0 <= i < |text| => text[i]);
      assert input[..|text|] == input[0..|text|] == text;
      if inPlace {
        CryptInplace(input, |text|);
        return input[..];
      }
      var output := new bv8[|text|](_ => 0);
      WrittenIsStream(encrypt, iv, done, text, Gap(input, 0, |text|, output, 0));
      Crypt(input, 0, |text|, output, 0);
      assert output[..] == output[0..|text|];
      out := output[..];
    }
  }

  lemma StreamOfNothing(encrypt: Block -> KeyBlock, iv: nat, from: nat)
    ensures Flatten([]) == [] && Stream(encrypt, iv, from, []) == []
  {
  }

  lemma FlattenNext(calls: seq<seq<bv8>>, call: seq<bv8>)
    ensures Flatten(calls + [call]) == Flatten(calls) + call
  {
    assert (calls + [call])[..|calls|] == calls;
  }
}
