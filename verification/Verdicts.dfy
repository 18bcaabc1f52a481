/** What the decompressor answers on streams that were not finished as the compressor does it:
    with any two header bytes, any four bytes in the place of the checksum, and anything after. */
module Verdicts {
  import opened Bits
  import opened Canonical
  import opened Blocks
  import opened Inflate
  import opened RoundTrip
  import opened Rfc1951
  import opened Adler

  /** The number that four bytes stand for, the most significant first. */
  function BigEndianOf(c: seq<byte>): nat
    requires |c| == 4
  {
    c[0] as nat * 0x100_0000 + c[1] as nat * 0x1_0000 + c[2] as nat * 0x100 + c[3]
  }

  /** Blocks from bit `p` on, the last one final, and then zeros up to the next byte. */
  function Body(p: nat, blocks: seq<Block>, last: Block): seq<bool>
    requires AllValid(blocks) && ValidBlock(last)
  {
    var run := RunBits(p, blocks);
    var block := BlockBits(p + |run|, last, true);
    run + block + Padding(p + |run| + |block|)
  }

  /** `src` is what the blocks stand for after `before`. */
  predicate StandsFor(before: seq<byte>, blocks: seq<Block>, last: Block, src: seq<byte>) {
    AllValid(blocks) && ValidBlock(last) && RunOutput(before, blocks).Some? &&
    BlockOutput(RunOutput(before, blocks).value, last) == Some(before + src)
  }

  lemma StandsValid(before: seq<byte>, blocks: seq<Block>, last: Block, src: seq<byte>)
    requires StandsFor(before, blocks, last, src)
    ensures AllValid(blocks) && ValidBlock(last)
  {
  }

  /** A raw stream, whatever follows it. */
  lemma BodyDecodes(s: seq<bool>, p: nat, blocks: seq<Block>, last: Block, before: seq<byte>, src: seq<byte>, cap: nat)
    requires StandsFor(before, blocks, last, src) && |before + src| <= cap && At(s, p, Body(p, blocks, last))
    ensures |before| <= cap
    ensures var t := InflateFrom(s, p, before, cap); t.Ok? && t.out == before + src && Align(t.pos) == p + |Body(p, blocks, last)|
  {
    hide At, RunBits, BlockBits, InflateFrom, AllValid, ValidBlock, RunOutput, BlockOutput;
    var run := RunBits(p, blocks);
    var block := BlockBits(p + |run|, last, true);
    AtSplit(s, p, run + block, Padding(p + |run| + |block|));
    StreamRoundTrip(s, p, blocks, last, before, cap);
  }

  lemma HeaderBitsAre(h: byte)
    ensures ToBits(h, 8)[5] == (h / 32 % 2 == 1) && ToBits(h, 8)[7] == (h / 128 % 2 == 1)
  {
    hide ToBits, Pow2;
    Pow2Values();
    ToBitsAt(h, 8, 5);
    ToBitsAt(h, 8, 7);
  }

  lemma MethodBits(h: byte)
    ensures ToBits(h, 8)[..4] == [false, false, false, true] <==> h % 16 == 8
  {
    hide ToBits, Pow2;
    Pow2Values();
    var low, eight := ToBits(h, 8)[..4], [false, false, false, true];
    FromToBits(h, 8);
    SplitBits(ToBits(h, 8), 4);
    assert FromBits(eight) == 8;
    if h % 16 == 8 { FromBitsInjective(low, eight); }
  }

  lemma AtByte(s: seq<bool>, p: nat, c: byte)
    requires At(s, p, ToBits(c, 8))
    ensures Num(s, p, 8) == c
  {
    Pow2Values();
    AtNum(s, p, c, 8);
  }

  lemma AtSlice(s: seq<bool>, p: nat, e: seq<bool>, i: nat, n: nat)
    requires At(s, p, e) && i + n <= |e|
    ensures At(s, p + i, e[i..i + n])
  {
    assert e == e[..i] + e[i..] && e[i..] == e[i..i + n] + e[i + n..];
    AtSplit(s, p, e[..i], e[i..]);
    AtSplit(s, p + i, e[i..i + n], e[i + n..]);
  }

  lemma AtBytes(s: seq<bool>, p: nat, bs: seq<byte>, i: nat)
    requires At(s, p, BytesToBits(bs)) && i < |bs|
    ensures Num(s, p + 8 * i, 8) == bs[i]
  {
    hide *;
    BytesToBitsAt(bs, i);
    AtSlice(s, p, BytesToBits(bs), 8 * i, 8);
    AtByte(s, p + 8 * i, bs[i]);
  }

  lemma AllAt(s: seq<bool>)
    ensures At(s, 0, s)
  {
    assert s[0..|s|] == s;
  }

  // ---------------------------------------------------------------- zlib streams

  /** Two header bytes, blocks, four bytes in the place of the checksum, and anything. */
  predicate ZlibStream(sent: seq<byte>, h: seq<byte>, blocks: seq<Block>, last: Block, sum: seq<byte>, more: seq<byte>)
    requires AllValid(blocks) && ValidBlock(last)
  {
    |h| == 2 && |sum| == 4 && BytesToBits(sent) == BytesToBits(h) + Body(16, blocks, last) + BytesToBits(sum) + BytesToBits(more)
  }

  /** Section 2.2 of RFC 1950, by the bits: the two bytes are a multiple of 31, no dictionary is
      asked for, the method is 8, and for a ring the window is at most 32768 bytes. */
  predicate HeaderGood(h: seq<byte>, ring: bool)
    requires |h| == 2
  {
    (h[0] as nat * 256 + h[1]) % 31 == 0 && !ToBits(h[1], 8)[5] && ToBits(h[0], 8)[..4] == [false, false, false, true] &&
    (ring ==> !ToBits(h[0], 8)[7])
  }

  /** The sums of all bytes and of those sums, from one and zero, modulo 65521. */
  function SumOf(bs: seq<byte>): nat {
    (|bs| + WeightedSum(bs)) % 65521 * 65536 + (1 + ByteSum(bs)) % 65521
  }

  lemma WindowBit(h: byte)
    ensures WindowFits(h) <==> !ToBits(h, 8)[7]
  {
    hide ToBits, Pow2;
    Pow2Values();
    HeaderBitsAre(h);
    if h / 16 <= 7 { Pow2Mono(8 + h / 16, 15); } else { Pow2Mono(16, 8 + h / 16); }
  }

  lemma HeaderIs(h: seq<byte>, ring: bool)
    requires |h| == 2
    ensures HeaderGood(h, ring) <==> HeaderOk(h[0], h[1]) && (ring ==> WindowFits(h[0]))
  {
    hide ToBits, WindowFits;
    HeaderBitsAre(h[1]);
    MethodBits(h[0]);
    WindowBit(h[0]);
  }

  lemma SumAt(s: seq<bool>, p: nat, sum: seq<byte>)
    requires |sum| == 4 && At(s, p, BytesToBits(sum))
    ensures BigNum(s, p) == BigEndianOf(sum)
  {
    hide At, Num, BytesToBits;
    AtBytes(s, p, sum, 0);
    AtBytes(s, p, sum, 1);
    AtBytes(s, p, sum, 2);
    AtBytes(s, p, sum, 3);
  }

  lemma FourAt(s: seq<bool>, a: seq<bool>, b: seq<bool>, c: seq<bool>, d: seq<bool>)
    requires s == a + b + c + d
    ensures At(s, 0, a) && At(s, |a|, b) && At(s, |a| + |b|, c) && |s| == |a| + |b| + |c| + |d|
  {
    hide At;
    AllAt(s);
    AtSplit(s, 0, a + b + c, d);
    AtSplit(s, 0, a + b, c);
    AtSplit(s, 0, a, b);
  }

  lemma ZlibParts(sent: seq<byte>, h: seq<byte>, blocks: seq<Block>, last: Block, sum: seq<byte>, more: seq<byte>)
    requires AllValid(blocks) && ValidBlock(last) && ZlibStream(sent, h, blocks, last, sum, more)
    ensures |h| == 2 && |sum| == 4
    ensures var s, body := BytesToBits(sent), Body(16, blocks, last);
            At(s, 0, BytesToBits(h)) && At(s, 16, body) && At(s, 16 + |body|, BytesToBits(sum))
    ensures Num(BytesToBits(sent), 0, 8) == h[0] && Num(BytesToBits(sent), 8, 8) == h[1]
    ensures 16 + |Body(16, blocks, last)| + 32 == 8 * (|sent| - |more|)
  {
    hide BytesToBits, Body, AllValid, ValidBlock, At, Num;
    var s := BytesToBits(sent);
    FourAt(s, BytesToBits(h), Body(16, blocks, last), BytesToBits(sum), BytesToBits(more));
    AtBytes(s, 0, h, 0);
    AtBytes(s, 0, h, 1);
  }

  /** Whatever stands in the header and in the place of the checksum: refused for a bad header,
      a mismatch exactly if the number is not the sum of the bytes, and good otherwise. */
  lemma ZlibVerdict(sent: seq<byte>, h: seq<byte>, blocks: seq<Block>, last: Block, sum: seq<byte>, more: seq<byte>,
                    ring: bool, before: seq<byte>, src: seq<byte>, cap: nat)
    requires StandsFor(before, blocks, last, src) && |before + src| <= cap && ZlibStream(sent, h, blocks, last, sum, more)
    ensures DecompressAfter(sent, true, ring, before, cap) ==
            if !HeaderGood(h, ring) then Failed
            else if BigEndianOf(sum) != SumOf(src) then Mismatch
            else Ok(8 * (|sent| - |more|), before + src)
  {
    hide InflateFrom, BytesToBits, Body, StandsFor, Align, Num, HeaderOk, WindowFits, HeaderGood, ZlibStream, Adler32, At,
         ByteSum, WeightedSum, BigNum, BigEndianOf;
    StandsValid(before, blocks, last, src);
    var s := BytesToBits(sent);
    ZlibParts(sent, h, blocks, last, sum, more);
    HeaderIs(h, ring);
    BodyDecodes(s, 16, blocks, last, before, src, cap);
    SumAt(s, 16 + |Body(16, blocks, last)|, sum);
    AdlerOfAll(src);
    assert (before + src)[|before|..] == src;
  }

  /** A raw stream, and anything after it. */
  lemma RawVerdict(sent: seq<byte>, blocks: seq<Block>, last: Block, more: seq<byte>, ring: bool, before: seq<byte>, src: seq<byte>,
                   cap: nat)
    requires StandsFor(before, blocks, last, src) && |before + src| <= cap
    requires BytesToBits(sent) == Body(0, blocks, last) + BytesToBits(more)
    ensures var t := DecompressAfter(sent, false, ring, before, cap); t.Ok? && t.out == before + src
  {
    hide InflateFrom, BytesToBits, Body, StandsFor, Align;
    StandsValid(before, blocks, last, src);
    var s := BytesToBits(sent);
    assert At(s, 0, Body(0, blocks, last) + BytesToBits(more)) by { AllAt(s); }
    AtSplit(s, 0, Body(0, blocks, last), BytesToBits(more));
    BodyDecodes(s, 0, blocks, last, before, src, cap);
  }
}
