/** The output half of `tdefl_flush_block`: one block in whichever form turns out, and
    the trailers. */
module BlockFlush {
  import opened Bits
  import opened Deflate
  import opened Blocks
  import opened BitOutput
  import opened TokenBuffers
  import opened BlockStart
  import opened BlockEmitter
  import opened BlockSizes
  import opened Windows

  // ---------------------------------------------------------------- padding and pairs

  lemma {:induction false} ZeroBits(n: nat)
    ensures ToBits(0, n) == Zeros(n)
  {
    if n > 0 {
      ZeroBits(n - 1);
      assert [false] + Zeros(n - 1) == Zeros(n);
    }
  }

  lemma BitsInIs(w: BitWriter)
    requires w.Valid()
    ensures w.bitsIn == |w.put| % 8 < 8
  {
  }

  /** Pad to a byte boundary. */
  method PutPadding(w: BitWriter)
    requires w.Valid()
    modifies w, w.buf
    ensures w.Valid() && w.put == old(w.put) + Padding(|old(w.put)|) && w.bitsIn == 0
  {
    hide BitWriter.Valid, ToBits, Zeros;
    BitsInIs(w);
    ghost var put := w.put;
    if w.bitsIn != 0 {
      ZeroBits(8 - w.bitsIn);
      w.PutBits(0, 8 - w.bitsIn);
    } else {
      assert put + Zeros(0) == put;
    }
    BitsInIs(w);
  }

  /** A 16-bit value and its complement. */
  method PutPair(w: BitWriter, v: nat)
    requires w.Valid() && v < 65536
    modifies w, w.buf
    ensures w.Valid() && w.put == old(w.put) + ToBits(v, 16) + ToBits(65535 - v, 16)
  {
    hide BitWriter.Valid, ToBits, BitXor, Pow2;
    Pow2Values();
    var z := v;
    w.PutBits(z % 65536, 16);
    XorOnes(z, 16);
    z := BitXor(z, 65535);
    w.PutBits(z % 65536, 16);
  }

  // ---------------------------------------------------------------- raw blocks

  lemma DataStart(src: seq<byte>, start: nat, put: seq<bool>)
    requires start <= |src|
    ensures put + BytesToBits(src[start..start + 0]) == put
  {
    assert src[start..start + 0] == [];
  }

  lemma DataSnoc(src: seq<byte>, start: nat, i: nat, put: seq<bool>)
    requires start + i < |src|
    ensures put + BytesToBits(src[start..start + (i + 1)]) == put + BytesToBits(src[start..start + i]) + ToBits(src[start + i], 8)
  {
    hide ToBits;
    assert src[start..start + (i + 1)] == src[start..start + i] + [src[start + i]];
    BytesToBitsConcat(src[start..start + i], [src[start + i]]);
    BytesToBitsOne(src[start + i]);
  }

  /** The bytes of a raw block, read back from the dictionary. */
  method PutData(w: BitWriter, win: Window, start32: nat, total: nat, ghost start: nat)
    requires start32 == start % WORD && w.Valid() && win.Valid() && win.lookaheadPos - win.dictSize <= start && start + total <= |win.src|
    requires {w as object, w.buf} !! {win, win.dict}
    modifies w, w.buf
    ensures w.Valid() && w.put == old(w.put) + BytesToBits(win.src[start..start + total])
  {
    hide BitWriter.Valid, ToBits, BytesToBits, Window.Held;
    Pow2Values();
    ghost var put, src := w.put, win.src;
    DataStart(src, start, put);
    for i := 0 to total
      invariant w.Valid() && win.Valid() && w.put == put + BytesToBits(src[start..start + i])
    {
      win.HeldHere(start + i);
      DataSnoc(src, start, i, put);
      WordNext(start, i);
      w.PutBits(win.dict[(start32 + i) % DICT_SIZE], 8);
    }
  }

  lemma FourParts(put: seq<bool>, a: seq<bool>, b: seq<bool>, c: seq<bool>, d: seq<bool>)
    ensures put + (a + b + c + d) == put + a + b + c + d
  {
    assert put + (a + b) == put + a + b;
    assert put + (a + b + c) == put + (a + b) + c;
    assert put + (a + b + c + d) == put + (a + b + c) + d;
  }

  lemma StoredParts(put: seq<bool>, p: nat, data: seq<byte>)
    requires |data| < 65536
    ensures put + StoredBits(p, data) ==
            put + Padding(p) + ToBits(|data|, 16) + ToBits(65535 - |data|, 16) + BytesToBits(data)
  {
    hide ToBits, BytesToBits, Padding;
    FourParts(put, Padding(p), ToBits(|data|, 16), ToBits(65535 - |data|, 16), BytesToBits(data));
  }

  method PutRaw(w: BitWriter, win: Window, start32: nat, total: nat, ghost start: nat)
    requires start32 == start % WORD && w.Valid() && win.Valid() && win.lookaheadPos - win.dictSize <= start && start + total <= |win.src|
    requires {w as object, w.buf} !! {win, win.dict} && total < 65536
    modifies w, w.buf
    ensures w.Valid() && w.put == old(w.put) + ToBits(0, 2) + StoredBits(|old(w.put)| + 2, win.src[start..start + total])
  {
    hide BitWriter.Valid, ToBits, BytesToBits, Window.Valid, Padding;
    Pow2Values();
    ghost var put, data := w.put, win.src[start..start + total];
    w.PutBits(0, 2);
    PutPadding(w);
    PutPair(w, total);
    PutData(w, win, start32, total, start);
    StoredParts(put + ToBits(0, 2), |put| + 2, data);
  }

  // ---------------------------------------------------------------- one block

  lemma OthersWell(b: Block)
    requires !b.Dynamic?
    ensures WellCoded(b)
  {
  }

  /** `tdefl_compress_block`. */
  method CompressBlock(w: BitWriter, tb: TokenBuffer, t: Tables, static_: bool) returns (fits: bool, ghost b: Block)
    requires Apart(w, tb, t) && w.Valid() && tb.Finished() && tb.Counted()
    modifies w, w.buf, tb.litCount, t.lit.sizes, t.lit.codes, t.dist.sizes, t.dist.codes, t.cl.sizes, t.cl.codes
    ensures w.Valid() && ValidBlock(b) && !b.Stored? && b.tokens == tb.tokens && fits == (w.pos < OUT_BUF_END)
    ensures w.put == old(w.put) + BlockTail(|old(w.put)|, b)
    ensures (static_ <==> b.Static?) && (static_ || BestCodes(b)) && (b.Static? ==> |w.put| <= |old(w.put)| + 650202) && WellCoded(b)
  {
    hide *;
    if static_ {
      fits := CompressStatic(w, tb, t);
      b := Static(tb.tokens);
      TailIs(old(w.put), b);
      OthersWell(b);
    } else {
      fits, b := CompressDynamic(w, tb, t);
      TailIs(old(w.put), b);
    }
  }

  lemma BlockIs(put: seq<bool>, b: Block, final: bool)
    requires ValidBlock(b)
    ensures put + BlockBits(|put|, b, final) == put + [final] + BlockTail(|put| + 1, b)
  {
    hide ToBits, Payload;
  }

  lemma FinalBit(final: bool)
    ensures ToBits(if final then 1 else 0, 1) == [final]
  {
  }

  lemma StateNow(w: BitWriter)
    requires w.Valid()
    ensures IsState(w.pos, w.bitBuffer, w.bitsIn, w.put) && w.bitsIn < 8
  {
  }

  lemma PosGrows(w: BitWriter, pos0: nat, bitBuffer0: nat, bitsIn0: nat, put0: seq<bool>)
    requires w.Valid() && IsState(pos0, bitBuffer0, bitsIn0, put0) && put0 <= w.put && bitsIn0 < 8
    ensures pos0 <= w.pos
  {
    hide ToBits, BytesToBits, Pow2;
  }

  lemma RawIs(put: seq<bool>, b: Block)
    requires b.Stored? && |b.data| <= 32768
    ensures ValidBlock(b)
    ensures put + BlockTail(|put|, b) == put + ToBits(0, 2) + StoredBits(|put| + 2, b.data)
    ensures |BlockTail(|put|, b)| <= 262200
  {
    hide ToBits, BytesToBits;
  }

  lemma StaticNow(tb: TokenBuffer)
    requires tb.Finished()
    ensures AllTokens(tb.tokens)
  {
  }

  /** How many bytes more are whole once the block has been put, from its final bit at `p - 1` on. */
  ghost function BytesFor(p: nat, b: Block): nat
    requires ValidBlock(b)
  {
    (p + |BlockTail(p, b)|) / 8 - p / 8
  }

  /** The block that is sent: `tried`, unless it would not pay or raw blocks are wanted, and the data
      is still `near` enough to be had. */
  ghost predicate Picked(b: Block, tried: Block, p: nat, raw: bool, near: bool, data: seq<byte>) {
    ValidBlock(tried) && b == if near && (raw || (data != [] && BytesFor(p, tried) + 1 >= |data|)) then Stored(data) else tried
  }

  /** The block that is tried first. */
  ghost predicate Tried(b: Block, ts: seq<Token>, forceStatic: bool, total: nat) {
    if forceStatic || total < 48 then b == Static(ts) else b.Dynamic? && b.tokens == ts && BestCodes(b)
  }

  lemma TriedIs(b: Block, ts: seq<Token>, forceStatic: bool, total: nat)
    requires !b.Stored? && b.tokens == ts && (forceStatic || total < 48 <==> b.Static?) && (b.Static? || BestCodes(b))
    ensures Tried(b, ts, forceStatic, total)
  {
  }

  /** The block that was tried has not filled the buffer, and has taken so many bytes. */
  lemma TriedBytes(pos0: nat, v0: nat, n0: nat, put0: seq<bool>, pos: nat, v: nat, n: nat, put: seq<bool>, b: Block)
    requires IsState(pos0, v0, n0, put0) && IsState(pos, v, n, put) && n0 < 8 && n < 8 && |put0| <= 64
    requires ValidBlock(b) && put == put0 + BlockTail(|put0|, b) && WellCoded(b) && !b.Stored? && AllTokens(b.tokens)
    requires b.Static? ==> |put| <= |put0| + 650202
    ensures pos < OUT_BUF_END && pos - pos0 == BytesFor(|put0|, b)
  {
    hide ToBits, Pow2, ValidBlock, WellCoded, BlockTail;
    if b.Dynamic? { DynamicFits(|put0|, b); }
    assert |put0| == 8 * pos0 + n0;
    assert |put| == 8 * pos + n;
  }

  /** What becomes of the block that was tried, with the fallbacks to a raw and to a static block. */
  method Settle(w: BitWriter, tb: TokenBuffer, t: Tables, win: Window, start32: nat, useRaw: bool, near: bool, fits: bool,
                pos0: nat, bitBuffer0: nat, bitsIn0: nat, ghost put0: seq<bool>, ghost tried: Block, ghost start: nat)
    returns (ghost b: Block)
    requires start32 == start % WORD && (near <==> win.lookaheadPos - start <= win.dictSize) && (useRaw ==> near)
    requires Apart(w, tb, t) && w.Valid() && tb.Finished() && win.Valid() && start + tb.totalBytes <= win.lookaheadPos
    requires {win as object, win.dict, win.next, win.hash} !! {w, w.buf, tb, tb.litCount} && t.Apart({win, win.dict, win.next, win.hash})
    requires IsState(pos0, bitBuffer0, bitsIn0, put0) && bitsIn0 < 8 && |put0| <= 64 && put0 <= w.put
    requires ValidBlock(tried) && WellCoded(tried) && (tried.Static? ==> |w.put| <= |put0| + 650202)
    requires useRaw || (!tried.Stored? && tried.tokens == tb.tokens && w.put == put0 + BlockTail(|put0|, tried))
    requires fits == (!useRaw && w.pos < OUT_BUF_END)
    modifies w, w.buf, t.lit.sizes, t.lit.codes, t.dist.sizes, t.dist.codes
    ensures w.Valid() && ValidBlock(b) && w.put == put0 + BlockTail(|put0|, b) && WellCoded(b)
    ensures if b.Stored? then b.data == win.src[start..start + tb.totalBytes] else b.tokens == tb.tokens
    ensures (tried.Dynamic? || !b.Dynamic?) && (!b.Dynamic? ==> |w.put| <= |put0| + 650202)
    ensures Picked(b, tried, |put0|, useRaw, near, win.src[start..start + tb.totalBytes])
  {
    hide WellCoded, BitWriter.Valid, TokenBuffer.Finished, Window.Held, Window.Chained, IsState, ValidBlock, BlockTail, StoredBits,
         AllTokens, BytesFor;
    StateNow(w);
    StaticNow(tb);
    b := tried;
    var total := tb.totalBytes;
    PosGrows(w, pos0, bitBuffer0, bitsIn0, put0);
    ghost var pos1, bitBuffer1, bitsIn1, put1 := w.pos, w.bitBuffer, w.bitsIn, w.put;
    if (useRaw || (total != 0 && w.pos - pos0 + 1 >= total)) && near {
      w.Restore(pos0, bitBuffer0, bitsIn0, put0);
      PutRaw(w, win, start32, total, start);
      b := Stored(win.src[start..start + total]);
      RawIs(put0, b);
      OthersWell(b);
    } else if !fits {
      w.Restore(pos0, bitBuffer0, bitsIn0, put0);
      StaticNow(tb);
      ghost var again := CompressStatic(w, tb, t);
      b := Static(tb.tokens);
      TailIs(put0, b);
      OthersWell(b);
    }
    if !useRaw { TriedBytes(pos0, bitBuffer0, bitsIn0, put0, pos1, bitBuffer1, bitsIn1, put1, tried); }
  }

  lemma RawTried()
    ensures ValidBlock(Stored([])) && WellCoded(Stored([]))
  {
  }

  /** Everything after the final bit. */
  method PutTail(w: BitWriter, tb: TokenBuffer, t: Tables, win: Window, start32: nat, raw: bool, forceStatic: bool, ghost start: nat)
    returns (ghost b: Block, ghost tried: Block)
    requires start32 == start % WORD && win.lookaheadPos - start < WORD && |w.put| <= 64
    requires Apart(w, tb, t) && w.Valid() && tb.Finished() && tb.Counted() && win.Valid()
    requires start + tb.totalBytes <= win.lookaheadPos
    requires {win as object, win.dict, win.next, win.hash} !! {w, w.buf, tb, tb.litCount} && t.Apart({win, win.dict, win.next, win.hash})
    modifies w, w.buf, tb.litCount, t.lit.sizes, t.lit.codes, t.dist.sizes, t.dist.codes, t.cl.sizes, t.cl.codes
    ensures w.Valid() && ValidBlock(b) && w.put == old(w.put) + BlockTail(|old(w.put)|, b)
    ensures if b.Stored? then b.data == win.src[start..start + tb.totalBytes] else b.tokens == tb.tokens
    ensures (forceStatic ==> !b.Dynamic?) && (!b.Dynamic? ==> |w.put| <= |old(w.put)| + 650202) && WellCoded(b)
    ensures var near := win.lookaheadPos - start <= win.dictSize;
            Picked(b, tried, |old(w.put)|, raw, near, win.src[start..start + tb.totalBytes]) &&
            (!(raw && near) ==> Tried(tried, tb.tokens, forceStatic, tb.totalBytes))
  {
    hide WellCoded, BitWriter.Valid, TokenBuffer.Finished, TokenBuffer.Counted, Window.Held, Window.Chained, IsState, ValidBlock,
         BlockTail, StoredBits, AllTokens, BytesFor, Tried, BestCodes;
    StateNow(w);
    WordDifference(win.lookaheadPos, start);
    var reach := (win.pos32 - start32) % WORD;
    var useRaw := raw && reach <= win.dictSize;
    var pos0, bitBuffer0, bitsIn0 := w.pos, w.bitBuffer, w.bitsIn;
    ghost var put0 := w.put;
    var fits := false;
    RawTried();
    tried := Stored([]);
    if !useRaw {
      fits, tried := CompressBlock(w, tb, t, forceStatic || tb.totalBytes < 48);
      TriedIs(tried, tb.tokens, forceStatic, tb.totalBytes);
    }
    b := Settle(w, tb, t, win, start32, useRaw, reach <= win.dictSize, fits, pos0, bitBuffer0, bitsIn0, put0, tried, start);
  }

  // ---------------------------------------------------------------- header and trailers

  datatype FlushMode = NoFlush | SyncFlush | FullFlush | Finish

  /** The two bytes of a zlib header, section 2.2 of RFC 1950. */
  const ZLIB_HEADER: seq<byte> := [0x78, 0x01]

  /** Four bytes, the most significant first. */
  function BigEndian(a: nat): seq<byte> {
    [a / 16777216 % 256, a / 65536 % 256, a / 256 % 256, a % 256]
  }

  lemma TwoBytes(a: byte, b: byte)
    ensures BytesToBits([a, b]) == ToBits(a, 8) + ToBits(b, 8)
  {
    hide ToBits;
    assert [a, b] == [a] + [b];
    BytesToBitsConcat([a], [b]);
    BytesToBitsOne(a);
    BytesToBitsOne(b);
  }

  method PutZlibHeader(w: BitWriter)
    requires w.Valid()
    modifies w, w.buf
    ensures w.Valid() && w.put == old(w.put) + BytesToBits(ZLIB_HEADER)
  {
    hide BitWriter.Valid, ToBits;
    Pow2Values();
    TwoBytes(0x78, 0x01);
    ghost var put := w.put;
    w.PutBits(0x78, 8);
    w.PutBits(0x01, 8);
    assert put + ToBits(0x78, 8) + ToBits(0x01, 8) == put + (ToBits(0x78, 8) + ToBits(0x01, 8));
  }

  function ShiftedLeft(a: nat, i: nat): nat {
    if i == 0 then a else ShiftedLeft(a, i - 1) * 256 % 0x1_0000_0000
  }

  lemma Bytes4(a: nat, b3: nat, b2: nat, b1: nat, b0: nat)
    requires b3 < 256 && b2 < 256 && b1 < 256 && b0 < 256
    requires a == b3 * 16777216 + b2 * 65536 + b1 * 256 + b0
    ensures a / 16777216 % 256 == b3 && a / 65536 % 256 == b2 && a / 256 % 256 == b1 && a % 256 == b0
    ensures a * 256 % 0x1_0000_0000 == b2 * 16777216 + b1 * 65536 + b0 * 256
  {
    assert a / 65536 == b3 * 256 + b2;
    assert a / 256 == b3 * 65536 + b2 * 256 + b1;
  }

  lemma Split4(a: nat)
    requires a < 0x1_0000_0000
    ensures a == (a / 16777216 % 256) * 16777216 + (a / 65536 % 256) * 65536 + (a / 256 % 256) * 256 + a % 256
  {
    assert a / 65536 == (a / 256) / 256 && a / 16777216 == (a / 65536) / 256;
  }

  lemma ShiftedByte(a: nat, i: nat)
    requires a < 0x1_0000_0000 && i < 4
    ensures ShiftedLeft(a, i) / 16777216 % 256 == BigEndian(a)[i]
    ensures ShiftedLeft(a, i + 1) == ShiftedLeft(a, i) * 256 % 0x1_0000_0000
  {
    Split4(a);
    var b3, b2, b1, b0 := a / 16777216 % 256, a / 65536 % 256, a / 256 % 256, a % 256;
    assert ShiftedLeft(a, 0) == a;
    Bytes4(a, b3, b2, b1, b0);
    assert ShiftedLeft(a, 1) == a * 256 % 0x1_0000_0000;
    Bytes4(ShiftedLeft(a, 1), b2, b1, b0, 0);
    Bytes4(ShiftedLeft(a, 2), b1, b0, 0, 0);
    Bytes4(ShiftedLeft(a, 3), b0, 0, 0, 0);
  }

  /** The checksum, written by shifting a 32-bit number left. */
  method PutChecksum(w: BitWriter, adler: nat)
    requires w.Valid() && adler < 0x1_0000_0000
    modifies w, w.buf
    ensures w.Valid() && w.put == old(w.put) + BytesToBits(BigEndian(adler))
  {
    hide BitWriter.Valid, ToBits, BytesToBits;
    Pow2Values();
    var a := adler;
    ghost var put := w.put;
    ghost var done: seq<byte> := [];
    assert put + BytesToBits([]) == put by { assert BytesToBits([]) == []; }
    for i := 0 to 4
      invariant w.Valid() && done == BigEndian(adler)[..i] && w.put == put + BytesToBits(done)
      invariant a == ShiftedLeft(adler, i)
    {
      ShiftedByte(adler, i);
      BytesToBitsConcat(done, [a / 16777216 % 256]);
      BytesToBitsOne(a / 16777216 % 256);
      w.PutBits(a / 16777216 % 256, 8);
      done := done + [a / 16777216 % 256];
      a := a * 256 % 0x1_0000_0000;
    }
    assert BigEndian(adler)[..4] == BigEndian(adler);
  }

  /** The bits after the block: the checksum of a finished stream, or an empty raw block. */
  ghost function Trailer(p: nat, mode: FlushMode, zlib: bool, adler: nat): seq<bool> {
    match mode
    case NoFlush => []
    case Finish => Padding(p) + (if zlib then BytesToBits(BigEndian(adler)) else [])
    case _ => BlockBits(p, Stored([]), false)
  }

  lemma TrailerBound(p: nat, mode: FlushMode, zlib: bool, adler: nat)
    ensures |Trailer(p, mode, zlib, adler)| <= 42
  {
    hide ToBits, BytesToBits;
    assert BytesToBits([]) == [] by { assert |BytesToBits([])| == 0; }
  }

  lemma ThreeZeros()
    ensures ToBits(0, 3) == [false] + ToBits(0, 2)
  {
  }

  lemma EmptyBlock(put: seq<bool>)
    ensures put + BlockBits(|put|, Stored([]), false) ==
            put + ToBits(0, 3) + Padding(|put| + 3) + ToBits(0, 16) + ToBits(65535, 16)
  {
    hide Padding, ToBits;
    var b := Stored([]);
    RawIs(put, b);
    ThreeZeros();
    var pad, n0, n1 := Padding(|put| + 3), ToBits(0, 16), ToBits(65535, 16);
    assert BytesToBits([]) == [];
    assert pad + n0 + n1 + [] == pad + n0 + n1;
    FourParts(put, [false] + ToBits(0, 2), pad, n0, n1);
    FourParts([], [false] + ToBits(0, 2), pad, n0, n1);
    assert [false] + ToBits(0, 2) + (pad + n0 + n1) == [false] + ToBits(0, 2) + pad + n0 + n1;
  }

  method PutTrailer(w: BitWriter, mode: FlushMode, zlib: bool, adler: nat)
    requires w.Valid() && adler < 0x1_0000_0000
    modifies w, w.buf
    ensures w.Valid() && w.put == old(w.put) + Trailer(|old(w.put)|, mode, zlib, adler)
  {
    hide BitWriter.Valid, ToBits, BytesToBits, BigEndian, Padding;
    ghost var put := w.put;
    if mode.NoFlush? {
      assert put + [] == put;
    } else if mode.Finish? {
      PutPadding(w);
      if zlib {
        PutChecksum(w, adler);
        assert put + Padding(|put|) + BytesToBits(BigEndian(adler)) == put + (Padding(|put|) + BytesToBits(BigEndian(adler)));
      } else {
        assert Padding(|put|) + [] == Padding(|put|);
      }
    } else {
      Pow2Values();
      w.PutBits(0, 3);
      PutPadding(w);
      PutPair(w, 0);
      EmptyBlock(put);
    }
  }
}
