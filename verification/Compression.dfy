/** `tdefl_flush_block`, `tdefl_compress_normal` and `tdefl_compress`, writing to a
    callback that takes everything it is given. */
module Compression {
  import opened Bits
  import opened Canonical
  import opened Deflate
  import opened Blocks
  import opened BitOutput
  import opened TokenBuffers
  import opened BlockStart
  import opened BlockEmitter
  import opened Windows
  import opened Parsers
  import opened BlockFlush
  import opened BlockSizes
  import opened Adler

  // ---------------------------------------------------------------- streams

  lemma PayloadShift(p: nat, q: nat, b: Block)
    requires ValidBlock(b) && p % 8 == q % 8
    ensures Payload(p, b) == Payload(q, b)
  {
    hide ToBits, BytesToBits, BodyBits, HeaderBits, ValidHeader;
  }

  /** The bits of a block depend on its position only modulo 8. */
  lemma BlockBitsShift(p: nat, q: nat, b: Block, final: bool)
    requires ValidBlock(b) && p % 8 == q % 8
    ensures BlockBits(p, b, final) == BlockBits(q, b, final)
  {
    hide ToBits, Payload;
    assert (p + 3) % 8 == (q + 3) % 8;
    PayloadShift(p + 3, q + 3, b);
  }

  lemma ValidSnoc(bs: seq<Block>, b: Block)
    requires AllValid(bs) && ValidBlock(b)
    ensures AllValid(bs + [b])
  {
  }

  lemma RunStep(p: nat, cs: seq<Block>, bs: seq<Block>, b: Block)
    requires AllValid(cs) && AllValid(bs) && ValidBlock(b) && cs == bs + [b]
    ensures RunBits(p, cs) == RunBits(p, bs) + BlockBits(p + |RunBits(p, bs)|, b, false)
  {
    hide BlockBits, ValidBlock, AllValid;
    assert cs[..|cs| - 1] == bs && cs[|cs| - 1] == b;
  }

  lemma RunSnoc(p: nat, bs: seq<Block>, b: Block)
    requires AllValid(bs) && ValidBlock(b)
    ensures AllValid(bs + [b])
    ensures RunBits(p, bs + [b]) == RunBits(p, bs) + BlockBits(p + |RunBits(p, bs)|, b, false)
  {
    hide BlockBits, ValidBlock, AllValid;
    ValidSnoc(bs, b);
    RunStep(p, bs + [b], bs, b);
  }

  lemma OutputSnoc(out: seq<byte>, bs: seq<Block>, b: Block)
    ensures RunOutput(out, bs + [b]) ==
            (var r := RunOutput(out, bs); if r.Some? then BlockOutput(r.value, b) else None)
  {
    assert (bs + [b])[..|bs|] == bs;
  }

  ghost function Prefix(zlib: bool, blocks: seq<Block>): seq<bool> {
    if zlib && blocks != [] then BytesToBits(ZLIB_HEADER) else []
  }

  /** What has been sent so far, the bits still in the bit buffer included. */
  ghost predicate Stream(sent: seq<bool>, zlib: bool, blocks: seq<Block>) {
    AllValid(blocks) && sent == Prefix(zlib, blocks) + RunBits(|Prefix(zlib, blocks)|, blocks)
  }

  /** A whole stream: its last block is final, and a checksum follows on a byte boundary. */
  ghost predicate WholeStream(sent: seq<byte>, zlib: bool, blocks: seq<Block>, last: Block, adler: nat) {
    AllValid(blocks) && ValidBlock(last) &&
    var pre := if zlib then BytesToBits(ZLIB_HEADER) else [];
    var body := pre + RunBits(|pre|, blocks);
    var all := body + BlockBits(|body|, last, true);
    BytesToBits(sent) == all + Trailer(|all|, Finish, zlib, adler)
  }

  ghost function Head(put: seq<bool>, zlib: bool, blocks: seq<Block>): seq<bool> {
    put + if zlib && blocks == [] then BytesToBits(ZLIB_HEADER) else []
  }

  /** A block, after the zlib header if it is the first. */
  ghost function Written(put: seq<bool>, zlib: bool, blocks: seq<Block>, b: Block, final: bool): seq<bool>
    requires ValidBlock(b)
  {
    var head := Head(put, zlib, blocks);
    head + BlockBits(|head|, b, final)
  }

  lemma StreamHead(base: seq<bool>, put: seq<bool>, zlib: bool, blocks: seq<Block>)
    requires Stream(base + put, zlib, blocks)
    ensures AllValid(blocks)
    ensures var pre := if zlib then BytesToBits(ZLIB_HEADER) else [];
            var head := Head(put, zlib, blocks);
            base + head == pre + RunBits(|pre|, blocks)
  {
    hide BlockBits, ValidBlock, BytesToBits;
    if blocks == [] {
      assert base + put == [];
    }
  }

  /** Block by block the stream grows; `base` has gone to the callback, `put` has not. */
  lemma StreamSnoc(base: seq<bool>, put: seq<bool>, zlib: bool, blocks: seq<Block>, b: Block)
    requires |base| % 8 == 0 && Stream(base + put, zlib, blocks) && ValidBlock(b)
    ensures Stream(base + Written(put, zlib, blocks, b, false), zlib, blocks + [b])
  {
    hide BlockBits, ValidBlock, BytesToBits, RunBits;
    StreamHead(base, put, zlib, blocks);
    var pre := if zlib then BytesToBits(ZLIB_HEADER) else [];
    var head := Head(put, zlib, blocks);
    RunSnoc(|pre|, blocks, b);
    BlockBitsShift(|head|, |base + head|, b, false);
    assert base + head + BlockBits(|head|, b, false) == base + (head + BlockBits(|head|, b, false));
    assert pre + RunBits(|pre|, blocks) + BlockBits(|head|, b, false) == pre + (RunBits(|pre|, blocks) + BlockBits(|head|, b, false));
  }

  lemma WrittenParts(put: seq<bool>, zlib: bool, blocks: seq<Block>, b: Block)
    requires ValidBlock(b)
    ensures Written(put, zlib, blocks, b, true) ==
            Head(put, zlib, blocks) + BlockBits(|Head(put, zlib, blocks)|, b, true)
  {
    hide BlockBits, Head, ValidBlock;
  }

  lemma WholeFrom(body: seq<bool>, zlib: bool, blocks: seq<Block>, b: Block, sent: seq<byte>, adler: nat)
    requires AllValid(blocks) && ValidBlock(b)
    requires var pre := if zlib then BytesToBits(ZLIB_HEADER) else []; body == pre + RunBits(|pre|, blocks)
    requires var all := body + BlockBits(|body|, b, true);
             BytesToBits(sent) == all + Trailer(|all|, Finish, zlib, adler)
    ensures WholeStream(sent, zlib, blocks, b, adler)
  {
    hide BlockBits, RunBits, AllValid, ValidBlock, BytesToBits, Trailer;
  }

  lemma TrailerShift(p: nat, q: nat, zlib: bool, adler: nat)
    requires p % 8 == q % 8
    ensures Trailer(p, Finish, zlib, adler) == Trailer(q, Finish, zlib, adler)
  {
    hide BytesToBits;
  }

  lemma StreamEnd(base: seq<bool>, put: seq<bool>, zlib: bool, blocks: seq<Block>, b: Block, sent: seq<byte>, adler: nat)
    requires |base| % 8 == 0 && Stream(base + put, zlib, blocks) && ValidBlock(b)
    requires var x := Written(put, zlib, blocks, b, true);
             BytesToBits(sent) == base + (x + Trailer(|x|, Finish, zlib, adler))
    ensures WholeStream(sent, zlib, blocks, b, adler)
  {
    hide *;
    StreamHead(base, put, zlib, blocks);
    var head := Head(put, zlib, blocks);
    var bits := BlockBits(|head|, b, true);
    WrittenParts(put, zlib, blocks, b);
    BlockBitsShift(|head|, |base + head|, b, true);
    TrailerShift(|head + bits|, |base + head + bits|, zlib, adler);
    var trailer := Trailer(|head + bits|, Finish, zlib, adler);
    assert base + (head + bits + trailer) == base + head + bits + trailer;
    WholeFrom(base + head, zlib, blocks, b, sent, adler);
  }

  lemma EmptySize(p: nat)
    ensures |BlockBits(p, Stored([]), false)| == 35 + (8 - (p + 3) % 8) % 8
  {
    hide ToBits;
  }

  lemma PastBoundary(p: nat)
    ensures (p + 35 + (8 - (p + 3) % 8) % 8) % 8 == 0
  {
    var q, r := (p + 3) / 8, (p + 3) % 8;
    assert p + 3 == 8 * q + r;
    if r == 0 {
      assert p + 35 == 8 * (q + 4);
    } else {
      assert p + 35 + (8 - r) == 8 * (q + 5);
    }
  }

  lemma FinishAligned(x: seq<bool>, zlib: bool, adler: nat)
    ensures |x + Trailer(|x|, Finish, zlib, adler)| % 8 == 0
  {
    hide BytesToBits;
  }

  lemma FlushAligned(x: seq<bool>, mode: FlushMode, zlib: bool, adler: nat)
    requires mode.SyncFlush? || mode.FullFlush?
    ensures |x + Trailer(|x|, mode, zlib, adler)| % 8 == 0
  {
    hide BlockBits;
    EmptySize(|x|);
    PastBoundary(|x|);
  }

  /** After a flush that was asked for, the bits end on a byte boundary. */
  lemma TrailerAligns(x: seq<bool>, mode: FlushMode, zlib: bool, adler: nat)
    ensures mode.NoFlush? || |x + Trailer(|x|, mode, zlib, adler)| % 8 == 0
  {
    hide Trailer;
    if mode.Finish? {
      FinishAligned(x, zlib, adler);
    } else if !mode.NoFlush? {
      FlushAligned(x, mode, zlib, adler);
    }
  }

  lemma AlignedSent(w: BitWriter, sent: seq<bool>)
    requires w.Valid() && |w.put| % 8 == 0
    ensures w.bitsIn == 0 && sent + ToBits(w.bitBuffer, w.bitsIn) == sent
  {
    BitsInIs(w);
  }

  /** The blocks after a flush that does not end the stream. */
  ghost function NextBlocks(blocks: seq<Block>, b: Block, mode: FlushMode): seq<Block> {
    if mode.NoFlush? then blocks + [b] else blocks + [b] + [Stored([])]
  }

  lemma NextNoFlush(blocks: seq<Block>, b: Block)
    ensures NextBlocks(blocks, b, NoFlush) == blocks + [b]
  {
  }

  lemma EmptyValid()
    ensures ValidBlock(Stored([]))
  {
  }

  lemma EmptyWritten(put: seq<bool>, zlib: bool, blocks: seq<Block>)
    requires blocks != [] && ValidBlock(Stored([]))
    ensures Written(put, zlib, blocks, Stored([]), false) == put + BlockBits(|put|, Stored([]), false)
  {
    hide BlockBits;
    assert put + [] == put;
  }

  lemma StreamFlush(base: seq<bool>, put: seq<bool>, zlib: bool, blocks: seq<Block>, b: Block, mode: FlushMode, adler: nat)
    requires |base| % 8 == 0 && Stream(base + put, zlib, blocks) && ValidBlock(b) && !mode.Finish?
    ensures var x := Written(put, zlib, blocks, b, false);
            Stream(base + (x + Trailer(|x|, mode, zlib, adler)), zlib, NextBlocks(blocks, b, mode))
  {
    hide BlockBits, ValidBlock, RunBits, Stream, Written, BytesToBits;
    var x := Written(put, zlib, blocks, b, false);
    StreamSnoc(base, put, zlib, blocks, b);
    if mode.NoFlush? {
      assert x + [] == x;
    } else {
      EmptyValid();
      StreamSnoc(base, x, zlib, blocks + [b], Stored([]));
      EmptyWritten(x, zlib, blocks + [b]);
    }
  }

  lemma EmptyOutput(out: seq<byte>)
    ensures BlockOutput(out, Stored([])) == Some(out)
  {
    assert out + [] == out;
  }

  lemma OutputFlush(out: seq<byte>, blocks: seq<Block>, b: Block, mode: FlushMode)
    requires RunOutput([], blocks).Some? && BlockOutput(RunOutput([], blocks).value, b) == Some(out)
    ensures RunOutput([], NextBlocks(blocks, b, mode)) == Some(out)
  {
    hide RunOutput, BlockOutput;
    OutputSnoc([], blocks, b);
    OutputSnoc([], blocks + [b], Stored([]));
    EmptyOutput(out);
  }

  /** Whatever its form, the block stands for the source bytes of the tokens, also for a reader who
      knows nothing from before `floor`. */
  lemma BlockStandsFor(src: seq<byte>, floor: nat, start: nat, total: nat, ts: seq<Token>, b: Block)
    requires floor <= start && start + total <= |src| && Expand(src[floor..start], ts) == Some(src[floor..start + total])
    requires if b.Stored? then b.data == src[start..start + total] else b.tokens == ts
    ensures BlockOutput(src[floor..start], b) == Some(src[floor..start + total])
    ensures BlockOutput(src[..start], b) == Some(src[..start + total])
  {
    hide Expand;
    ExpandAfter(src[..floor], src[floor..start], ts);
    assert src[..floor] + src[floor..start] == src[..start];
    assert src[..floor] + src[floor..start + total] == src[..start + total];
    assert src[floor..start] + src[start..start + total] == src[floor..start + total];
    assert src[..start] + src[start..start + total] == src[..start + total];
  }

  /** The blocks from the `kept`th on, after one more flush. */
  lemma OutputSince(blocks: seq<Block>, kept: nat, b: Block, mode: FlushMode, mid: seq<byte>, out: seq<byte>)
    requires kept <= |blocks| && RunOutput([], blocks[kept..]) == Some(mid) && BlockOutput(mid, b) == Some(out)
    ensures RunOutput([], NextBlocks(blocks, b, mode)[kept..]) == Some(out)
  {
    hide RunOutput, BlockOutput;
    OutputFlush(out, blocks[kept..], b, mode);
    assert NextBlocks(blocks, b, mode)[kept..] == NextBlocks(blocks[kept..], b, mode);
  }

  /** The first `mark` bytes that were sent are the header and the first `kept` blocks. */
  ghost predicate Marked(sink: seq<byte>, zlib: bool, blocks: seq<Block>, kept: nat, mark: nat) {
    kept <= |blocks| && mark <= |sink| && AllValid(blocks) &&
    (kept > 0 ==> BytesToBits(sink)[..8 * mark] == Prefix(zlib, blocks) + RunBits(|Prefix(zlib, blocks)|, blocks[..kept]))
  }

  /** The blocks sent since the history was forgotten stand for the source since then, and need
      nothing from before. */
  ghost predicate FreshOf(
    sink: seq<byte>, zlib: bool, blocks: seq<Block>, kept: nat, mark: nat, floor: nat, src: seq<byte>, start: nat)
  {
    Marked(sink, zlib, blocks, kept, mark) && (kept == 0 ==> mark == floor == 0) && floor <= start <= |src| &&
    RunOutput([], blocks[kept..]) == Some(src[floor..start])
  }

  /** The same for a finished stream. */
  ghost predicate FreshAll(
    sink: seq<byte>, zlib: bool, blocks: seq<Block>, last: Block, kept: nat, mark: nat, floor: nat, src: seq<byte>)
  {
    Marked(sink, zlib, blocks, kept, mark) && (kept == 0 ==> mark == floor == 0) && floor <= |src| &&
    RunOutput([], blocks[kept..]).Some? && BlockOutput(RunOutput([], blocks[kept..]).value, last) == Some(src[floor..])
  }

  lemma MarkedAll(sink: seq<byte>, zlib: bool, blocks: seq<Block>)
    requires Stream(BytesToBits(sink), zlib, blocks) && blocks != []
    ensures Marked(sink, zlib, blocks, |blocks|, |sink|)
  {
    hide RunBits, BytesToBits, AllValid;
    assert blocks[..|blocks|] == blocks;
    var bits := BytesToBits(sink);
    assert bits[..|bits|] == bits;
  }

  lemma NothingAfter<T>(s: seq<T>)
    ensures s[|s|..] == [] && s[|s|..|s|] == []
  {
  }

  lemma NoOutput()
    ensures RunOutput([], []) == Some([])
  {
  }

  lemma FreshHere(sink: seq<byte>, zlib: bool, blocks: seq<Block>, src: seq<byte>)
    requires Stream(BytesToBits(sink), zlib, blocks) && blocks != []
    ensures FreshOf(sink, zlib, blocks, |blocks|, |sink|, |src|, src, |src|)
  {
    hide Stream, Marked, RunOutput, BytesToBits;
    MarkedAll(sink, zlib, blocks);
    NothingAfter(blocks);
    NothingAfter(src);
    NoOutput();
  }

  lemma FreshLonger(sink: seq<byte>, zlib: bool, blocks: seq<Block>, kept: nat, mark: nat, floor: nat, src: seq<byte>, start: nat,
                    src': seq<byte>)
    requires FreshOf(sink, zlib, blocks, kept, mark, floor, src, start) && src <= src'
    ensures FreshOf(sink, zlib, blocks, kept, mark, floor, src', start)
  {
    hide Marked, RunOutput;
    assert src'[floor..start] == src[floor..start];
  }

  lemma MarkedParts(sink: seq<byte>, zlib: bool, blocks: seq<Block>, kept: nat, mark: nat)
    requires Marked(sink, zlib, blocks, kept, mark)
    ensures AllValid(blocks) && kept <= |blocks|
  {
  }

  lemma MarkedMore(sink: seq<byte>, zlib: bool, blocks: seq<Block>, kept: nat, mark: nat, sink': seq<byte>, blocks': seq<Block>)
    requires Marked(sink, zlib, blocks, kept, mark) && sink <= sink' && blocks <= blocks' && AllValid(blocks')
    ensures Marked(sink', zlib, blocks', kept, mark)
  {
    hide AllValid, RunBits, BytesToBits;
    assert blocks[..kept] == blocks'[..kept];
    assert sink' == sink + sink'[|sink|..];
    BytesToBitsConcat(sink, sink'[|sink|..]);
    assert BytesToBits(sink')[..8 * mark] == BytesToBits(sink)[..8 * mark];
  }

  lemma FreshStep(sink: seq<byte>, zlib: bool, blocks: seq<Block>, kept: nat, mark: nat, floor: nat, src: seq<byte>, start: nat,
                  b: Block, mode: FlushMode, sink': seq<byte>, next: nat)
    requires FreshOf(sink, zlib, blocks, kept, mark, floor, src, start) && ValidBlock(b) && sink <= sink'
    requires start <= next <= |src| && BlockOutput(src[floor..start], b) == Some(src[floor..next])
    ensures FreshOf(sink', zlib, NextBlocks(blocks, b, mode), kept, mark, floor, src, next)
  {
    hide RunOutput, BlockOutput, Marked, ValidBlock;
    MarkedParts(sink, zlib, blocks, kept, mark);
    EmptyValid();
    MarkedMore(sink, zlib, blocks, kept, mark, sink', NextBlocks(blocks, b, mode));
    OutputSince(blocks, kept, b, mode, src[floor..start], src[floor..next]);
  }

  lemma FreshEnd(sink: seq<byte>, zlib: bool, blocks: seq<Block>, kept: nat, mark: nat, floor: nat, src: seq<byte>, start: nat,
                 b: Block, sink': seq<byte>)
    requires FreshOf(sink, zlib, blocks, kept, mark, floor, src, start) && sink <= sink'
    requires BlockOutput(src[floor..start], b) == Some(src[floor..])
    ensures FreshAll(sink', zlib, blocks, b, kept, mark, floor, src)
  {
    hide RunOutput, BlockOutput, Marked;
    MarkedParts(sink, zlib, blocks, kept, mark);
    MarkedMore(sink, zlib, blocks, kept, mark, sink', blocks);
  }

  // ---------------------------------------------------------------- the bits of one flush

  /** The zlib header, if it is due, and the final bit. */
  method PutHead(w: BitWriter, zlib: bool, first: bool, final: bool, ghost blocks: seq<Block>)
    requires w.Valid() && (first <==> blocks == [])
    modifies w, w.buf
    ensures w.Valid() && w.put == Head(ToBits(old(w.bitBuffer), old(w.bitsIn)), zlib, blocks) + [final]
  {
    hide BitWriter.Valid, BytesToBits, ToBits;
    w.Begin();
    ghost var put := w.put;
    assert put + [] == put;
    if zlib && first {
      PutZlibHeader(w);
    }
    Pow2Values();
    FinalBit(final);
    w.PutBits(if final then 1 else 0, 1);
  }

  lemma HeadBound(v: nat, n: nat, zlib: bool, blocks: seq<Block>)
    ensures |Head(ToBits(v, n), zlib, blocks)| <= n + 16
  {
    hide ToBits;
  }

  lemma WrittenIs(put: seq<bool>, zlib: bool, blocks: seq<Block>, b: Block, final: bool)
    requires ValidBlock(b)
    ensures var head := Head(put, zlib, blocks); Written(put, zlib, blocks, b, final) == head + [final] + BlockTail(|head| + 1, b)
  {
    hide Head;
    BlockIs(Head(put, zlib, blocks), b, final);
  }

  /** A buffer of fewer bits than it has room for is not full. */
  lemma RoomLeft(w: BitWriter)
    requires w.Valid()
    ensures |w.put| < 8 * OUT_BUF_END ==> w.pos < OUT_BUF_END
  {
    hide ToBits, BytesToBits, Pow2;
  }

  /** The first half of `tdefl_flush_block`: everything up to the check on the output buffer. */
  method PutBlock(w: BitWriter, tb: TokenBuffer, t: Tables, win: Window, start32: nat, raw: bool, forceStatic: bool,
                  zlib: bool, first: bool, adler: nat, mode: FlushMode, ghost blocks: seq<Block>, ghost start: nat)
    returns (ghost b: Block, ghost tried: Block)
    requires start32 == start % WORD && win.lookaheadPos - start < WORD
    requires Apart(w, tb, t) && w.Valid() && tb.Finished() && tb.Counted() && win.Valid()
    requires start + tb.totalBytes <= win.lookaheadPos && adler < 0x1_0000_0000 && (first <==> blocks == [])
    requires {win as object, win.dict, win.next, win.hash} !! {w, w.buf, tb, tb.litCount} && t.Apart({win, win.dict, win.next, win.hash})
    modifies w, w.buf, tb.litCount, t.lit.sizes, t.lit.codes, t.dist.sizes, t.dist.codes, t.cl.sizes, t.cl.codes
    ensures w.Valid() && ValidBlock(b)
    ensures var x := Written(ToBits(old(w.bitBuffer), old(w.bitsIn)), zlib, blocks, b, mode.Finish?);
            w.put == x + Trailer(|x|, mode, zlib, adler)
    ensures if b.Stored? then b.data == win.src[start..start + tb.totalBytes] else b.tokens == tb.tokens
    ensures (forceStatic ==> !b.Dynamic?) && w.pos < OUT_BUF_END
    ensures var near, p := win.lookaheadPos - start <= win.dictSize, |Head(ToBits(old(w.bitBuffer), old(w.bitsIn)), zlib, blocks)| + 1;
            Picked(b, tried, p, raw, near, win.src[start..start + tb.totalBytes]) &&
            (!(raw && near) ==> Tried(tried, tb.tokens, forceStatic, tb.totalBytes))
  {
    hide BitWriter.Valid, TokenBuffer.Finished, TokenBuffer.Counted, Window.Held, Window.Chained, ValidBlock, Trailer, BytesToBits, ToBits,
         BlockTail, Head, Written, WellCoded, AllTokens, Picked, Tried;
    StateNow(w);
    StaticNow(tb);
    ghost var put := ToBits(w.bitBuffer, w.bitsIn);
    HeadBound(w.bitBuffer, w.bitsIn, zlib, blocks);
    PutHead(w, zlib, first, mode.Finish?, blocks);
    b, tried := PutTail(w, tb, t, win, start32, raw, forceStatic, start);
    WrittenIs(put, zlib, blocks, b, mode.Finish?);
    ghost var x := w.put;
    if b.Dynamic? { DynamicFits(|Head(put, zlib, blocks)| + 1, b); }
    TrailerBound(|x|, mode, zlib, adler);
    PutTrailer(w, mode, zlib, adler);
    RoomLeft(w);
  }

  // ---------------------------------------------------------------- the compressor

  /** `tdefl_status`, with a callback that takes everything. */
  datatype Status = Okay | Done | BadParam

  /** The parts of a compressor share nothing. */
  ghost predicate PartsApart(p: Parser, w: BitWriter, t: Tables) {
    p.Shape() && Apart(w, p.tb, t) && t.Apart({p, p.win, p.win.dict, p.win.next, p.win.hash}) &&
    {w as object, w.buf} !! {p, p.win, p.win.dict, p.win.next, p.win.hash} &&
    p as object !in {p.win as object, p.win.dict, p.win.next, p.win.hash, p.tb, p.tb.buf, p.tb.litCount, p.tb.distCount}
  }

  class Compressor {
    const p: Parser
    const w: BitWriter
    const t: Tables
    const zlib: bool           // TDEFL_WRITE_ZLIB_HEADER
    const computeAdler: bool   // TDEFL_COMPUTE_ADLER32
    const forceStatic: bool    // TDEFL_FORCE_ALL_STATIC_BLOCKS
    var blockIndex: nat        // m_block_index
    var adler: nat             // m_adler32
    var status: Status         // m_prev_return_status
    var wantsToFinish: bool    // m_wants_to_finish
    var sink: seq<byte>        // what the callback has been given
    ghost var blocks: seq<Block>
    ghost var last: Block
    ghost var kept: nat        // how many blocks, and how many bytes, had been sent
    ghost var mark: nat        // when the history was forgotten

    ghost predicate Shape() {
      PartsApart(p, w, t) && t.Apart({this}) &&
      this as object !in {p as object, p.win, p.win.dict, p.win.next, p.win.hash, p.tb, p.tb.buf, p.tb.litCount, p.tb.distCount,
                          w, w.buf}
    }

    ghost function Sent(): seq<bool>
      reads this`sink, w
    {
      BytesToBits(sink) + ToBits(w.bitBuffer, w.bitsIn)
    }

    /** Whole blocks have been sent, and they stand for the source up to the tokens still held. */
    ghost predicate Flushed()
      reads this`sink, this`blocks, this`blockIndex, this`adler, w, p, p.win
    {
      Stream(Sent(), zlib, blocks) && p.start <= |p.win.src| && RunOutput([], blocks) == Some(p.win.src[..p.start]) &&
      (blockIndex == 0 <==> blocks == []) && adler < 0x1_0000_0000
    }

    /** A reader who starts where the history was forgotten needs nothing from before. */
    ghost predicate Fresh()
      reads this`sink, this`blocks, this`kept, this`mark, p, p.win
    {
      FreshOf(sink, zlib, blocks, kept, mark, p.win.floor, p.win.src, p.start)
    }

    ghost predicate Open()
      reads this`sink, this`blocks, this`blockIndex, this`adler, this`kept, this`mark, w, w.buf
      reads p, p.win, p.win.dict, p.win.next, p.win.hash, p.tb, p.tb.buf, p.tb.litCount, p.tb.distCount
    {
      Shape() && p.Valid() && w.Valid() && Flushed() && Fresh()
    }

    /** The checksum is that of all the source taken in. */
    ghost predicate Summed()
      reads this`adler, p.win`src
    {
      zlib || computeAdler ==> adler == Adler32(1, p.win.src)
    }

    /** The stream is finished: it is whole, and it stands for all of the source. */
    ghost predicate Whole()
      reads this`sink, this`blocks, this`last, this`adler, this`kept, this`mark, p.win`src, p.win`floor
    {
      WholeStream(sink, zlib, blocks, last, adler) && adler < 0x1_0000_0000 && RunOutput([], blocks).Some? &&
      BlockOutput(RunOutput([], blocks).value, last) == Some(p.win.src) &&
      FreshAll(sink, zlib, blocks, last, kept, mark, p.win.floor, p.win.src)
    }

    /** All the source has been sent, on a byte boundary, and an empty raw block after it. */
    ghost predicate Synced()
      reads this`sink, this`blocks, w, p, p.tb, p.win
    {
      w.bitsIn == 0 && p.tb.tokens == [] && p.win.lookaheadSize == 0 && p.savedLen == 0 && p.start == |p.win.src| &&
      blocks != [] && blocks[|blocks| - 1] == Stored([]) &&
      Stream(BytesToBits(sink), zlib, blocks) && RunOutput([], blocks) == Some(p.win.src)
    }

    /** Between two calls of `tdefl_compress`. */
    ghost predicate Valid()
      reads this, w, w.buf, p, p.win, p.win.dict, p.win.next, p.win.hash, p.tb, p.tb.buf, p.tb.litCount, p.tb.distCount
    {
      Shape() && Summed() &&
      match status
      case Okay => Open() && p.tb.codePos <= CODE_BUF_SIZE - 8
      case Done => Whole()
      case _ => true
    }

    /** The output buffer goes to the callback. */
    method Deliver(ghost base: seq<bool>)
      requires w.Valid() && w.pos < OUT_BUF_END && base == BytesToBits(sink)
      modifies this`sink
      ensures Sent() == base + w.put && old(sink) <= sink
      ensures |w.put| % 8 == 0 ==> BytesToBits(sink) == base + w.put
    {
      hide BitWriter.Valid, ToBits, BytesToBits;
      w.NothingDropped();
      BitsInIs(w);
      ghost var bs := w.buf[..w.pos];
      BytesToBitsConcat(sink, bs);
      if w.pos != 0 {
        sink := sink + w.buf[..w.pos];
      } else {
        assert sink + bs == sink;
      }
      assert base + (BytesToBits(bs) + ToBits(w.bitBuffer, w.bitsIn)) == base + BytesToBits(bs) + ToBits(w.bitBuffer, w.bitsIn);
      assert |w.put| % 8 == 0 ==> BytesToBits(bs) + ToBits(w.bitBuffer, w.bitsIn) == BytesToBits(bs);
    }

    /** Which form the source bytes from `start` on are sent in, after the bits `put`: dynamic codes,
        fixed ones for few bytes or by request, or raw where that takes no more or is wanted. */
    ghost predicate BestForm(b: Block, tried: Block, put: seq<bool>, before: seq<Block>, ts: seq<Token>, total: nat)
      reads p, p.win
    {
      p.start + total <= |p.win.src| &&
      var near := p.win.lookaheadPos - p.start <= p.win.dictSize;
      Picked(b, tried, |Head(put, zlib, before)| + 1, p.flags.raw, near, p.win.src[p.start..p.start + total]) &&
      (!(p.flags.raw && near) ==> Tried(tried, ts, forceStatic, total))
    }

    /** The first half of `tdefl_flush_block`, up to the check on the output buffer. */
    method EmitBlock(mode: FlushMode) returns (ghost tried: Block)
      requires Shape() && p.Valid() && w.Valid() && adler < 0x1_0000_0000 && (blockIndex == 0 <==> blocks == [])
      modifies this`last, w, w.buf, p.tb`codePos, p.tb.buf, p.tb.litCount
      modifies t.lit.sizes, t.lit.codes, t.dist.sizes, t.dist.codes, t.cl.sizes, t.cl.codes
      ensures w.Valid() && ValidBlock(last) && w.pos < OUT_BUF_END
      ensures var x := Written(ToBits(old(w.bitBuffer), old(w.bitsIn)), zlib, blocks, last, mode.Finish?);
              w.put == x + Trailer(|x|, mode, zlib, adler)
      ensures p.start + p.tb.totalBytes <= |p.win.src|
      ensures BlockOutput(p.win.src[..p.start], last) == Some(p.win.src[..p.start + p.tb.totalBytes])
      ensures p.win.floor <= p.start
      ensures BlockOutput(p.win.src[p.win.floor..p.start], last) == Some(p.win.src[p.win.floor..p.start + p.tb.totalBytes])
      ensures BestForm(last, tried, ToBits(old(w.bitBuffer), old(w.bitsIn)), blocks, p.tb.tokens, p.tb.totalBytes)
    {
      hide BitWriter.Valid, TokenBuffer.Valid, TokenBuffer.Finished, TokenBuffer.Counted, Window.Held, Window.Chained, ValidBlock, Trailer,
           BytesToBits, ToBits, Written, Expand, Genuine, BlockOutput, Picked, Tried;
      TotalIsCovers(p.tb);
      p.Reach();
      p.tb.Finish();
      last, tried := PutBlock(w, p.tb, t, p.win, p.start32, p.flags.raw, forceStatic, zlib, blockIndex == 0, adler, mode, blocks,
                       p.start);
      BlockStandsFor(p.win.src, p.win.floor, p.start, p.tb.totalBytes, p.tb.tokens, last);
    }

    /** What has gone to the callback ends a stream or, with the bits held back, goes on with it. */
    lemma Sending(base: seq<bool>, put: seq<bool>, sent: seq<bool>, old_: seq<Block>, b: Block, mode: FlushMode)
      requires |base| % 8 == 0 && Stream(base + put, zlib, old_) && ValidBlock(b)
      requires var x := Written(put, zlib, old_, b, mode.Finish?); sent == x + Trailer(|x|, mode, zlib, adler)
      requires Sent() == base + sent && (|sent| % 8 == 0 ==> BytesToBits(sink) == base + sent)
      ensures if mode.Finish? then WholeStream(sink, zlib, old_, b, adler) else Stream(Sent(), zlib, NextBlocks(old_, b, mode))
      ensures mode.NoFlush? || |sent| % 8 == 0
    {
      hide *;
      var x := Written(put, zlib, old_, b, mode.Finish?);
      TrailerAligns(x, mode, zlib, adler);
      if mode.Finish? {
        StreamEnd(base, put, zlib, old_, b, sink, adler);
      } else {
        StreamFlush(base, put, zlib, old_, b, mode, adler);
      }
    }

    /** `tdefl_flush_block`; the output buffer is never full at the end of a block, so nothing has
        been dropped. */
    method FlushBlock(mode: FlushMode) returns (ghost tried: Block)
      requires Open() && (!mode.NoFlush? ==> p.win.lookaheadSize == 0)
      modifies this`blockIndex, this`sink, this`blocks, this`last
      modifies w, w.buf, p`start, p`start32, p.tb, p.tb.buf, p.tb.litCount, p.tb.distCount
      modifies t.lit.sizes, t.lit.codes, t.dist.sizes, t.dist.codes, t.cl.sizes, t.cl.codes
      ensures if mode.Finish? then Whole() else Open() && p.tb.tokens == []
      ensures mode.SyncFlush? || mode.FullFlush? ==> Synced()
      ensures old(sink) <= sink && old(blocks) <= blocks
      ensures !mode.Finish? ==> blocks == NextBlocks(old(blocks), last, mode) && p.start == old(p.start + p.tb.totalBytes)
      ensures var b := last; old(BestForm(b, tried, ToBits(w.bitBuffer, w.bitsIn), blocks, p.tb.tokens, p.tb.totalBytes))
    {
      hide BitWriter.Valid, TokenBuffer.Valid, Window.Valid, ValidBlock, Trailer, BytesToBits, ToBits, Written, Expand, Genuine,
           Stream, WholeStream, RunOutput, BlockOutput, Parser.Recorded, Parser.SavedOk, FreshOf, FreshAll, BestForm;
      ghost var base, put := BytesToBits(sink), ToBits(w.bitBuffer, w.bitsIn);
      ghost var sink0, start0 := sink, p.start;
      tried := EmitBlock(mode);
      p.Restart();
      blockIndex := blockIndex + 1;
      Deliver(base);
      Sending(base, put, w.put, blocks, last, mode);
      if !mode.NoFlush? { p.NothingPending(); }
      if mode.Finish? {
        assert p.win.src[..p.start] == p.win.src && p.win.src[p.win.floor..p.start] == p.win.src[p.win.floor..];
        FreshEnd(sink0, zlib, blocks, kept, mark, p.win.floor, p.win.src, start0, last, sink);
      } else {
        FreshStep(sink0, zlib, blocks, kept, mark, p.win.floor, p.win.src, start0, last, mode, sink, p.start);
        OutputFlush(p.win.src[..p.start], blocks, last, mode);
        blocks := NextBlocks(blocks, last, mode);
        if !mode.NoFlush? {
          assert p.win.src[..p.start] == p.win.src;
          AlignedSent(w, BytesToBits(sink));
        }
      }
    }

    lemma OpenEmpty()
      requires Open() && p.tb.tokens == []
      ensures p.tb.codePos <= CODE_BUF_SIZE - 8
    {
    }

    lemma BufferIs()
      requires p.Valid()
      ensures p.tb.codePos == Off(p.tb.tokens, |p.tb.tokens|) && p.tb.totalBytes == Covers(p.tb.tokens)
    {
    }

    /** One round of the parser leaves what has been sent alone. */
    method Parse() returns (ghost found: Found)
      requires Open() && p.win.lookaheadSize > 0 && p.win.lookaheadPos < |p.win.src| && p.tb.codePos <= CODE_BUF_SIZE - 8
      modifies p`savedDist, p`savedLen, p`savedLit, p.tb, p.tb.buf, p.tb.litCount, p.tb.distCount
      modifies p.win`pos32, p.win`lookaheadPos, p.win`lookaheadSize, p.win`dictSize
      ensures Open() && p.win.lookaheadPos > old(p.win.lookaheadPos) && old(p.LookedFor(found))
      ensures p.tb.tokens == old(p.tb.tokens + p.Chosen(found).tokens) && p.PutOff() == old(p.Chosen(found)).saved
      ensures p.win.lookaheadPos == old(p.win.lookaheadPos + p.Chosen(found).move)
      ensures p.tb.codePos == Off(p.tb.tokens, |p.tb.tokens|) && p.tb.totalBytes == Covers(p.tb.tokens)
    {
      hide Parser.Valid, BitWriter.Valid, Stream, RunOutput, Sent, FreshOf, Parser.Chosen, Parser.LookedFor;
      found := p.Round();
      BufferIs();
    }

    /** One turn of the parsing loop, with a flush when the token buffer is full or no longer pays. */
    method Turn() returns (ghost found: Found)
      requires Open() && p.win.lookaheadSize > 0 && p.win.lookaheadPos < |p.win.src| && p.tb.codePos <= CODE_BUF_SIZE - 8
      modifies this`blockIndex, this`sink, this`blocks, this`last, w, w.buf
      modifies p, p.tb, p.tb.buf, p.tb.litCount, p.tb.distCount, p.win`pos32, p.win`lookaheadPos, p.win`lookaheadSize, p.win`dictSize
      modifies t.lit.sizes, t.lit.codes, t.dist.sizes, t.dist.codes, t.cl.sizes, t.cl.codes
      ensures Open() && p.win.lookaheadPos > old(p.win.lookaheadPos) && p.tb.codePos <= CODE_BUF_SIZE - 8
      ensures old(sink) <= sink && old(blocks) <= blocks
      ensures old(p.LookedFor(found)) && p.PutOff() == old(p.Chosen(found)).saved
      ensures p.win.lookaheadPos == old(p.win.lookaheadPos + p.Chosen(found).move)
      ensures var ts := old(p.tb.tokens + p.Chosen(found).tokens);
              var n, total := Off(ts, |ts|), Covers(ts);
              if n > 65528 || (total > 31744 && (n * 115 / 128 >= total || p.flags.raw))
              then p.tb.tokens == [] && blocks == old(blocks) + [last] && p.start == old(p.start) + total
              else p.tb.tokens == ts && blocks == old(blocks) && sink == old(sink) && p.start == old(p.start)
    {
      hide Shape, Parser.Valid, BitWriter.Valid, Flushed, Fresh, Off, Covers, Parser.Chosen, Parser.LookedFor, NextBlocks, BestForm;
      found := Parse();
      if p.tb.codePos > CODE_BUF_SIZE - 8 ||
         (p.tb.totalBytes > 31 * 1024 && (p.tb.codePos * 115 / 128 >= p.tb.totalBytes || p.flags.raw))
      {
        ghost var tried := FlushBlock(NoFlush);
        OpenEmpty();
        NextNoFlush(old(blocks), last);
      }
    }

    method Fill(input: seq<byte>, from: nat) returns (to: nat)
      requires Open() && from <= |input|
      modifies p.win, p.win.dict, p.win.next, p.win.hash
      ensures Open() && from <= to <= |input| && p.win.src == old(p.win.src) + input[from..to]
      ensures to == |input| || p.win.lookaheadSize == 258
      ensures p.win.lookaheadPos == old(p.win.lookaheadPos) && p.win.lookaheadSize == old(p.win.lookaheadSize) + (to - from)
      ensures p.win.floor == old(p.win.floor)
    {
      hide Parser.Valid, BitWriter.Valid, Stream, RunOutput, FreshOf, Sent;
      ghost var src := p.win.src;
      to := p.Fill(input, from);
      assert p.win.src[..p.start] == src[..p.start];
      FreshLonger(sink, zlib, blocks, kept, mark, p.win.floor, src, p.start, p.win.src);
    }

    lemma OpenTotal()
      requires Open()
      ensures MAX_MATCH == 258 && |p.win.src| == p.win.lookaheadPos + p.win.lookaheadSize
    {
    }

    /** `tdefl_compress_normal`: all the input is taken in, and with a flush all of it is coded. */
    method CompressNormal(input: seq<byte>, flush: FlushMode)
      requires Open() && p.tb.codePos <= CODE_BUF_SIZE - 8
      modifies this`blockIndex, this`sink, this`blocks, this`last, w, w.buf
      modifies p, p.tb, p.tb.buf, p.tb.litCount, p.tb.distCount, p.win, p.win.dict, p.win.next, p.win.hash
      modifies t.lit.sizes, t.lit.codes, t.dist.sizes, t.dist.codes, t.cl.sizes, t.cl.codes
      ensures Open() && p.tb.codePos <= CODE_BUF_SIZE - 8 && p.win.src == old(p.win.src) + input
      ensures !flush.NoFlush? ==> p.win.lookaheadSize == 0
      ensures old(sink) <= sink && old(blocks) <= blocks && p.win.floor == old(p.win.floor)
    {
      hide *;
      ghost var src := p.win.src;
      var at := 0;
      assert src + input[..0] == src;
      OpenTotal();
      while at < |input| || (!flush.NoFlush? && p.win.lookaheadSize != 0)
        invariant at <= |input| && Open() && p.tb.codePos <= CODE_BUF_SIZE - 8 && p.win.src == src + input[..at]
        invariant |p.win.src| == p.win.lookaheadPos + p.win.lookaheadSize
        invariant old(sink) <= sink && old(blocks) <= blocks && p.win.floor == old(p.win.floor)
        decreases |src| + |input| - p.win.lookaheadPos
      {
        ghost var from := at;
        at := Fill(input, at);
        assert src + input[..from] + input[from..at] == src + input[..at];
        if flush.NoFlush? && p.win.lookaheadSize < MAX_MATCH { break; }
        ghost var found := Turn();
        OpenTotal();
      }
      assert src + input[..|input|] == src + input;
    }

    /** From here on nothing that was sent before is needed. */
    lemma FreshNow()
      requires Open() && Synced()
      ensures FreshOf(sink, zlib, blocks, |blocks|, |sink|, |p.win.src|, p.win.src, p.start)
    {
      hide Shape, Parser.Valid, BitWriter.Valid, FreshOf, RunOutput, RunBits, BytesToBits, ValidBlock;
      FreshHere(sink, zlib, blocks, p.win.src);
    }

    /** `TDEFL_FULL_FLUSH` forgets the dictionary and the hash chains. */
    method ForgetHistory()
      requires Open() && Synced()
      modifies this`kept, this`mark, p.win`dictSize, p.win`floor, p.win.next, p.win.hash
      ensures Open() && Synced() && p.win.floor == |p.win.src| && kept == |blocks| && mark == |sink|
    {
      hide TokenBuffer.Valid, BitWriter.Valid, Window.Valid, Stream, RunOutput, Genuine, FreshOf;
      FreshNow();
      assert |p.win.src| == p.win.lookaheadPos;
      p.win.Forget();
      kept, mark := |blocks|, |sink|;
      assert p.win.src[p.win.floor..p.start] == [] == p.win.src[p.win.floor..p.win.lookaheadPos];
      assert p.Recorded(p.win.lookaheadPos);
    }

    /** The flush that was asked for, once everything has been parsed. */
    method FinalFlush(flush: FlushMode)
      requires Open() && p.tb.codePos <= CODE_BUF_SIZE - 8 && Summed()
      requires !flush.NoFlush? ==> p.win.lookaheadSize == 0
      modifies this`blockIndex, this`sink, this`blocks, this`last
      modifies w, w.buf, p`start, p`start32, p.tb, p.tb.buf, p.tb.litCount, p.tb.distCount, p.win`dictSize, p.win.next, p.win.hash
      modifies t.lit.sizes, t.lit.codes, t.dist.sizes, t.dist.codes, t.cl.sizes, t.cl.codes
      modifies this`kept, this`mark, p.win`floor
      ensures Summed() && if flush.Finish? then Whole() else Open() && p.tb.codePos <= CODE_BUF_SIZE - 8
      ensures flush.SyncFlush? || flush.FullFlush? ==> Synced()
      ensures old(sink) <= sink && old(blocks) <= blocks && (flush.NoFlush? ==> sink == old(sink) && blocks == old(blocks))
      ensures if flush.FullFlush? then p.win.floor == |p.win.src| && kept == |blocks| && mark == |sink|
              else p.win.floor == old(p.win.floor) && kept == old(kept) && mark == old(mark)
    {
      hide *;
      if !flush.NoFlush? && p.win.lookaheadSize == 0 {
        ghost var tried := FlushBlock(flush);
        if !flush.Finish? { OpenEmpty(); }
        if flush.FullFlush? {
          ForgetHistory();
        }
      }
    }

    method UpdateAdler(input: seq<byte>, ghost src: seq<byte>)
      requires Open() && p.win.src == src + input && (zlib || computeAdler ==> adler == Adler32(1, src))
      modifies this`adler
      ensures Open() && Summed()
    {
      hide Parser.Valid, BitWriter.Valid, Stream, RunOutput, Adler32, FreshOf;
      if zlib || computeAdler {
        AdlerConcat(1, src, input);
        adler := Update(adler, input);
      }
    }

    lemma ValidOpen()
      requires Valid() && status == Okay
      ensures Open() && p.tb.codePos <= CODE_BUF_SIZE - 8 && Summed() && Shape()
    {
    }

    lemma NowSummed()
      requires Summed()
      ensures zlib || computeAdler ==> adler == Adler32(1, p.win.src)
    {
    }

    /** All the input is parsed and summed up. */
    method TakeIn(input: seq<byte>, flush: FlushMode)
      requires Open() && p.tb.codePos <= CODE_BUF_SIZE - 8 && Summed()
      modifies this`blockIndex, this`sink, this`blocks, this`last, this`adler, w, w.buf
      modifies p, p.tb, p.tb.buf, p.tb.litCount, p.tb.distCount, p.win, p.win.dict, p.win.next, p.win.hash
      modifies t.lit.sizes, t.lit.codes, t.dist.sizes, t.dist.codes, t.cl.sizes, t.cl.codes
      ensures Open() && p.tb.codePos <= CODE_BUF_SIZE - 8 && Summed() && p.win.src == old(p.win.src) + input
      ensures !flush.NoFlush? ==> p.win.lookaheadSize == 0
      ensures old(sink) <= sink && old(blocks) <= blocks && p.win.floor == old(p.win.floor)
    {
      hide *;
      ghost var src := p.win.src;
      NowSummed();
      CompressNormal(input, flush);
      UpdateAdler(input, src);
    }

    /** The work of a call that is not refused. */
    method Work(input: seq<byte>, flush: FlushMode)
      requires Open() && p.tb.codePos <= CODE_BUF_SIZE - 8 && Summed()
      modifies this`blockIndex, this`sink, this`blocks, this`last, this`adler, this`kept, this`mark, w, w.buf
      modifies p, p.tb, p.tb.buf, p.tb.litCount, p.tb.distCount, p.win, p.win.dict, p.win.next, p.win.hash
      modifies t.lit.sizes, t.lit.codes, t.dist.sizes, t.dist.codes, t.cl.sizes, t.cl.codes
      ensures Summed() && if flush.Finish? then Whole() else Open() && p.tb.codePos <= CODE_BUF_SIZE - 8
      ensures p.win.src == old(p.win.src) + input && (flush.SyncFlush? || flush.FullFlush? ==> Synced())
      ensures old(sink) <= sink && old(blocks) <= blocks
      ensures if flush.FullFlush? then p.win.floor == |p.win.src| && kept == |blocks| && mark == |sink|
              else p.win.floor == old(p.win.floor) && kept == old(kept) && mark == old(mark)
    {
      hide *;
      TakeIn(input, flush);
      FinalFlush(flush);
    }

    method Answer(flush: FlushMode)
      requires Shape() && Summed() && if flush.Finish? then Whole() else Open() && p.tb.codePos <= CODE_BUF_SIZE - 8
      modifies this`status
      ensures Valid() && status == if flush.Finish? then Done else Okay
    {
      hide Shape, Summed, Open, Whole;
      status := if flush.Finish? then Done else Okay;
    }

    method Refuse()
      requires Valid()
      modifies this`status
      ensures Valid() && status == BadParam
    {
      hide Shape, Summed, Open, Whole;
      status := BadParam;
    }

    /** `tdefl_compress`, with a callback: what it answers, what the receiver has then, and from
        where on a receiver could start. */
    method Compress(input: seq<byte>, flush: FlushMode) returns (r: Status)
      requires Valid()
      modifies this, w, w.buf
      modifies p, p.tb, p.tb.buf, p.tb.litCount, p.tb.distCount, p.win, p.win.dict, p.win.next, p.win.hash
      modifies t.lit.sizes, t.lit.codes, t.dist.sizes, t.dist.codes, t.cl.sizes, t.cl.codes
      ensures r == status
      ensures r == BadParam <==> old(status) != Okay || (old(wantsToFinish) && !flush.Finish?)
      ensures Valid() && p.win.src == if r == BadParam then old(p.win.src) else old(p.win.src) + input
      ensures r != BadParam ==> (r == Done <==> flush.Finish?)
      ensures r != BadParam && (flush.SyncFlush? || flush.FullFlush?) ==> Synced()
      ensures old(sink) <= sink && old(blocks) <= blocks && (r == BadParam ==> sink == old(sink))
      ensures if r != BadParam && flush.FullFlush? then p.win.floor == |p.win.src| && kept == |blocks| && mark == |sink|
              else p.win.floor == old(p.win.floor) && kept == old(kept) && mark == old(mark)
    {
      hide *;
      if status != Okay || (wantsToFinish && !flush.Finish?) {
        Refuse();
        return status;
      }
      ValidOpen();
      wantsToFinish := wantsToFinish || flush.Finish?;
      Work(input, flush);
      Answer(flush);
      return status;
    }

    constructor (p: Parser, w: BitWriter, t: Tables, zlib: bool, computeAdler: bool, forceStatic: bool)
      requires PartsApart(p, w, t) && p.Valid() && w.Valid() && p.win.src == [] && p.start == 0 && w.bitsIn == 0 && p.win.floor == 0
      ensures Open() && this.p == p && this.w == w && this.t == t
      ensures sink == [] && adler == 1 && status == Okay && !wantsToFinish
      ensures this.zlib == zlib && this.computeAdler == computeAdler && this.forceStatic == forceStatic
    {
      hide Parser.Valid, BitWriter.Valid, Flushed, FreshOf;
      this.p, this.w, this.t := p, w, t;
      this.zlib, this.computeAdler, this.forceStatic := zlib, computeAdler, forceStatic;
      blockIndex, adler, status, wantsToFinish, sink, blocks, kept, mark := 0, 1, Okay, false, [], [], 0, 0;
      new;
      NothingSent(this);
    }
  }

  lemma FreshApart(p: Parser, w: BitWriter, t: Tables)
    requires p.Shape() && Apart(w, p.tb, t) && t.Apart({p, p.win, p.win.dict, p.win.next, p.win.hash})
    requires {w as object, w.buf} !! {p, p.win, p.win.dict, p.win.next, p.win.hash}
    requires p as object !in {p.win as object, p.win.dict, p.win.next, p.win.hash, p.tb, p.tb.buf, p.tb.litCount, p.tb.distCount}
    ensures PartsApart(p, w, t)
  {
  }

  lemma ReadyToStart(c: Compressor)
    requires c.Open() && c.p.win.src == [] && c.adler == 1 && c.status == Okay && c.p.tb.tokens == []
    ensures c.Valid()
  {
    hide Parser.Valid, BitWriter.Valid, Compressor.Flushed;
    c.OpenEmpty();
    assert Adler32(1, []) == 1;
  }

  /** `tdefl_init`. */
  method Init(flags: Flags, zlib: bool, computeAdler: bool, forceStatic: bool) returns (c: Compressor)
    requires flags.maxProbes >= 1 && flags.maxProbesLong >= 1
    ensures fresh(c) && fresh(c.w) && fresh(c.w.buf) && fresh(c.p) && fresh(c.p.tb) && fresh(c.p.tb.buf)
    ensures fresh(c.p.tb.litCount) && fresh(c.p.tb.distCount) && fresh(c.p.win) && fresh(c.p.win.dict)
    ensures fresh(c.p.win.next) && fresh(c.p.win.hash) && fresh(c.t.lit.sizes) && fresh(c.t.lit.codes)
    ensures fresh(c.t.dist.sizes) && fresh(c.t.dist.codes) && fresh(c.t.cl.sizes) && fresh(c.t.cl.codes)
    ensures c.Valid() && c.status == Okay && !c.wantsToFinish && c.p.win.src == [] && c.sink == []
    ensures c.p.flags == flags && c.zlib == zlib && c.computeAdler == computeAdler && c.forceStatic == forceStatic
  {
    hide Parser.Valid, BitWriter.Valid, Window.Valid, TokenBuffer.Valid, Compressor.Open, Compressor.Valid, PartsApart;
    var win := new Window();
    var tb := new TokenBuffer();
    var p := new Parser(flags, win, tb);
    var w := new BitWriter();
    var t := new Tables();
    FreshApart(p, w, t);
    c := new Compressor(p, w, t, zlib, computeAdler, forceStatic);
    ReadyToStart(c);
  }

  lemma NothingSent(c: Compressor)
    requires c.sink == [] && c.w.bitsIn == 0 && c.blocks == [] && c.p.start == 0
    requires c.blockIndex == 0 && c.adler == 1 && c.kept == c.mark == c.p.win.floor == 0 && c.p.win.src == []
    ensures c.Flushed() && c.Fresh()
  {
    assert c.Sent() == [];
    assert Stream([], c.zlib, []);
  }
}
