/** What the compressor writes, the decompressor reads back. */
module EndToEnd {
  import opened Bits
  import opened Canonical
  import opened Blocks
  import opened Inflate
  import opened RoundTrip
  import opened Adler
  import opened Verdicts
  import opened Parsers
  import opened BlockFlush
  import opened Compression
  import opened BitInput
  import opened Histories
  import opened OutputBuffers
  import opened Inflaters

  /** The checksum is read back as it was written. */
  lemma ChecksumAt(s: seq<bool>, p: nat, adler: nat)
    requires adler < 0x1_0000_0000 && At(s, p, BytesToBits(BigEndian(adler)))
    ensures BigNum(s, p) == adler
  {
    hide At, Num, BytesToBits;
    var bs := BigEndian(adler);
    AtBytes(s, p, bs, 0);
    AtBytes(s, p, bs, 1);
    AtBytes(s, p, bs, 2);
    AtBytes(s, p, bs, 3);
    Split4(adler);
  }

  function Header(zlib: bool): seq<bool> {
    if zlib then BytesToBits(ZLIB_HEADER) else []
  }

  lemma Cut(s: seq<bool>, a: seq<bool>, b: seq<bool>, c: seq<bool>)
    requires s == a + b + c
    ensures At(s, 0, a) && At(s, |a|, b) && At(s, |a + b|, c)
  {
  }

  /** Where the parts of a whole stream are. */
  lemma WholeParts(sent: seq<byte>, zlib: bool, blocks: seq<Block>, last: Block, adler: nat)
    requires WholeStream(sent, zlib, blocks, last, adler)
    ensures AllValid(blocks) && ValidBlock(last)
    ensures var s, p := BytesToBits(sent), |Header(zlib)|;
            var body := RunBits(p, blocks) + BlockBits(p + |RunBits(p, blocks)|, last, true);
            At(s, 0, Header(zlib)) && At(s, p, body) && At(s, p + |body|, Trailer(p + |body|, Finish, zlib, adler))
  {
    hide BytesToBits, RunBits, BlockBits, AllValid, ValidBlock, Trailer;
    var s, h := BytesToBits(sent), Header(zlib);
    var run := RunBits(|h|, blocks);
    var block := BlockBits(|h + run|, last, true);
    var trailer := Trailer(|h + run + block|, Finish, zlib, adler);
    assert h + (run + block) + trailer == h + run + block + trailer;
    Cut(s, h, run + block, trailer);
  }

  lemma TrailerAt(s: seq<bool>, q: nat, adler: nat)
    requires adler < 0x1_0000_0000 && At(s, q, Trailer(q, Finish, true, adler))
    ensures BigNum(s, Align(q)) == adler
  {
    hide At, BytesToBits, BigNum;
    AtSplit(s, q, Padding(q), BytesToBits(BigEndian(adler)));
    ChecksumAt(s, Align(q), adler);
  }

  lemma SumIs(src: seq<byte>)
    ensures Adler32(1, src) == SumOf(src)
  {
    hide Adler32, ByteSum, WeightedSum;
    AdlerOfAll(src);
  }

  /** A whole stream, whatever number it ends in: a mismatch exactly if that is not the sum of what
      its blocks stand for, and otherwise it decodes to that. */
  lemma WholeStreamDecodes(sent: seq<byte>, zlib: bool, blocks: seq<Block>, last: Block, adler: nat, src: seq<byte>, cap: nat)
    requires WholeStream(sent, zlib, blocks, last, adler) && adler < 0x1_0000_0000
    requires RunOutput([], blocks).Some? && BlockOutput(RunOutput([], blocks).value, last) == Some(src)
    requires |src| <= cap
    ensures var t := Decompress(sent, zlib, cap); if zlib && adler != SumOf(src) then t == Mismatch else t.Ok? && t.out == src
    ensures zlib ==> WindowFits(Num(BytesToBits(sent), 0, 8))
  {
    hide At, BytesToBits, RunBits, BlockBits, AllValid, ValidBlock, RunOutput, BlockOutput, InflateFrom, Adler32, Num, BigNum,
         SumOf;
    WholeParts(sent, zlib, blocks, last, adler);
    var s, p := BytesToBits(sent), |Header(zlib)|;
    StreamRoundTrip(s, p, blocks, last, [], cap);
    if zlib {
      var q := InflateFrom(s, p, [], cap).pos;
      TrailerAt(s, q, adler);
      SumIs(src);
      AtBytes(s, 0, ZLIB_HEADER, 0);
      AtBytes(s, 0, ZLIB_HEADER, 1);
      Pow2Values();
    }
  }

  lemma WholeSize(sent: seq<byte>, blocks: seq<Block>, last: Block, adler: nat)
    requires WholeStream(sent, true, blocks, last, adler)
    ensures AllValid(blocks) && ValidBlock(last)
    ensures var q := 16 + |RunBits(16, blocks) + BlockBits(16 + |RunBits(16, blocks)|, last, true)|;
            8 * |sent| == Align(q) + 32
  {
    hide BytesToBits, RunBits, BlockBits, AllValid, ValidBlock;
    assert |BytesToBits(ZLIB_HEADER)| == 16;
    assert |BytesToBits(BigEndian(adler))| == 32;
  }

  lemma LastFour(sent: seq<byte>)
    requires |sent| >= 4
    ensures BigNum(BytesToBits(sent), 8 * (|sent| - 4)) == BigEndianOf(sent[|sent| - 4..])
  {
    hide BytesToBits, At, BigNum, BigEndianOf;
    var front, sum := sent[..|sent| - 4], sent[|sent| - 4..];
    assert sent == front + sum;
    BytesToBitsConcat(front, sum);
    AllAt(BytesToBits(sent));
    AtSplit(BytesToBits(sent), 0, BytesToBits(front), BytesToBits(sum));
    SumAt(BytesToBits(sent), |BytesToBits(front)|, sum);
  }

  /** The first two bytes and the last four of a stream of the compressor, as RFC 1950 has them. */
  lemma ZlibEnds(sent: seq<byte>, blocks: seq<Block>, last: Block, adler: nat)
    requires WholeStream(sent, true, blocks, last, adler) && adler < 0x1_0000_0000
    ensures |sent| >= 6 && sent[0] == 0x78 && sent[1] == 0x01 && BigEndianOf(sent[|sent| - 4..]) == adler
  {
    hide BytesToBits, RunBits, BlockBits, AllValid, ValidBlock, At, Num, BigNum, BigEndianOf, BigEndian, Trailer;
    WholeParts(sent, true, blocks, last, adler);
    WholeSize(sent, blocks, last, adler);
    var s := BytesToBits(sent);
    assert |Header(true)| == 16;
    TrailerAt(s, 16 + |RunBits(16, blocks) + BlockBits(16 + |RunBits(16, blocks)|, last, true)|, adler);
    LastFour(sent);
    AllAt(s);
    AtBytes(s, 0, ZLIB_HEADER, 0);
    AtBytes(s, 0, ZLIB_HEADER, 1);
    AtBytes(s, 0, sent, 0);
    AtBytes(s, 0, sent, 1);
  }

  /** The two bytes before the blocks, and the checksum of the source after them. */
  predicate Framed(sent: seq<byte>, src: seq<byte>) {
    |sent| >= 6 && sent[..2] == [0x78, 0x01] && BigEndianOf(sent[|sent| - 4..]) == SumOf(src)
  }

  lemma FramedBy(sent: seq<byte>, blocks: seq<Block>, last: Block, adler: nat, src: seq<byte>)
    requires WholeStream(sent, true, blocks, last, adler) && adler < 0x1_0000_0000 && adler == Adler32(1, src)
    ensures Framed(sent, src)
  {
    hide WholeStream, Adler32, SumOf, BigEndianOf;
    ZlibEnds(sent, blocks, last, adler);
    SumIs(src);
    assert sent[..2] == [sent[0], sent[1]];
  }

  /** Whenever a compressor is done, however its input was split and flushed on the
      way, what it has sent decodes to all of its input. */
  lemma CompressorRoundTrip(c: Compressor, cap: nat)
    requires c.Valid() && c.status == Status.Done && |c.p.win.src| <= cap
    ensures Decompress(c.sink, c.zlib, cap).Ok? && Decompress(c.sink, c.zlib, cap).out == c.p.win.src
    ensures c.zlib ==> WindowFits(Num(BytesToBits(c.sink), 0, 8))
    ensures c.zlib ==> Framed(c.sink, c.p.win.src)
  {
    hide Decompress, WholeStream, RunOutput, BlockOutput, Adler32, SumOf, Framed, Num;
    SumIs(c.p.win.src);
    WholeStreamDecodes(c.sink, c.zlib, c.blocks, c.last, c.adler, c.p.win.src, cap);
    if c.zlib { FramedBy(c.sink, c.blocks, c.last, c.adler, c.p.win.src); }
  }

  // ---------------------------------------------------------------- flushes

  lemma {:induction false} RunBitsSplit(p: nat, a: seq<Block>, b: seq<Block>)
    requires AllValid(a) && AllValid(b)
    ensures AllValid(a + b) && RunBits(p, a + b) == RunBits(p, a) + RunBits(p + |RunBits(p, a)|, b)
  {
    hide BlockBits, ValidBlock;
    if b == [] {
      assert a + b == a;
    } else {
      var front, last := b[..|b| - 1], b[|b| - 1];
      assert (a + b)[..|a + b| - 1] == a + front;
      RunBitsSplit(p, a, front);
    }
  }

  lemma SyncedStream(c: Compressor, more: seq<byte>)
    requires c.Synced()
    ensures AllValid(c.blocks) && RunOutput([], c.blocks) == Some(c.p.win.src)
    ensures var s, h := BytesToBits(c.sink + more), Header(c.zlib);
            At(s, 0, h) && At(s, |h|, RunBits(|h|, c.blocks)) && |h| + |RunBits(|h|, c.blocks)| == 8 * |c.sink|
  {
    hide BytesToBits, RunBits, ValidBlock, RunOutput, At;
    BytesToBitsConcat(c.sink, more);
    var h, run := Header(c.zlib), RunBits(|Header(c.zlib)|, c.blocks);
    FourAt(BytesToBits(c.sink + more), h, run, [], BytesToBits(more));
  }

  /** After a sync flush the receiver has everything: whatever bytes follow, the reference decoder
      stands at the end of what has been sent with all of the source as its output. */
  lemma SyncPoint(c: Compressor, more: seq<byte>, cap: nat)
    requires c.Synced() && |c.p.win.src| <= cap
    ensures var s := BytesToBits(c.sink + more);
            InflateFrom(s, |Header(c.zlib)|, [], cap) == InflateFrom(s, 8 * |c.sink|, c.p.win.src, cap)
  {
    hide BytesToBits, RunBits, AllValid, RunOutput, At, InflateFrom, Compressor.Synced;
    SyncedStream(c, more);
    RunRoundTrip(BytesToBits(c.sink + more), |Header(c.zlib)|, c.blocks, [], cap);
  }

  /** Where a receiver who has missed what was sent before the last full flush may start. */
  ghost function RestartAt(c: Compressor): nat
    reads c
  {
    if c.kept == 0 then |Header(c.zlib)| else 8 * c.mark
  }

  lemma NoRun(p: nat)
    ensures RunBits(p, []) == []
  {
  }

  lemma RestartParts(c: Compressor)
    requires c.Whole()
    ensures c.kept <= |c.blocks| && AllValid(c.blocks[c.kept..]) && ValidBlock(c.last) && c.p.win.floor <= |c.p.win.src|
    ensures var later, q := c.blocks[c.kept..], RestartAt(c);
            RunOutput([], later).Some? && BlockOutput(RunOutput([], later).value, c.last) == Some(c.p.win.src[c.p.win.floor..]) &&
            At(BytesToBits(c.sink), q, RunBits(q, later) + BlockBits(q + |RunBits(q, later)|, c.last, true))
  {
    hide BytesToBits, RunBits, BlockBits, ValidBlock, RunOutput, BlockOutput, Trailer, At, WholeStream;
    WholeParts(c.sink, c.zlib, c.blocks, c.last, c.adler);
    var h, k := Header(c.zlib), c.kept;
    var front, later := c.blocks[..k], c.blocks[k..];
    assert front + later == c.blocks;
    RunBitsSplit(|h|, front, later);
    var a := RunBits(|h|, front);
    var q := |h| + |a|;
    var b, e := RunBits(q, later), BlockBits(q + |RunBits(q, later)|, c.last, true);
    assert a + b + e == a + (b + e);
    AtSplit(BytesToBits(c.sink), |h|, a, b + e);
    if k == 0 { NoRun(|h|); }
  }

  /** From the last full flush on, the finished stream decodes without anything from before. */
  lemma Restart(c: Compressor, cap: nat)
    requires c.Valid() && c.status == Status.Done && |c.p.win.src| - c.p.win.floor <= cap
    ensures c.p.win.floor <= |c.p.win.src|
    ensures var t := InflateFrom(BytesToBits(c.sink), RestartAt(c), [], cap); t.Ok? && t.out == c.p.win.src[c.p.win.floor..]
  {
    hide BytesToBits, RunBits, BlockBits, AllValid, ValidBlock, RunOutput, BlockOutput, At, InflateFrom, RestartAt, WholeStream;
    RestartParts(c);
    StreamRoundTrip(BytesToBits(c.sink), RestartAt(c), c.blocks[c.kept..], c.last, [], cap);
  }

  lemma SameOutput(t: Outcome, status: TinflStatus, output: seq<byte>)
    requires t.Ok? && Agrees(t, status, output)
    ensures status == TinflStatus.Done && output == t.out
  {
  }

  lemma IsWhole(input: seq<byte>, zlib: bool, cap: nat)
    ensures Decompress(input, zlib, cap) == DecompressAfter(input, zlib, false, [], cap)
  {
  }

  lemma FollowsOn(before: seq<byte>, t: Outcome, u: Outcome)
    requires Follows(before, t, u)
    ensures u.Ok? && u.out == before + t.out
  {
  }

  /** `tdefl_compress_mem_to_output`: one call for the whole input. */
  method CompressAll(input: seq<byte>, flags: Flags, zlib: bool, forceStatic: bool) returns (output: seq<byte>)
    requires flags.maxProbes >= 1 && flags.maxProbesLong >= 1
    ensures forall cap :: |input| <= cap ==> Decompress(output, zlib, cap).Ok? && Decompress(output, zlib, cap).out == input
    ensures zlib ==> WindowFits(Num(BytesToBits(output), 0, 8)) && Framed(output, input)
  {
    hide *;
    var c := Init(flags, zlib, false, forceStatic);
    var r := c.Compress(input, Finish);
    output := c.sink;
    assert [] + input == input;
    forall cap | |input| <= cap ensures Decompress(output, zlib, cap).Ok? && Decompress(output, zlib, cap).out == input {
      CompressorRoundTrip(c, cap);
    }
    CompressorRoundTrip(c, |input|);
  }

  /** The compressor followed by the decompressor, both as the source has them. */
  method ThereAndBack(input: seq<byte>, flags: Flags, zlib: bool, forceStatic: bool) returns (back: seq<byte>)
    requires flags.maxProbes >= 1 && flags.maxProbesLong >= 1
    ensures back == input
  {
    hide *;
    var output := CompressAll(input, flags, zlib, forceStatic);
    assert Decompress(output, zlib, |input|).Ok?;
    var status;
    status, back := MemToMem(output, zlib, |input|);
    SameOutput(Decompress(output, zlib, |input|), status, back);
  }

  /** The same, when the decompressor is given its input in pieces of any sizes, and its output
      buffer as it fills up: over however many calls, the bytes are the same. */
  method ThroughPieces(input: seq<byte>, flags: Flags, zlib: bool, forceStatic: bool, sizes: seq<nat>, size: nat, turns: nat)
    returns (back: seq<byte>)
    requires flags.maxProbes >= 1 && flags.maxProbesLong >= 1 && |input| <= GrownTimes(size, turns)
    ensures back == input
  {
    hide *;
    var output := CompressAll(input, flags, zlib, forceStatic);
    PiecesFlat(output, sizes);
    var o := new OutputBuffer.Growing(size, turns);
    var f := new Inflater(Pieces(output, sizes), o);
    IsWhole(output, zlib, o.cap);
    var status := f.Run(zlib);
    SameOutput(Decompress(output, zlib, o.cap), status, o.preset + o.given);
    assert o.preset + o.given == o.given;
    back := o.given;
  }

  /** The same through a ring of 32768 bytes, whatever it held before, for a callback that
      accepts enough pieces. */
  method ThroughRing(input: seq<byte>, flags: Flags, zlib: bool, forceStatic: bool, ring: array<byte>, accepts: nat)
    returns (back: seq<byte>)
    requires flags.maxProbes >= 1 && flags.maxProbesLong >= 1
    requires ring.Length == DICT_SIZE && |input| <= DICT_SIZE * accepts
    modifies ring
    ensures back == input
  {
    hide *;
    var output := CompressAll(input, flags, zlib, forceStatic);
    ghost var before, cap := ring[..], DICT_SIZE * (accepts + 2);
    HistoryForgotten(output, zlib, |input|, true, before, cap);
    FollowsOn(before, Decompress(output, zlib, |input|), DecompressAfter(output, zlib, true, before, cap));
    var ok, handed, used := MemToCallback(output, zlib, ring, accepts);
    assert (before + handed)[|before|..] == handed && (before + input)[|before|..] == input;
    back := handed;
  }

  lemma StatusOf(t: Outcome, status: TinflStatus, output: seq<byte>)
    requires Agrees(t, status, output)
    ensures t.Failed? ==> status == StreamFailed
    ensures t.Mismatch? ==> status == AdlerMismatch
    ensures t.Ok? ==> status == TinflStatus.Done && output == t.out
  {
  }

  lemma UsedAll(end: nat, used: nat, size: nat)
    requires Used(8 * end, true, used, size) && end <= size
    ensures used == end
  {
  }

  /** `tinfl_decompress`, over any number of calls, on a stream with any header and any number in
      the place of the checksum: the status tells which of them are good, and a good stream gives
      its bytes and is taken from the input to its end and no further. */
  method Judge(pieces: seq<seq<byte>>, o: OutputBuffer, ghost h: seq<byte>, ghost blocks: seq<Block>, ghost last: Block,
               ghost sum: seq<byte>, ghost more: seq<byte>, ghost src: seq<byte>) returns (status: TinflStatus, used: nat)
    requires o.Valid() && o.made == o.preset && StandsFor(o.preset, blocks, last, src) && |o.preset + src| <= o.cap
    requires ZlibStream(Flat(pieces), h, blocks, last, sum, more)
    modifies o, o.buf
    ensures status == if !HeaderGood(h, o.wrapping) then StreamFailed
                      else if BigEndianOf(sum) != SumOf(src) then AdlerMismatch
                      else TinflStatus.Done
    ensures status == TinflStatus.Done ==> o.given == src && used == |Flat(pieces)| - |more|
  {
    hide *;
    StandsValid(o.preset, blocks, last, src);
    ZlibParts(Flat(pieces), h, blocks, last, sum, more);
    ZlibVerdict(Flat(pieces), h, blocks, last, sum, more, o.wrapping, o.preset, src, o.cap);
    ghost var t := DecompressAfter(Flat(pieces), true, o.wrapping, o.preset, o.cap);
    var f := new Inflater(pieces, o);
    status := f.Run(true);
    used := f.r.cur;
    StatusOf(t, status, o.preset + o.given);
    if status == TinflStatus.Done {
      UsedAll(|Flat(pieces)| - |more|, used, |Flat(pieces)|);
      assert (o.preset + o.given)[|o.preset|..] == o.given && (o.preset + src)[|o.preset|..] == src;
    }
  }
}
