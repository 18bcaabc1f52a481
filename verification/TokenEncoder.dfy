/** `tdefl_compress_lz_codes`, the byte-wise version: the tokens in the buffer, coded. */
module TokenEncoder {
  import opened Bits
  import opened Canonical
  import opened Deflate
  import opened Blocks
  import opened BitOutput
  import opened TokenBuffers
  import opened HuffmanTables

  // ---------------------------------------------------------------- flags

  /** The flags of a group after `j` of its tokens: a sentinel bit above the flag byte. */
  function FlagsLeft(f: byte, j: nat): nat
    requires j <= 8
  {
    Shr(256 + f, j)
  }

  lemma FlagsLarge(f: byte, j: nat)
    requires j < 8
    ensures FlagsLeft(f, j) >= 2
  {
    Pow2Mono(j, 7);
    assert Pow2(7) == 128;
    DivBound(256 + f, Pow2(j));
    if FlagsLeft(f, j) < 2 {
      MulMono(FlagsLeft(f, j), 1, Pow2(j));
    }
  }

  /** The low bit of the flags is the flag of the next token, and after eight only the sentinel is left. */
  lemma FlagsBit(f: byte, j: nat)
    requires j < 8
    ensures (FlagsLeft(f, j) % 2 == 1) == ToBits(f, 8)[j]
    ensures Shr(FlagsLeft(f, j), 1) == FlagsLeft(f, j + 1)
    ensures j > 0 ==> FlagsLeft(f, j) != 1
    ensures FlagsLeft(f, 8) == 1
  {
    hide ToBits, Shr, Pow2;
    BitOfShr(256 + f, 9, j);
    ShrStep(256 + f, j);
    Pow2Values();
    Pow2Add(8, 1);
    SplitToBits(256 + f, 8, 1);
    LowIs(256 + f, 8, 1);
    assert ToBits(256 + f, 9)[..8][j] == ToBits(256 + f, 9)[j];
    FlagsLarge(f, j);
  }

  // ---------------------------------------------------------------- tokens

  /** Everything the encoder needs of a table. */
  ghost predicate Coding(t: HuffTable)
    reads t.sizes, t.codes
  {
    t.Ready() && ValidLens(t.sizes[..])
  }

  method PutCode(w: BitWriter, t: HuffTable, s: nat)
    requires w.Valid() && Coding(t) && HasCode(t.sizes[..], s)
    modifies w, w.buf
    ensures w.Valid() && w.put == old(w.put) + CodeBits(old(t.sizes[..]), s)
  {
    hide CodeBits, FromBits;
    ToFromBits(CodeBits(t.sizes[..], s));
    w.PutBits(t.codes[s], t.sizes[s]);
  }

  lemma MatchBits(lit: seq<nat>, dist: seq<nat>, l: nat, d: nat, put: seq<bool>)
    requires l < 256 && d < 32768 && Codable(lit, dist, Match(l + 3, d + 1))
    ensures HasCode(lit, LenSym(l)) && HasCode(dist, DistSym(d))
    ensures put + TokenBits(lit, dist, Match(l + 3, d + 1)) ==
            put + CodeBits(lit, LenSym(l)) + ToBits(Low(l, LenExtra(l)), LenExtra(l)) +
            CodeBits(dist, DistSym(d)) + ToBits(Low(d, DistExtra(d)), DistExtra(d))
  {
    hide CodeBits, ToBits, LenSym, LenExtra, DistSym, DistExtra;
  }

  method DistanceSym(d: nat) returns (sym: nat, extra: nat)
    requires d < 32768
    ensures sym == DistSym(d) && extra == DistExtra(d)
  {
    if d < 512 {
      sym, extra := SmallDistSym(d), SmallDistExtra(d);
    } else {
      sym, extra := LargeDistSym(d / 256), LargeDistExtra(d / 256);
    }
  }

  method PutMatch(w: BitWriter, lit: HuffTable, dist: HuffTable, l: nat, d: nat)
    requires w.Valid() && Coding(lit) && Coding(dist) && l < 256 && d < 32768
    requires Codable(lit.sizes[..], dist.sizes[..], Match(l + 3, d + 1))
    requires {w, w.buf} !! {lit.sizes, lit.codes, dist.sizes, dist.codes}
    modifies w, w.buf
    ensures w.Valid() && w.put == old(w.put) + TokenBits(lit.sizes[..], dist.sizes[..], Match(l + 3, d + 1))
  {
    hide *;
    MatchBits(lit.sizes[..], dist.sizes[..], l, d, w.put);
    PutCode(w, lit, LenSym(l));
    w.PutBits(Low(l, LenExtra(l)), LenExtra(l));
    var sym, extra := DistanceSym(d);
    PutCode(w, dist, sym);
    w.PutBits(Low(d, extra), extra);
  }

  lemma GroupStart(k: nat)
    ensures k % 8 == 0 ==> 8 * (k / 8) == k
    ensures (k + 1) % 8 != 0 ==> 8 * ((k + 1) / 8) == 8 * (k / 8)
  {
  }

  lemma OffStep(ts: seq<Token>, k: nat)
    requires k < |ts|
    ensures Off(ts, k + 1) == Off(ts, k) + Size(ts[k]) + (if (k + 1) % 8 == 0 then 1 else 0)
  {
  }

  lemma SizePositive(t: Token)
    ensures Size(t) >= 1
  {
  }

  /** How the reader moves over token `k`. */
  lemma ReadStep(ts: seq<Token>, k: nat)
    requires k < |ts|
    ensures k % 8 == 0 ==> FlagPos(ts, k) == ReadPos(ts, k) == Off(ts, k) - 1
    ensures k % 8 != 0 ==> Off(ts, k) == ReadPos(ts, k)
    ensures ReadPos(ts, k + 1) == Off(ts, k) + Size(ts[k])
    ensures (k + 1) % 8 != 0 ==> FlagPos(ts, k + 1) == FlagPos(ts, k)
    ensures ReadPos(ts, k) < ReadPos(ts, |ts|)
  {
    hide Off, Size;
    GroupStart(k);
    OffStep(ts, k);
    OffMono(ts, k, |ts|);
    SizePositive(ts[k]);
  }

  lemma ReadableAt(b: seq<byte>, ts: seq<Token>, k: nat)
    requires Readable(b, ts) && k < |ts|
    ensures TokenAt(b, Off(ts, k), ts[k]) && FlagAt(b, FlagPos(ts, k), k % 8, ts[k])
  {
  }

  /** The flags variable between two rounds of the loop. */
  ghost predicate FlagsAre(b: seq<byte>, ts: seq<Token>, k: nat, flags: nat)
    requires k <= |ts|
  {
    if k % 8 == 0 then flags == 1 else FlagPos(ts, k) < |b| && flags == FlagsLeft(b[FlagPos(ts, k)], k % 8)
  }

  lemma FirstFlags(f: byte)
    ensures BitOr(f, 256) == FlagsLeft(f, 0)
  {
    Pow2Values();
    BitOrDisjoint(f, 1, 8);
  }

  /** Fetch a flag byte when the flags have run out. */
  method FetchFlags(codes: array<byte>, p: nat, flags: nat, ghost ts: seq<Token>, ghost k: nat) returns (p': nat, flags': nat)
    requires k < |ts| && Readable(codes[..], ts) && p == ReadPos(ts, k) && FlagsAre(codes[..], ts, k, flags)
    ensures p' == Off(ts, k) && (flags' % 2 == 1) == ts[k].Match?
    ensures FlagsAre(codes[..], ts, k + 1, Shr(flags', 1))
  {
    hide Off, FlagPos, ReadPos, FlagsLeft, TokenAt, ToBits, Shr, Readable;
    ReadStep(ts, k);
    ReadableAt(codes[..], ts, k);
    p', flags' := p, flags;
    ghost var f := codes[FlagPos(ts, k)];
    FlagsBit(f, k % 8);
    FirstFlags(f);
    if flags == 1 {
      flags' := BitOr(codes[p], 256);
      p' := p + 1;
    }
    assert flags' == FlagsLeft(f, k % 8);
  }

  /** The C expression `lo | (hi << 8)`. */
  function LittleEndian(lo: nat, hi: nat): nat {
    BitOr(lo, hi * 256)
  }

  lemma MatchAt(b: seq<byte>, p: nat, t: Token)
    requires TokenAt(b, p, t) && t.Match?
    ensures Size(t) == 3 && p + 3 <= |b| && t.dist <= 32768
    ensures t.len - 3 == b[p] && t.dist - 1 == LittleEndian(b[p + 1], b[p + 2])
  {
    hide BitOr;
    Pow2Values();
    BitOrDisjoint(b[p + 1], b[p + 2], 8);
  }

  lemma LiteralAt(b: seq<byte>, p: nat, t: Token, lit: seq<nat>, dist: seq<nat>)
    requires TokenAt(b, p, t) && t.Literal? && Codable(lit, dist, t)
    ensures Size(t) == 1 && p < |b| && t == Literal(b[p]) && HasCode(lit, b[p])
    ensures TokenBits(lit, dist, t) == CodeBits(lit, b[p])
  {
  }

  /** The loop body: one token, read from position `p`. */
  method PutToken(w: BitWriter, codes: array<byte>, lit: HuffTable, dist: HuffTable, p: nat, bit: bool, ghost t: Token)
    returns (next: nat)
    requires w.Valid() && Coding(lit) && Coding(dist) && Codable(lit.sizes[..], dist.sizes[..], t)
    requires {w, w.buf} !! {lit.sizes, lit.codes, dist.sizes, dist.codes} && codes != w.buf
    requires TokenAt(codes[..], p, t) && bit == t.Match?
    modifies w, w.buf
    ensures w.Valid() && w.put == old(w.put) + TokenBits(lit.sizes[..], dist.sizes[..], t)
    ensures next == p + Size(t)
  {
    hide *;
    if bit {
      MatchAt(codes[..], p, t);
      var len, d := codes[p], LittleEndian(codes[p + 1], codes[p + 2]);
      PutMatch(w, lit, dist, len, d);
      next := p + 3;
    } else {
      LiteralAt(codes[..], p, t, lit.sizes[..], dist.sizes[..]);
      PutCode(w, lit, codes[p]);
      next := p + 1;
    }
  }

  lemma TokensSnoc(lit: seq<nat>, dist: seq<nat>, ts: seq<Token>, k: nat, put: seq<bool>)
    requires AllCodable(lit, dist, ts) && k < |ts|
    ensures AllCodable(lit, dist, ts[..k + 1]) && AllCodable(lit, dist, ts[..k])
    ensures put + TokensBits(lit, dist, ts[..k + 1]) ==
            put + TokensBits(lit, dist, ts[..k]) + TokenBits(lit, dist, ts[k])
  {
    hide Codable, TokenBits;
    assert ts[..k + 1][..k] == ts[..k];
    var a, b := TokensBits(lit, dist, ts[..k]), TokenBits(lit, dist, ts[k]);
    assert put + (a + b) == put + a + b;
  }

  lemma EncoderStart(lit: seq<nat>, dist: seq<nat>, b: seq<byte>, ts: seq<Token>)
    ensures ReadPos(ts, 0) == 0 && ts[..0] == [] && AllCodable(lit, dist, []) && TokensBits(lit, dist, []) == []
    ensures FlagsAre(b, ts, 0, 1)
  {
  }

  lemma EncoderEnd(lit: seq<nat>, dist: seq<nat>, ts: seq<Token>, k: nat, put: seq<bool>)
    requires AllCodable(lit, dist, ts) && HasCode(lit, 256) && k <= |ts| && ReadPos(ts, k) >= ReadPos(ts, |ts|)
    ensures k == |ts| && ts[..k] == ts
    ensures put + TokensBits(lit, dist, ts) + CodeBits(lit, 256) == put + BodyBits(lit, dist, ts)
  {
    hide ReadPos, TokensBits, CodeBits;
    if k < |ts| { ReadStep(ts, k); }
  }

  lemma CodableAt(lit: seq<nat>, dist: seq<nat>, ts: seq<Token>, k: nat)
    requires AllCodable(lit, dist, ts) && k < |ts|
    ensures Codable(lit, dist, ts[k])
  {
  }

  /** `tdefl_compress_lz_codes`. */
  method CompressLzCodes(w: BitWriter, codes: array<byte>, end: nat, lit: HuffTable, dist: HuffTable, ghost ts: seq<Token>)
    returns (fits: bool)
    requires w.Valid() && Coding(lit) && Coding(dist)
    requires AllCodable(lit.sizes[..], dist.sizes[..], ts) && HasCode(lit.sizes[..], 256)
    requires {w, w.buf} !! {lit.sizes, lit.codes, dist.sizes, dist.codes} && codes != w.buf
    requires Readable(codes[..], ts) && end == ReadPos(ts, |ts|)
    modifies w, w.buf
    ensures w.Valid() && w.put == old(w.put) + BodyBits(lit.sizes[..], dist.sizes[..], ts)
    ensures fits == (w.pos < OUT_BUF_END)
  {
    hide *;
    ghost var l, d, b, put := lit.sizes[..], dist.sizes[..], codes[..], w.put;
    ghost var k := 0;
    var p, flags := 0, 1;
    EncoderStart(l, d, b, ts);
    assert put + [] == put;
    while p < end
      invariant k <= |ts| && p == ReadPos(ts, k) && end == ReadPos(ts, |ts|)
      invariant FlagsAre(b, ts, k, flags)
      invariant l == lit.sizes[..] && d == dist.sizes[..] && b == codes[..] && Coding(lit) && Coding(dist)
      invariant AllCodable(l, d, ts[..k]) && w.Valid() && w.put == put + TokensBits(l, d, ts[..k])
      decreases |ts| - k
    {
      ReadStep(ts, k);
      ReadableAt(b, ts, k);
      CodableAt(l, d, ts, k);
      TokensSnoc(l, d, ts, k, put);
      p, flags := FetchFlags(codes, p, flags, ts, k);
      p := PutToken(w, codes, lit, dist, p, flags % 2 == 1, ts[k]);
      flags := Shr(flags, 1);
      k := k + 1;
    }
    EncoderEnd(l, d, ts, k, put);
    PutCode(w, lit, 256);
    fits := w.pos < OUT_BUF_END;
  }
}
