/** What stood in the window before a stream began makes no difference to a stream that decodes
    without it. */
module Histories {
  import opened Bits
  import opened Deflate
  import opened Blocks
  import opened Inflate

  /** `t` with `before` in front of its output. */
  ghost predicate Follows(before: seq<byte>, t: Outcome, u: Outcome) {
    t.Ok? && u == Ok(t.pos, before + t.out)
  }

  lemma {:induction false} TokensAfter(
    lit: seq<nat>, dist: seq<nat>, s: seq<bool>, p: nat, before: seq<byte>, out: seq<byte>, cap: nat, room: nat)
    requires |out| <= cap && DecodeTokens(lit, dist, s, p, out, cap).Ok?
    requires |before| + |DecodeTokens(lit, dist, s, p, out, cap).out| <= room
    ensures |before + out| <= room
    ensures Follows(before, DecodeTokens(lit, dist, s, p, out, cap), DecodeTokens(lit, dist, s, p, before + out, room))
    decreases cap - |out|, 2
  {
    hide DecodeSym, DecodeMatch;
    var sym := DecodeSym(lit, s, p).value;
    if sym < 256 {
      TokensAfter(lit, dist, s, p + lit[sym], before, out + [sym], cap, room);
      assert before + (out + [sym]) == before + out + [sym];
    } else if sym > 256 {
      MatchAfter(lit, dist, s, p + lit[sym], sym - 257, before, out, cap, room);
    }
  }

  lemma {:induction false} MatchAfter(
    lit: seq<nat>, dist: seq<nat>, s: seq<bool>, p: nat, k: nat, before: seq<byte>, out: seq<byte>, cap: nat, room: nat)
    requires |out| <= cap && k < 29 && DecodeMatch(lit, dist, s, p, k, out, cap).Ok?
    requires |before| + |DecodeMatch(lit, dist, s, p, k, out, cap).out| <= room
    ensures |before + out| <= room
    ensures Follows(before, DecodeMatch(lit, dist, s, p, k, out, cap), DecodeMatch(lit, dist, s, p, k, before + out, room))
    decreases cap - |out|, 1
  {
    hide DecodeSym, DecodeTokens, LengthBase, DistanceBase, Num, Copy;
    var len, p2 := LengthBase(k) + Num(s, p, LengthExtra(k)), p + LengthExtra(k);
    var ds := DecodeSym(dist, s, p2).value;
    var p3 := p2 + dist[ds];
    var back := DistanceBase(ds) + Num(s, p3, DistanceExtra(ds));
    CopyAfter(before, out, len, back);
    TokensAfter(lit, dist, s, p3 + DistanceExtra(ds), before, Copy(out, len, back), cap, room);
  }

  lemma {:induction false} StoredAfter(s: seq<bool>, p: nat, n: nat, before: seq<byte>, out: seq<byte>, cap: nat, room: nat)
    requires |out| <= cap && StoredBytes(s, p, n, out, cap).Ok?
    requires |before| + |StoredBytes(s, p, n, out, cap).out| <= room
    ensures |before + out| <= room
    ensures Follows(before, StoredBytes(s, p, n, out, cap), StoredBytes(s, p, n, before + out, room))
    decreases n
  {
    hide Num;
    if n > 0 {
      Pow2Values();
      StoredAfter(s, p + 8, n - 1, before, out + [Num(s, p, 8)], cap, room);
      assert before + (out + [Num(s, p, 8)]) == before + out + [Num(s, p, 8)];
    }
  }

  lemma DynamicAfter(s: seq<bool>, p: nat, before: seq<byte>, out: seq<byte>, cap: nat, room: nat)
    requires |out| <= cap && DecodeDynamic(s, p, out, cap).Ok? && |before| + |DecodeDynamic(s, p, out, cap).out| <= room
    ensures |before + out| <= room
    ensures Follows(before, DecodeDynamic(s, p, out, cap), DecodeDynamic(s, p, before + out, room))
  {
    hide DecodeTokens, Num, ClLens, DecodeLens;
    Pow2Values();
    var hlit, hdist, hclen := Num(s, p, 5) + 257, Num(s, p + 5, 5) + 1, Num(s, p + 10, 4) + 4;
    var t := DecodeLens(ClLens(s, p + 14, hclen), s, p + 14 + 3 * hclen, hlit + hdist, []);
    TokensAfter(t.lens[..hlit], t.lens[hlit..], s, t.pos, before, out, cap, room);
  }

  lemma BlockAfter(s: seq<bool>, p: nat, before: seq<byte>, out: seq<byte>, cap: nat, room: nat)
    requires |out| <= cap && DecodeBlock(s, p, out, cap).Ok? && |before| + |DecodeBlock(s, p, out, cap).out| <= room
    ensures |before + out| <= room
    ensures Follows(before, DecodeBlock(s, p, out, cap), DecodeBlock(s, p, before + out, room))
  {
    hide DecodeTokens, StoredBytes, Num, ClLens, DecodeLens, Align;
    match Num(s, p + 1, 2)
    case 0 =>
      var a := Align(p + 3);
      StoredAfter(s, a + 32, Num(s, a, 16), before, out, cap, room);
    case 1 => TokensAfter(StaticLit(), StaticDist(), s, p + 3, before, out, cap, room);
    case _ => DynamicAfter(s, p + 3, before, out, cap, room);
  }

  lemma {:induction false} StreamAfter(s: seq<bool>, p: nat, before: seq<byte>, out: seq<byte>, cap: nat, room: nat)
    requires |out| <= cap && InflateFrom(s, p, out, cap).Ok? && |before| + |InflateFrom(s, p, out, cap).out| <= room
    ensures |before + out| <= room
    ensures Follows(before, InflateFrom(s, p, out, cap), InflateFrom(s, p, before + out, room))
    decreases |s| - p
  {
    hide DecodeBlock;
    var t := DecodeBlock(s, p, out, cap);
    BlockAfter(s, p, before, out, cap, room);
    if !BitAt(s, p) { StreamAfter(s, t.pos, before, t.out, cap, room); }
  }

  /** A stream that decodes by itself decodes to the same bytes after any others, in a ring or
      not, if its window is no larger than the ring. */
  lemma HistoryForgotten(input: seq<byte>, zlib: bool, cap: nat, ring: bool, before: seq<byte>, room: nat)
    requires Decompress(input, zlib, cap).Ok? && |before| + |Decompress(input, zlib, cap).out| <= room
    requires zlib && ring ==> WindowFits(Num(BytesToBits(input), 0, 8))
    ensures Follows(before, Decompress(input, zlib, cap), DecompressAfter(input, zlib, ring, before, room))
  {
    hide InflateFrom, WindowFits, BytesToBits, HeaderOk, BigNum, Num;
    var s, p := BytesToBits(input), if zlib then 16 else 0;
    StreamAfter(s, p, before, [], cap, room);
    var t := InflateFrom(s, p, [], cap);
    assert before + [] == before && (before + t.out)[|before|..] == t.out == t.out[0..];
  }
}
