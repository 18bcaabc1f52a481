/** The DEFLATE format of RFC 1951 as the compressor writes it: LZ77 tokens, the
    blocks that hold them, and the bits of each. */
module Deflate {
  import opened Bits
  import opened Canonical

  // ---------------------------------------------------------------- LZ77

  datatype Token = Literal(b: byte) | Match(len: nat, dist: nat)

  predicate ValidToken(t: Token) {
    t.Match? ==> 3 <= t.len <= 258 && 1 <= t.dist <= 32768
  }

  /** Copying byte by byte, so that a copy may read what it has just written. */
  function Copy(out: seq<byte>, len: nat, dist: nat): (r: seq<byte>)
    requires 1 <= dist <= |out|
    ensures |r| == |out| + len && r[..|out|] == out
  {
    if len == 0 then out
    else
      var c := Copy(out, len - 1, dist);
      c + [c[|c| - dist]]
  }

  predicate CanStep(out: seq<byte>, t: Token) {
    ValidToken(t) && (t.Match? ==> t.dist <= |out|)
  }

  function Step(out: seq<byte>, t: Token): seq<byte>
    requires CanStep(out, t)
  {
    match t
    case Literal(b) => out + [b]
    case Match(len, dist) => Copy(out, len, dist)
  }

  /** What the tokens stand for, after the output `out`; no token reaches back too far. */
  function Expand(out: seq<byte>, ts: seq<Token>): Option<seq<byte>> {
    if ts == [] then Some(out)
    else
      var r := Expand(out, ts[..|ts| - 1]);
      if r.Some? && CanStep(r.value, ts[|ts| - 1]) then Some(Step(r.value, ts[|ts| - 1])) else None
  }

  lemma ExpandSnoc(out: seq<byte>, ts: seq<Token>, t: Token)
    ensures Expand(out, ts + [t]) ==
            (var r := Expand(out, ts);
             if r.Some? && CanStep(r.value, t) then Some(Step(r.value, t)) else None)
  {
    assert (ts + [t])[..|ts|] == ts;
  }

  lemma {:induction false} CopyAfter(before: seq<byte>, out: seq<byte>, len: nat, dist: nat)
    requires 1 <= dist <= |out|
    ensures Copy(before + out, len, dist) == before + Copy(out, len, dist)
  {
    if len > 0 {
      CopyAfter(before, out, len - 1, dist);
      var c := Copy(out, len - 1, dist);
      assert (before + c)[|before + c| - dist] == c[|c| - dist];
    }
  }

  /** Tokens that need nothing before `out` stand for the same after anything else. */
  lemma {:induction false} ExpandAfter(before: seq<byte>, out: seq<byte>, ts: seq<Token>)
    requires Expand(out, ts).Some?
    ensures Expand(before + out, ts) == Some(before + Expand(out, ts).value)
  {
    if ts != [] {
      var t, o := ts[|ts| - 1], Expand(out, ts[..|ts| - 1]).value;
      ExpandAfter(before, out, ts[..|ts| - 1]);
      match t
      case Literal(b) => assert before + o + [b] == before + (o + [b]);
      case Match(len, dist) => CopyAfter(before, o, len, dist);
    }
  }

  // ---------------------------------------------------------------- lengths and distances

  /** `s_tdefl_len_sym` and `s_tdefl_len_extra`, read as runs; `i` is the length less 3. */
  function LenSym(i: nat): (s: nat)
    requires i < 256
    ensures 257 <= s <= 285
  {
    if i < 8 then 257 + i
    else if i < 16 then 265 + (i - 8) / 2
    else if i < 32 then 269 + (i - 16) / 4
    else if i < 64 then 273 + (i - 32) / 8
    else if i < 128 then 277 + (i - 64) / 16
    else if i < 255 then 281 + (i - 128) / 32
    else 285
  }

  function LenExtra(i: nat): (e: nat)
    requires i < 256
    ensures e <= 5
  {
    if i < 8 then 0 else if i < 16 then 1 else if i < 32 then 2 else if i < 64 then 3
    else if i < 128 then 4 else if i < 255 then 5 else 0
  }

  /** `s_tdefl_small_dist_sym` and `s_tdefl_small_dist_extra`; `d` is the distance less 1. */
  function SmallDistSym(d: nat): (s: nat)
    requires d < 512
    ensures s <= 17
  {
    if d < 4 then d else if d < 8 then 4 + (d - 4) / 2 else if d < 16 then 6 + (d - 8) / 4
    else if d < 32 then 8 + (d - 16) / 8 else if d < 64 then 10 + (d - 32) / 16
    else if d < 128 then 12 + (d - 64) / 32 else if d < 256 then 14 + (d - 128) / 64
    else 16 + (d - 256) / 128
  }

  function SmallDistExtra(d: nat): (e: nat)
    requires d < 512
    ensures e <= 7
  {
    if d < 4 then 0 else if d < 8 then 1 else if d < 16 then 2 else if d < 32 then 3
    else if d < 64 then 4 else if d < 128 then 5 else if d < 256 then 6 else 7
  }

  /** `s_tdefl_large_dist_sym` and `s_tdefl_large_dist_extra`, indexed by `d >> 8`. */
  function LargeDistSym(j: nat): (s: nat)
    requires j < 128
    ensures s <= 29
  {
    if j < 2 then 0 else if j < 4 then 18 + (j - 2) else if j < 8 then 20 + (j - 4) / 2
    else if j < 16 then 22 + (j - 8) / 4 else if j < 32 then 24 + (j - 16) / 8
    else if j < 64 then 26 + (j - 32) / 16 else 28 + (j - 64) / 32
  }

  function LargeDistExtra(j: nat): (e: nat)
    requires j < 128
    ensures e <= 13
  {
    if j < 2 then 0 else if j < 4 then 8 else if j < 8 then 9 else if j < 16 then 10
    else if j < 32 then 11 else if j < 64 then 12 else 13
  }

  function DistSym(d: nat): (s: nat)
    requires d < 32768
    ensures s <= 29
  {
    if d < 512 then SmallDistSym(d) else LargeDistSym(d / 256)
  }

  function DistExtra(d: nat): (e: nat)
    requires d < 32768
    ensures e <= 13
  {
    if d < 512 then SmallDistExtra(d) else LargeDistExtra(d / 256)
  }

  /** The decompressor's tables `s_length_base`, `s_length_extra`, `s_dist_base` and
      `s_dist_extra`, read as runs: four length codes or two distance codes share a
      number of extra bits. Entries beyond these ranges are reserved. */
  function LengthExtra(k: nat): (e: nat)
    requires k < 29
    ensures e <= 5
  {
    if k < 8 || k == 28 then 0 else k / 4 - 1
  }

  function LengthBase(k: nat): (b: nat)
    requires k < 29
    ensures b >= 3
  {
    if k < 8 then 3 + k else if k < 28 then 3 + (4 + k % 4) * Pow2(k / 4 - 1) else 258
  }

  function DistanceExtra(k: nat): (e: nat)
    requires k < 30
    ensures e <= 13
  {
    if k < 4 then 0 else k / 2 - 1
  }

  function DistanceBase(k: nat): (b: nat)
    requires k < 30
    ensures b >= 1
  {
    if k < 4 then 1 + k else 1 + (2 + k % 2) * Pow2(k / 2 - 1)
  }

  /** The decompressor's base and extra bits give back the length the compressor coded. */
  lemma LengthInverse(i: nat)
    requires i < 256
    ensures LengthExtra(LenSym(i) - 257) == LenExtra(i)
    ensures LengthBase(LenSym(i) - 257) + Low(i, LenExtra(i)) == i + 3
  {
    hide Pow2;
    Pow2Values();
    if i < 8 {
    } else if i < 16 {
    } else if i < 32 {
    } else if i < 64 {
    } else if i < 128 {
    }
  }

  lemma SmallDistanceInverse(d: nat)
    requires d < 512
    ensures DistanceExtra(SmallDistSym(d)) == SmallDistExtra(d)
    ensures DistanceBase(SmallDistSym(d)) + Low(d, SmallDistExtra(d)) == d + 1
  {
    hide Pow2;
    Pow2Values();
    if d < 4 {
    } else if d < 8 {
    } else if d < 16 {
    } else if d < 32 {
    } else if d < 64 {
    } else if d < 128 {
    } else if d < 256 {
    }
  }

  lemma LargeDistanceInverse(d: nat)
    requires 512 <= d < 32768
    ensures DistanceExtra(LargeDistSym(d / 256)) == LargeDistExtra(d / 256)
    ensures DistanceBase(LargeDistSym(d / 256)) + Low(d, LargeDistExtra(d / 256)) == d + 1
  {
    hide Pow2;
    Pow2Values();
    if d < 1024 {
    } else if d < 2048 {
      assert (d / 256) / 2 == d / 512;
    } else if d < 4096 {
      assert (d / 256) / 4 == d / 1024;
    } else if d < 8192 {
      assert (d / 256) / 8 == d / 2048;
    } else if d < 16384 {
      assert (d / 256) / 16 == d / 4096;
    } else {
      assert (d / 256) / 32 == d / 8192;
    }
  }

  lemma DistanceInverse(d: nat)
    requires d < 32768
    ensures DistanceExtra(DistSym(d)) == DistExtra(d)
    ensures DistanceBase(DistSym(d)) + Low(d, DistExtra(d)) == d + 1
  {
    if d < 512 {
      SmallDistanceInverse(d);
    } else {
      LargeDistanceInverse(d);
    }
  }
}
