/** For which streams the reference decoder has no answer. */
module ReservedSymbols {
  import opened Bits
  import opened Canonical
  import opened Deflate
  import opened Blocks
  import opened Inflate
  import opened CodeSpace
  import opened RoundTrip

  /** The symbols that section 3.2.6 of RFC 1951 reserves, and bits to which a code of at most
      one symbol assigns nothing. */
  predicate LeftOpen(why: Reserved) {
    match why
    case LengthSymbol(sym) => sym == 286 || sym == 287
    case DistanceSymbol(sym) => sym == 30 || sym == 31
    case Unassigned(lens) => UsedSyms(lens) <= 1
  }

  /** An accepted code of two symbols or more finds a symbol at every position. */
  lemma NoSymbol(lens: seq<nat>, s: seq<bool>, p: nat)
    requires Acceptable(lens) && DecodeSym(lens, s, p).None?
    ensures LeftOpen(Unassigned(lens))
  {
    hide FindSym, Kraft, UsedSyms;
    if Kraft(lens) == 32768 { FullDecodes(lens, Peek(s, p, 15)); }
  }

  lemma {:induction false} TokensOpen(lit: seq<nat>, dist: seq<nat>, s: seq<bool>, p: nat, out: seq<byte>, cap: nat)
    requires Acceptable(lit) && Acceptable(dist) && |lit| <= 288 && |dist| <= 32 && |out| <= cap
    ensures var r := DecodeTokens(lit, dist, s, p, out, cap); r.Undefined? ==> LeftOpen(r.why)
    decreases cap - |out|, 2
  {
    hide DecodeSym, Acceptable, UsedSyms, DecodeMatch;
    match DecodeSym(lit, s, p)
    case None => NoSymbol(lit, s, p);
    case Some(sym) =>
      if sym < 256 && |out| < cap {
        TokensOpen(lit, dist, s, p + lit[sym], out + [sym], cap);
      } else if 256 < sym <= 285 {
        MatchOpen(lit, dist, s, p + lit[sym], sym - 257, out, cap);
      }
  }

  lemma {:induction false} MatchOpen(
    lit: seq<nat>, dist: seq<nat>, s: seq<bool>, p: nat, k: nat, out: seq<byte>, cap: nat)
    requires Acceptable(lit) && Acceptable(dist) && |lit| <= 288 && |dist| <= 32 && |out| <= cap && k < 29
    ensures var r := DecodeMatch(lit, dist, s, p, k, out, cap); r.Undefined? ==> LeftOpen(r.why)
    decreases cap - |out|, 1
  {
    hide DecodeSym, Acceptable, UsedSyms, DecodeTokens, LengthBase, DistanceBase, Num, Copy;
    var len, p2 := LengthBase(k) + Num(s, p, LengthExtra(k)), p + LengthExtra(k);
    match DecodeSym(dist, s, p2)
    case None => NoSymbol(dist, s, p2);
    case Some(ds) =>
      if ds <= 29 {
        var p3 := p2 + dist[ds];
        var back := DistanceBase(ds) + Num(s, p3, DistanceExtra(ds));
        if back <= |out| && |out| + len <= cap {
          TokensOpen(lit, dist, s, p3 + DistanceExtra(ds), Copy(out, len, back), cap);
        }
      }
  }

  lemma {:induction false} LensOpen(cl: seq<nat>, s: seq<bool>, p: nat, total: nat, acc: seq<nat>)
    requires |cl| == 19 && Acceptable(cl)
    ensures var r := DecodeLens(cl, s, p, total, acc); r.LensUndefined? ==> LeftOpen(r.why)
    decreases total - |acc|
  {
    hide DecodeSym, Acceptable, UsedSyms, UnpackItem, Num;
    if |acc| < total {
      match DecodeSym(cl, s, p)
      case None => NoSymbol(cl, s, p);
      case Some(sym) =>
        var e, p1 := ClExtraBits(sym), p + cl[sym];
        var it := ClItem(sym, Num(s, p1, e));
        if UnpackItem(acc, it).Some? {
          UnpackGrows(acc, it);
          LensOpen(cl, s, p1 + e, total, UnpackItem(acc, it).value);
        }
    }
  }

  lemma DynamicOpen(s: seq<bool>, p: nat, out: seq<byte>, cap: nat)
    requires |out| <= cap
    ensures var r := DecodeDynamic(s, p, out, cap); r.Undefined? ==> LeftOpen(r.why)
  {
    hide Acceptable, UsedSyms, DecodeLens, DecodeTokens, ClLens, Num;
    var hlit, hdist, hclen := Num(s, p, 5) + 257, Num(s, p + 5, 5) + 1, Num(s, p + 10, 4) + 4;
    Pow2Values();
    var cl := ClLens(s, p + 14, hclen);
    if Acceptable(cl) {
      LensOpen(cl, s, p + 14 + 3 * hclen, hlit + hdist, []);
      var t := DecodeLens(cl, s, p + 14 + 3 * hclen, hlit + hdist, []);
      if t.LensOk? && Acceptable(t.lens[hlit..]) && Acceptable(t.lens[..hlit]) {
        TokensOpen(t.lens[..hlit], t.lens[hlit..], s, t.pos, out, cap);
      }
    }
  }

  lemma {:induction false} StoredDefined(s: seq<bool>, p: nat, n: nat, out: seq<byte>, cap: nat)
    requires |out| <= cap
    ensures !StoredBytes(s, p, n, out, cap).Undefined?
    decreases n
  {
    hide Num;
    if n > 0 && |out| < cap && p + 8 <= |s| {
      Pow2Values();
      StoredDefined(s, p + 8, n - 1, out + [Num(s, p, 8)], cap);
    }
  }

  lemma BlockOpen(s: seq<bool>, p: nat, out: seq<byte>, cap: nat)
    requires |out| <= cap
    ensures var r := DecodeBlock(s, p, out, cap); r.Undefined? ==> LeftOpen(r.why)
  {
    hide Acceptable, DecodeTokens, DecodeDynamic, Num, StoredBytes;
    var a := Align(p + 3);
    StoredDefined(s, a + 32, Num(s, a, 16), out, cap);
    StaticAcceptable();
    TokensOpen(StaticLit(), StaticDist(), s, p + 3, out, cap);
    DynamicOpen(s, p + 3, out, cap);
  }

  lemma {:induction false} StreamOpen(s: seq<bool>, p: nat, out: seq<byte>, cap: nat)
    requires |out| <= cap
    ensures var r := InflateFrom(s, p, out, cap); r.Undefined? ==> LeftOpen(r.why)
    decreases |s| - p
  {
    hide DecodeBlock, LeftOpen;
    if p < |s| {
      BlockOpen(s, p, out, cap);
      var r := DecodeBlock(s, p, out, cap);
      if r.Ok? && !BitAt(s, p) { StreamOpen(s, r.pos, r.out, cap); }
    }
  }

  /** The reference has an answer for every input in which no block comes upon length symbol 286
      or 287, distance symbol 30 or 31, or bits to which a code of at most one symbol assigns nothing. */
  lemma OpenOnly(input: seq<byte>, zlib: bool, ring: bool, before: seq<byte>, cap: nat)
    requires |before| <= cap
    ensures var r := DecompressAfter(input, zlib, ring, before, cap); r.Undefined? ==> LeftOpen(r.why)
  {
    hide InflateFrom, LeftOpen, BytesToBits, HeaderOk, WindowFits, BigNum;
    var s := BytesToBits(input);
    StreamOpen(s, if zlib then 16 else 0, before, cap);
  }
}
