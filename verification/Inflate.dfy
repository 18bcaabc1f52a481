/** A reference decoder for DEFLATE streams, section 3.2.3 of RFC 1951, with the
    outcomes of `tinfl_decompress` on a complete input and with room for `cap` bytes
    of output. Bits beyond the end of the input read as zero. */
module Inflate {
  import opened Bits
  import opened Canonical
  import opened Deflate
  import opened Blocks
  import opened Adler

  /** What a stream may hold that section 3.2.5 of RFC 1951 gives no meaning to. */
  datatype Reserved =
    | LengthSymbol(sym: nat)
    | DistanceSymbol(sym: nat)
    | Unassigned(lens: seq<nat>)     // bits that begin with no code

  datatype Outcome =
    | Ok(pos: nat, out: seq<byte>)   // decoded up to bit `pos`
    | Failed                         // TINFL_STATUS_FAILED
    | MoreOutput(out: seq<byte>)     // TINFL_STATUS_HAS_MORE_OUTPUT
    | Mismatch                       // TINFL_STATUS_ADLER32_MISMATCH
    | Undefined(why: Reserved)       // what the formats leave open

  function BitAt(s: seq<bool>, p: nat): bool {
    p < |s| && s[p]
  }

  function Peek(s: seq<bool>, p: nat, n: nat): (w: seq<bool>)
    ensures |w| == n
  {
    seq(n, (i: nat) => BitAt(s, p + i))
  }

  function Num(s: seq<bool>, p: nat, n: nat): (v: nat)
    ensures v < Pow2(n)
  {
    FromBits(Peek(s, p, n))
  }

  function DecodeSym(lens: seq<nat>, s: seq<bool>, p: nat): (r: Option<nat>)
    ensures r.Some? ==> HasCode(lens, r.value) && Matches(lens, r.value, Peek(s, p, 15))
  {
    FindSym(lens, Peek(s, p, 15), |lens|)
  }

  // ---------------------------------------------------------------- tokens

  function DecodeTokens(lit: seq<nat>, dist: seq<nat>, s: seq<bool>, p: nat, out: seq<byte>, cap: nat): (r: Outcome)
    requires |out| <= cap
    ensures r.Ok? ==> p < r.pos && |out| <= |r.out| <= cap
    decreases cap - |out|, 2
  {
    match DecodeSym(lit, s, p)
    case None => Undefined(Unassigned(lit))
    case Some(sym) =>
      var p1 := p + lit[sym];
      if sym < 256 then
        if |out| == cap then MoreOutput(out) else DecodeTokens(lit, dist, s, p1, out + [sym], cap)
      else if sym == 256 then Ok(p1, out)
      else if sym > 285 then Undefined(LengthSymbol(sym))
      else DecodeMatch(lit, dist, s, p1, sym - 257, out, cap)
  }

  /** A match, after its length code `k`: the rest of the length, and the distance. */
  function DecodeMatch(lit: seq<nat>, dist: seq<nat>, s: seq<bool>, p: nat, k: nat, out: seq<byte>, cap: nat): (r: Outcome)
    requires |out| <= cap && k < 29
    ensures r.Ok? ==> p < r.pos && |out| <= |r.out| <= cap
    decreases cap - |out|, 1
  {
    var len := LengthBase(k) + Num(s, p, LengthExtra(k));
    var p2 := p + LengthExtra(k);
    match DecodeSym(dist, s, p2)
    case None => Undefined(Unassigned(dist))
    case Some(ds) =>
      if ds > 29 then Undefined(DistanceSymbol(ds))
      else
        var p3 := p2 + dist[ds];
        DecodeCopy(lit, dist, s, p3 + DistanceExtra(ds), len, DistanceBase(ds) + Num(s, p3, DistanceExtra(ds)), out, cap)
  }

  /** The copying of a match, and what follows it. */
  function DecodeCopy(
    lit: seq<nat>, dist: seq<nat>, s: seq<bool>, p: nat, len: nat, back: nat, out: seq<byte>, cap: nat): (r: Outcome)
    requires |out| <= cap && len >= 3 && back >= 1
    ensures r.Ok? ==> p < r.pos && |out| <= |r.out| <= cap
    decreases cap - |out|, 0
  {
    if back > |out| then Failed
    else if |out| + len > cap then MoreOutput(Copy(out, cap - |out|, back))
    else DecodeTokens(lit, dist, s, p, Copy(out, len, back), cap)
  }

  // ---------------------------------------------------------------- dynamic headers

  function ClLens(s: seq<bool>, p: nat, n: nat): (cl: seq<nat>)
    requires n <= 19
    ensures |cl| == 19 && forall i :: 0 <= i < 19 ==> cl[i] < 8
  {
    if n == 0 then Repeat(0, 19)
    else
      assert Pow2(3) == 8;
      ClLens(s, p, n - 1)[ClOrder(n - 1) := Num(s, p + 3 * (n - 1), 3)]
  }

  datatype LensOutcome = LensOk(pos: nat, lens: seq<nat>) | LensFailed | LensUndefined(why: Reserved)

  function DecodeLens(cl: seq<nat>, s: seq<bool>, p: nat, total: nat, acc: seq<nat>): (r: LensOutcome)
    requires |cl| == 19
    ensures r.LensOk? ==> |r.lens| == total && p <= r.pos
    decreases total - |acc|
  {
    if |acc| >= total then
      if |acc| == total then LensOk(p, acc) else LensFailed
    else
      match DecodeSym(cl, s, p)
      case None => LensUndefined(Unassigned(cl))
      case Some(sym) =>
        var e := ClExtraBits(sym);
        var p1 := p + cl[sym];
        match UnpackItem(acc, ClItem(sym, Num(s, p1, e)))
        case None => LensFailed
        case Some(acc') => DecodeLens(cl, s, p1 + e, total, acc')
  }

  function DecodeDynamic(s: seq<bool>, p: nat, out: seq<byte>, cap: nat): (r: Outcome)
    requires |out| <= cap
    ensures r.Ok? ==> p < r.pos && |out| <= |r.out| <= cap
  {
    var hlit, hdist := Num(s, p, 5) + 257, Num(s, p + 5, 5) + 1;
    assert Pow2(4) == 16;
    var hclen := Num(s, p + 10, 4) + 4;
    var cl := ClLens(s, p + 14, hclen);
    if !Acceptable(cl) then Failed
    else
      match DecodeLens(cl, s, p + 14 + 3 * hclen, hlit + hdist, [])
      case LensFailed => Failed
      case LensUndefined(why) => Undefined(why)
      case LensOk(p1, lens) =>
        if !Acceptable(lens[hlit..]) || !Acceptable(lens[..hlit]) then Failed
        else DecodeTokens(lens[..hlit], lens[hlit..], s, p1, out, cap)
  }

  // ---------------------------------------------------------------- stored blocks

  function StoredBytes(s: seq<bool>, p: nat, n: nat, out: seq<byte>, cap: nat): (r: Outcome)
    requires |out| <= cap
    ensures r.Ok? ==> p <= r.pos && |out| <= |r.out| <= cap
    decreases n
  {
    if n == 0 then Ok(p, out)
    else if |out| == cap then MoreOutput(out)
    else if p + 8 > |s| then Failed
    else
      assert Pow2(8) == 256;
      StoredBytes(s, p + 8, n - 1, out + [Num(s, p, 8)], cap)
  }

  function Align(p: nat): nat {
    p + (8 - p % 8) % 8
  }

  function DecodeStored(s: seq<bool>, p: nat, out: seq<byte>, cap: nat): (r: Outcome)
    requires |out| <= cap
    ensures r.Ok? ==> p < r.pos && |out| <= |r.out| <= cap
  {
    var a := Align(p);
    var n := Num(s, a, 16);
    if Num(s, a + 16, 16) != 65535 - n then Failed
    else StoredBytes(s, a + 32, n, out, cap)
  }

  // ---------------------------------------------------------------- streams

  function DecodeBlock(s: seq<bool>, p: nat, out: seq<byte>, cap: nat): (r: Outcome)
    requires |out| <= cap
    ensures r.Ok? ==> p < r.pos && |out| <= |r.out| <= cap
  {
    match Num(s, p + 1, 2)
    case 0 => DecodeStored(s, p + 3, out, cap)
    case 1 => DecodeTokens(StaticLit(), StaticDist(), s, p + 3, out, cap)
    case 2 => DecodeDynamic(s, p + 3, out, cap)
    case _ => Failed
  }

  function InflateFrom(s: seq<bool>, p: nat, out: seq<byte>, cap: nat): (r: Outcome)
    requires |out| <= cap
    ensures r.Ok? ==> |out| <= |r.out| <= cap
    decreases |s| - p
  {
    if p >= |s| then Failed
    else
      var r := DecodeBlock(s, p, out, cap);
      if r.Ok? && !BitAt(s, p) then InflateFrom(s, r.pos, r.out, cap) else r
  }

  // ---------------------------------------------------------------- zlib streams

  /** The header test of section 2.2 of RFC 1950. */
  predicate HeaderOk(h0: nat, h1: nat) {
    (h0 * 256 + h1) % 31 == 0 && h1 / 32 % 2 == 0 && h0 % 16 == 8
  }

  /** The window size of the same section is no more than the ring of `tinfl_decompress` holds. */
  predicate WindowFits(h0: nat) {
    Pow2(8 + h0 / 16) <= 32768
  }

  /** Four bytes, the most significant first. */
  function BigNum(s: seq<bool>, p: nat): nat {
    ((Num(s, p, 8) * 256 + Num(s, p + 8, 8)) * 256 + Num(s, p + 16, 8)) * 256 + Num(s, p + 24, 8)
  }

  /** A whole stream, with a zlib header and checksum or without, after the bytes `before`
      that matches may reach back to; a ring sets a limit to the window. */
  function DecompressAfter(input: seq<byte>, zlib: bool, ring: bool, before: seq<byte>, cap: nat): Outcome
    requires |before| <= cap
  {
    var s := BytesToBits(input);
    if !zlib then InflateFrom(s, 0, before, cap)
    else if !HeaderOk(Num(s, 0, 8), Num(s, 8, 8)) || (ring && !WindowFits(Num(s, 0, 8))) then Failed
    else
      var r := InflateFrom(s, 16, before, cap);
      if !r.Ok? then r
      else
        var a := Align(r.pos);
        if BigNum(s, a) != Adler32(1, r.out[|before|..]) then Mismatch else Ok(a + 32, r.out)
  }

  /** A whole stream. */
  function Decompress(input: seq<byte>, zlib: bool, cap: nat): Outcome {
    DecompressAfter(input, zlib, false, [], cap)
  }
}
