/** `tinfl_decompress` over all its calls, with the input in pieces and the output going into a
    buffer that is enlarged or into a ring: proved to compute what the reference decoder says.
    A call that is suspended and the one that goes on in its place are one place of the program
    here, with what the caller does in between. Streams for which the reference has no answer,
    because of a reserved symbol or an unassigned code, are excluded. */
module Inflaters {
  import opened Bits
  import opened Canonical
  import opened Deflate
  import opened Blocks
  import opened Inflate
  import opened RoundTrip
  import opened Rfc1951
  import opened DecodeTables
  import opened BitInput
  import opened HuffDecode
  import opened OutputBuffers
  import opened Adler

  /** How a part of the decoder ends: it goes on, or with one of the statuses. */
  datatype Progress = Running | Fail | OutputFull

  /** The three header bits of a block. */
  lemma BlockStep(s: seq<bool>, p: nat, out: seq<byte>, cap: nat)
    requires |out| <= cap
    ensures Num(s, p, 3) < 8 && (Num(s, p, 3) % 2 == 1) == BitAt(s, p)
    ensures DecodeBlock(s, p, out, cap) ==
            match Num(s, p, 3) / 2
            case 0 => DecodeStored(s, p + 3, out, cap)
            case 1 => DecodeTokens(StaticLit(), StaticDist(), s, p + 3, out, cap)
            case 2 => DecodeDynamic(s, p + 3, out, cap)
            case _ => Failed
  {
    hide DecodeStored, DecodeTokens, DecodeDynamic;
    Pow2Values();
    PeekConcat(s, p, 1, 2);
    var a, b := Peek(s, p, 1), Peek(s, p + 1, 2);
    FromBitsConcat(a, b);
    assert a[1..] == [];
    assert FromBits(a) == if BitAt(s, p) then 1 else 0;
  }

  lemma NoBitsPast(s: seq<bool>, p: nat, n: nat)
    requires p >= |s|
    ensures Num(s, p, n) == 0
  {
    var w := Peek(s, p, n);
    forall i | 0 <= i < n ensures w[i] == Zeros(n)[i] {
      assert !BitAt(s, p + i);
    }
    assert w == Zeros(n);
    FromZeros(n);
  }

  /** Past the end of the input there is no block. */
  lemma PastEnd(s: seq<bool>, p: nat, out: seq<byte>, cap: nat)
    requires p >= |s| && |out| <= cap
    ensures DecodeBlock(s, p, out, cap) == Failed
  {
    hide Num, StoredBytes, DecodeTokens, DecodeDynamic;
    NoBitsPast(s, p + 1, 2);
    NoBitsPast(s, Align(p + 3), 16);
    NoBitsPast(s, Align(p + 3) + 16, 16);
  }

  lemma InflateStep(s: seq<bool>, p: nat, out: seq<byte>, cap: nat)
    requires |out| <= cap && !InflateFrom(s, p, out, cap).Undefined?
    ensures var t := DecodeBlock(s, p, out, cap);
            !t.Undefined? && (t.Ok? ==> p < t.pos && p < |s|) &&
            InflateFrom(s, p, out, cap) == if t.Ok? && !BitAt(s, p) then InflateFrom(s, t.pos, t.out, cap) else t
  {
    hide DecodeBlock;
    if p >= |s| { PastEnd(s, p, out, cap); }
  }

  /** `z_adler32 = (z_adler32 << 8) | s` on 32 bits. */
  function Shift8(z: nat, b: nat): nat {
    (z * 256 + b) % 0x1_0000_0000
  }

  lemma Shifted(s: seq<bool>, a: nat, b0: nat, b1: nat, b2: nat, b3: nat)
    requires b0 == Num(s, a, 8) < 256 && b1 == Num(s, a + 8, 8) < 256
    requires b2 == Num(s, a + 16, 8) < 256 && b3 == Num(s, a + 24, 8) < 256
    ensures Shift8(Shift8(Shift8(Shift8(1, b0), b1), b2), b3) == BigNum(s, a)
  {
    hide Num;
    assert Shift8(1, b0) == 256 + b0;
    assert Shift8(Shift8(1, b0), b1) == 65536 + b0 * 256 + b1;
    assert Shift8(Shift8(Shift8(1, b0), b1), b2) == 16777216 + (b0 * 256 + b1) * 256 + b2;
  }

  lemma LensEnd(c: seq<nat>, s: seq<bool>, p: nat, total: nat, acc: seq<nat>)
    requires |c| == 19 && |acc| >= total
    ensures DecodeLens(c, s, p, total, acc) == if |acc| == total then LensOk(p, acc) else LensFailed
  {
  }

  /** What follows the code lengths of a dynamic block. */
  function TablesOutcome(lens: seq<nat>, hlit: nat, s: seq<bool>, p: nat, out: seq<byte>, cap: nat): Outcome
    requires |out| <= cap && hlit <= |lens|
  {
    if Acceptable(lens[hlit..]) && Acceptable(lens[..hlit]) then DecodeTokens(lens[..hlit], lens[hlit..], s, p, out, cap)
    else Failed
  }

  /** The parts of a dynamic header. */
  lemma DynamicStep(s: seq<bool>, p: nat, out: seq<byte>, cap: nat)
    requires |out| <= cap && !DecodeDynamic(s, p, out, cap).Undefined?
    ensures Num(s, p, 5) < 32 && Num(s, p + 5, 5) < 32 && Num(s, p + 10, 4) < 16
    ensures var hlit, hdist, hclen := Num(s, p, 5) + 257, Num(s, p + 5, 5) + 1, Num(s, p + 10, 4) + 4;
            var c := ClLens(s, p + 14, hclen);
            var t := DecodeLens(c, s, p + 14 + 3 * hclen, hlit + hdist, []);
            (Acceptable(c) ==> !t.LensUndefined?) &&
            DecodeDynamic(s, p, out, cap) ==
            if !Acceptable(c) || t.LensFailed? then Failed
            else if t.LensUndefined? then Undefined(t.why)
            else TablesOutcome(t.lens, hlit, s, t.pos, out, cap)
  {
    hide Num, Acceptable, DecodeLens, DecodeTokens, ClLens;
    Pow2Values();
  }

  lemma TwoBytes(s: seq<bool>, p: nat, lo: nat, hi: nat)
    requires lo == Num(s, p, 8) < 256 && hi == Num(s, p + 8, 8) < 256
    ensures BitOr(lo, hi * 256) == Num(s, p, 16) < 65536
  {
    hide FromBits, Peek, BitOr;
    Pow2Values();
    PeekConcat(s, p, 8, 8);
    FromBitsConcat(Peek(s, p, 8), Peek(s, p + 8, 8));
    BitOrDisjoint(lo, hi, 8);
  }

  lemma StoredStep(s: seq<bool>, p: nat, n: nat, out: seq<byte>, cap: nat)
    requires |out| <= cap && n > 0
    ensures Num(s, p, 8) < 256
    ensures StoredBytes(s, p, n, out, cap) ==
            if |out| == cap then MoreOutput(out)
            else if p + 8 > |s| then Failed
            else StoredBytes(s, p + 8, n - 1, out + [Num(s, p, 8)], cap)
  {
    hide Num;
    Pow2Values();
  }

  lemma StoredEnd(s: seq<bool>, p: nat, out: seq<byte>, cap: nat)
    requires |out| <= cap
    ensures StoredBytes(s, p, 0, out, cap) == Ok(p, out)
  {
  }

  lemma ByteAt(input: seq<byte>, i: nat)
    requires i < |input|
    ensures Num(BytesToBits(input), 8 * i, 8) == input[i]
  {
    hide BytesToBits, ToBits, FromBits, Peek;
    PeekByte(input, i);
    Pow2Values();
    FromToBits(input[i], 8);
  }

  /** `k` bytes at once. */
  lemma {:induction false} StoredRun(input: seq<byte>, i: nat, n: nat, k: nat, out: seq<byte>, cap: nat)
    requires k <= n && i + k <= |input| && |out| + k <= cap
    ensures StoredBytes(BytesToBits(input), 8 * i, n, out, cap) ==
            StoredBytes(BytesToBits(input), 8 * (i + k), n - k, out + input[i..i + k], cap)
    decreases k
  {
    hide StoredBytes, Num, BytesToBits;
    if k == 0 {
      assert out + input[i..i] == out;
    } else {
      var s := BytesToBits(input);
      StoredStep(s, 8 * i, n, out, cap);
      ByteAt(input, i);
      StoredRun(input, i + 1, n - 1, k - 1, out + [input[i]], cap);
      assert out + [input[i]] + input[i + 1..i + k] == out + input[i..i + k];
    }
  }

  lemma RunExtra(sym: nat)
    requires 16 <= sym < 19
    ensures ClExtraBits(sym) <= 7 && ClBase(sym) <= 11 && Pow2(ClExtraBits(sym)) <= 128 && (sym != 18 ==> Pow2(ClExtraBits(sym)) <= 8)
  {
    Pow2Values();
  }

  lemma LensStep(c: seq<nat>, s: seq<bool>, p: nat, total: nat, acc: seq<nat>)
    requires |c| == 19 && |acc| < total && !DecodeLens(c, s, p, total, acc).LensUndefined?
    ensures DecodeSym(c, s, p).Some?
    ensures var sym := DecodeSym(c, s, p).value;
            sym < 19 &&
            var q := p + c[sym];
            var e := ClExtraBits(sym);
            var u := UnpackItem(acc, ClItem(sym, Num(s, q, e)));
            DecodeLens(c, s, p, total, acc) == if u.None? then LensFailed else DecodeLens(c, s, q + e, total, u.value)
  {
    hide DecodeSym, Num, UnpackItem;
  }

  lemma NoBits(s: seq<bool>, p: nat)
    ensures Num(s, p, 0) == 0
  {
  }

  /** No distance reaches back further than the ring holds. */
  lemma DistanceBound(k: nat, v: nat)
    requires k < 30 && v < Pow2(DistanceExtra(k))
    ensures DistanceBase(k) + v <= 32768
  {
    hide Pow2;
    Pow2Values();
    if k >= 4 { Pow2Mono(k / 2 - 1, 13); }
  }

  lemma MatchStep(l: seq<nat>, d: seq<nat>, s: seq<bool>, p: nat, k: nat, out: seq<byte>, cap: nat)
    requires |out| <= cap && k < 29 && !DecodeMatch(l, d, s, p, k, out, cap).Undefined?
    ensures var p2 := p + LengthExtra(k);
            DecodeSym(d, s, p2).Some? &&
            var ds := DecodeSym(d, s, p2).value;
            ds < |d| && ds <= 29 &&
            var p3 := p2 + d[ds];
            var back := DistanceBase(ds) + Num(s, p3, DistanceExtra(ds));
            1 <= back <= 32768 &&
            DecodeMatch(l, d, s, p, k, out, cap) ==
            DecodeCopy(l, d, s, p3 + DistanceExtra(ds), LengthBase(k) + Num(s, p, LengthExtra(k)), back, out, cap)
  {
    hide DecodeSym, Num, LengthBase, LengthExtra, DistanceBase, DistanceExtra, DecodeTokens, Copy;
    var ds := DecodeSym(d, s, p + LengthExtra(k)).value;
    DistanceBound(ds, Num(s, p + LengthExtra(k) + d[ds], DistanceExtra(ds)));
  }

  /** What follows a symbol that is not a literal. */
  function AfterSym(l: seq<nat>, d: seq<nat>, s: seq<bool>, p: nat, sym: nat, out: seq<byte>, cap: nat): Outcome
    requires |out| <= cap
  {
    if sym == 256 then Ok(p, out)
    else if sym < 256 || sym > 285 then Undefined(LengthSymbol(sym))
    else DecodeMatch(l, d, s, p, sym - 257, out, cap)
  }

  /** The reference decoder moves over one symbol. */
  lemma SymStep(l: seq<nat>, d: seq<nat>, s: seq<bool>, p: nat, out: seq<byte>, cap: nat)
    requires |out| <= cap && !DecodeTokens(l, d, s, p, out, cap).Undefined?
    ensures DecodeSym(l, s, p).Some?
    ensures var sym := DecodeSym(l, s, p).value;
            sym < |l| &&
            var q := p + l[sym];
            DecodeTokens(l, d, s, p, out, cap) ==
            if sym >= 256 then AfterSym(l, d, s, q, sym, out, cap)
            else if |out| == cap then MoreOutput(out)
            else DecodeTokens(l, d, s, q, out + [sym], cap)
  {
    hide DecodeSym, DecodeMatch;
  }

  lemma ReadySize(t: DecodeTable, lens: seq<nat>)
    requires t.Ready(lens)
    ensures |lens| <= 288 && Acceptable(lens)
  {
    hide TableOk;
  }

  /** `tinfl_status`, as far as a caller that gives all the input sees it in the end. */
  datatype TinflStatus = Done | StreamFailed | HasMoreOutput | AdlerMismatch

  ghost predicate Agrees(t: Outcome, status: TinflStatus, output: seq<byte>) {
    match t
    case Ok(_, out) => status == Done && output == out
    case Failed => status == StreamFailed
    case MoreOutput(out) => status == HasMoreOutput && output == out
    case Mismatch => status == AdlerMismatch
    case Undefined(_) => true
  }

  /** How many bytes of the input a stream that ends at bit `pos` has taken: exactly its own
      when a checksum follows the last block, and otherwise up to three more. */
  ghost predicate Used(pos: nat, zlib: bool, used: nat, size: nat) {
    if zlib then used == Min(pos / 8, size) && pos % 8 == 0
    else Min((pos + 7) / 8, size) <= used <= (pos + 30) / 8
  }

  class Inflater {
    const r: BitReader
    const lit: DecodeTable        // m_tables[0]
    const dist: DecodeTable       // m_tables[1]
    const cl: DecodeTable         // m_tables[2]
    const o: OutputBuffer

    ghost predicate Shape() {
      lit.Shape() && dist.Shape() && cl.Shape() && lit != dist && lit != cl && dist != cl &&
      {lit.codeSize as object, lit.lookUp, lit.tree} !! {dist.codeSize as object, dist.lookUp, dist.tree} &&
      {lit.codeSize as object, lit.lookUp, lit.tree} !! {cl.codeSize as object, cl.lookUp, cl.tree} &&
      {dist.codeSize as object, dist.lookUp, dist.tree} !! {cl.codeSize as object, cl.lookUp, cl.tree} &&
      o.buf as object !in {lit.codeSize as object, lit.lookUp, lit.tree, dist.codeSize, dist.lookUp, dist.tree,
                         cl.codeSize, cl.lookUp, cl.tree}
    }

    ghost predicate Valid()
      reads this, r, o, o.buf
    {
      Shape() && r.Valid() && o.Valid()
    }

    /** The decoder stands where the reference ends with `t`. */
    ghost predicate Reached(t: Outcome, status: Progress)
      reads this, r, o
    {
      match status
      case Running => t == Ok(r.Pos(), o.made)
      case Fail => t == Failed
      case OutputFull => t == MoreOutput(o.made)
    }

    /** What the tokens from here on decode to. */
    ghost function Tokens(l: seq<nat>, d: seq<nat>): Outcome
      requires Valid()
      reads this, r, o, o.buf
    {
      DecodeTokens(l, d, r.S(), r.Pos(), o.made, o.cap)
    }

    constructor (pieces: seq<seq<byte>>, o: OutputBuffer)
      requires o.Valid()
      ensures Valid() && r.Pos() == 0 && r.numBits == 0 && r.pads == 0 && r.input == Flat(pieces) && this.o == o
      ensures fresh(this) && fresh(r) && fresh(lit) && fresh(dist) && fresh(cl)
      ensures fresh(lit.codeSize) && fresh(lit.lookUp) && fresh(lit.tree)
      ensures fresh(dist.codeSize) && fresh(dist.lookUp) && fresh(dist.tree)
      ensures fresh(cl.codeSize) && fresh(cl.lookUp) && fresh(cl.tree)
    {
      hide BitReader.Valid, OutputBuffer.Valid, Flat, DecodeTable.Shape;
      r := new BitReader(pieces);
      lit := new DecodeTable();
      dist := new DecodeTable();
      cl := new DecodeTable();
      this.o := o;
    }

    /** One symbol at a time, near the end of the input or of the output. */
    method SlowSymbol(ghost l: seq<nat>, ghost d: seq<nat>) returns (done: bool, full: bool, counter: nat)
      requires Valid() && lit.Ready(l) && !Tokens(l, d).Undefined?
      modifies r, o, o.buf
      ensures Valid() && (full ==> done) && |old(o.made)| <= |o.made|
      ensures full ==> old(Tokens(l, d)) == MoreOutput(o.made)
      ensures done && !full ==> 256 <= counter < 512 && old(Tokens(l, d)) == AfterSym(l, d, r.S(), r.Pos(), counter, o.made, o.cap)
      ensures !done ==> |o.made| == |old(o.made)| + 1 && Tokens(l, d) == old(Tokens(l, d))
    {
      hide DecodeTokens, DecodeSym, DecodeTable.Ready, BitReader.Valid;
      SymStep(l, d, r.S(), r.Pos(), o.made, o.cap);
      ReadySize(lit, l);
      counter := DecodeNext(lit, r, l);
      if counter >= 256 { return true, false, counter; }
      var ok := o.AwaitRoom();
      if !ok { return true, true, counter; }
      o.PutByte(counter);
      return false, false, counter;
    }

    /** A symbol when there is input enough not to look at its end. */
    method FastSymbol(ghost l: seq<nat>, ghost sym: nat) returns (raw: nat)
      requires r.Valid() && lit.Ready(l) && r.end - r.cur >= 2 && DecodeSym(l, r.S(), r.Pos()) == Some(sym)
      modifies r
      ensures r.Valid() && sym < |l| && r.Pos() == old(r.Pos()) + l[sym] && raw % 512 == sym
      ensures r.cur <= old(r.cur) + 2 && r.end == old(r.end)
    {
      hide DecodeSym, DecodeTable.Ready, Peek, BytesToBits, FromBits;
      ReadySize(lit, l);
      SymFacts(l, r.S(), r.Pos(), sym);
      if r.numBits < 15 { r.Prefetch(); }
      raw := TakeSym(lit, r, l, sym);
    }

    /** The same, when the output is going to be `made`. */
    method FastStep(ghost l: seq<nat>, ghost d: seq<nat>, ghost made: seq<byte>, ghost cap: nat) returns (raw: nat)
      requires r.Valid() && lit.Ready(l) && r.end - r.cur >= 2 && |made| < cap
      requires !DecodeTokens(l, d, r.S(), r.Pos(), made, cap).Undefined?
      modifies r
      ensures r.Valid() && r.cur <= old(r.cur) + 2 && r.end == old(r.end) && (raw / 256 % 2 == 1 <==> raw % 512 >= 256)
      ensures raw % 512 >= 256 ==>
        DecodeTokens(l, d, r.S(), old(r.Pos()), made, cap) == AfterSym(l, d, r.S(), r.Pos(), raw % 512, made, cap)
      ensures raw % 512 < 256 ==> raw % 512 == raw % 256
      ensures raw % 512 < 256 ==>
        DecodeTokens(l, d, r.S(), old(r.Pos()), made, cap) == DecodeTokens(l, d, r.S(), r.Pos(), made + [raw % 256], cap)
    {
      hide DecodeTokens, DecodeSym, DecodeTable.Ready, BitReader.Valid, BitReader.Pos, AfterSym;
      SymStep(l, d, r.S(), r.Pos(), made, cap);
      raw := FastSymbol(l, DecodeSym(l, r.S(), r.Pos()).value);
    }

    /** Two symbols a round, while there is room for both. */
    method FastSymbols(ghost l: seq<nat>, ghost d: seq<nat>) returns (done: bool, counter: nat)
      requires Valid() && lit.Ready(l) && !Tokens(l, d).Undefined?
      requires r.end - r.cur >= 4 && o.size - o.cur >= 2
      modifies r, o, o.buf
      ensures Valid() && |old(o.made)| <= |o.made|
      ensures done ==> 256 <= counter % 512 && old(Tokens(l, d)) == AfterSym(l, d, r.S(), r.Pos(), counter % 512, o.made, o.cap)
      ensures !done ==> |o.made| == |old(o.made)| + 2 && Tokens(l, d) == old(Tokens(l, d))
    {
      hide DecodeTokens, DecodeTable.Ready, BitReader.Valid, BitReader.Pos, AfterSym;
      ghost var made := o.made;
      counter := FastStep(l, d, made, o.cap);
      if counter / 256 % 2 == 1 { return true, counter; }
      var first: byte := counter % 256;
      counter := FastStep(l, d, made + [first], o.cap);
      o.PutByte(first);
      if counter / 256 % 2 == 1 { return true, counter; }
      o.PutByte(counter % 256);
      return false, counter;
    }

    /** Literals up to the next symbol of another kind. */
    method Literals(ghost l: seq<nat>, ghost d: seq<nat>) returns (full: bool, counter: nat)
      requires Valid() && lit.Ready(l) && !Tokens(l, d).Undefined?
      modifies r, o, o.buf
      ensures Valid() && |old(o.made)| <= |o.made|
      ensures full ==> old(Tokens(l, d)) == MoreOutput(o.made)
      ensures !full ==> 256 <= counter < 512 && old(Tokens(l, d)) == AfterSym(l, d, r.S(), r.Pos(), counter, o.made, o.cap)
    {
      hide DecodeTokens, DecodeSym, DecodeTable.Ready, BitReader.Valid, BitReader.Pos, AfterSym;
      ghost var t := Tokens(l, d);
      var done := false;
      full, counter := false, 0;
      while !done
        invariant Valid() && lit.Ready(l) && |old(o.made)| <= |o.made| && (full ==> done)
        invariant !done ==> Tokens(l, d) == t
        invariant full ==> t == MoreOutput(o.made)
        invariant done && !full ==> 256 <= counter % 512 && t == AfterSym(l, d, r.S(), r.Pos(), counter % 512, o.made, o.cap)
        decreases !done, o.cap - |o.made|
      {
        if r.end - r.cur < 4 || o.size - o.cur < 2 {
          done, full, counter := SlowSymbol(l, d);
        } else {
          done, counter := FastSymbols(l, d);
        }
      }
      counter := counter % 512;
    }

    /** The extra bits of a length or distance. */
    method Extra(n: nat) returns (b: nat)
      requires r.Valid() && n <= 16
      modifies r
      ensures r.Valid() && r.Pos() == old(r.Pos()) + n && b == Num(r.S(), old(r.Pos()), n)
    {
      hide Num, BitReader.Valid, BitReader.Pos;
      b := 0;
      if n != 0 {
        b := r.GetBits(n);
      } else {
        NoBits(r.S(), r.Pos());
      }
    }

    /** The length and the distance of a match whose length code is `k`. */
    method ReadMatch(k: nat, ghost l: seq<nat>, ghost d: seq<nat>) returns (len: nat, back: nat)
      requires Valid() && dist.Ready(d) && k < 29
      requires !DecodeMatch(l, d, r.S(), r.Pos(), k, o.made, o.cap).Undefined?
      modifies r
      ensures Valid() && len >= 3 && 1 <= back <= DICT_SIZE
      ensures DecodeMatch(l, d, r.S(), old(r.Pos()), k, o.made, o.cap) == DecodeCopy(l, d, r.S(), r.Pos(), len, back, o.made, o.cap)
    {
      hide DecodeTokens, DecodeSym, DecodeTable.Ready, BitReader.Valid, BitReader.Pos, DecodeMatch, Num, LengthBase, LengthExtra,
           DistanceBase, DistanceExtra, DecodeCopy, Acceptable;
      ghost var s, p := r.S(), r.Pos();
      MatchStep(l, d, s, p, k, o.made, o.cap);
      ReadySize(dist, d);
      len := Extra(LengthExtra(k));
      len := len + LengthBase(k);
      var sym := DecodeNext(dist, r, d);
      back := Extra(DistanceExtra(sym));
      back := back + DistanceBase(sym);
    }

    /** Copy the match, if its source is there, as far as there will be room. */
    method CopyToken(len: nat, back: nat, ghost l: seq<nat>, ghost d: seq<nat>) returns (status: Progress)
      requires Valid() && len >= 3 && 1 <= back <= DICT_SIZE
      modifies o, o.buf
      ensures Valid() && (status == Running ==> |old(o.made)| < |o.made|)
      ensures var t := DecodeCopy(l, d, r.S(), r.Pos(), len, back, old(o.made), o.cap);
              match status
              case Running => t == Tokens(l, d)
              case Fail => t == Failed
              case OutputFull => t == MoreOutput(o.made)
    {
      hide DecodeTokens, BitReader.Valid, Copy, OutputBuffer.Accounts;
      if back > o.cur && !o.wrapping { return Fail; }
      var full := o.CopyMatch(len, back);
      status := if full then OutputFull else Running;
    }

    /** All tokens of a block. */
    method TokenLoop(ghost l: seq<nat>, ghost d: seq<nat>) returns (status: Progress)
      requires Valid() && lit.Ready(l) && dist.Ready(d) && !Tokens(l, d).Undefined?
      modifies r, o, o.buf
      ensures Valid() && Reached(old(Tokens(l, d)), status)
    {
      hide DecodeTokens, DecodeTable.Ready, BitReader.Valid, BitReader.Pos, DecodeMatch, DecodeCopy;
      ghost var t := Tokens(l, d);
      while true
        invariant Valid() && lit.Ready(l) && dist.Ready(d) && Tokens(l, d) == t
        decreases o.cap - |o.made|
      {
        var full, counter := Literals(l, d);
        if full { return OutputFull; }
        if counter == 256 { return Running; }
        var len, back := ReadMatch(counter - 257, l, d);
        status := CopyToken(len, back, l, d);
        if status != Running { return; }
      }
    }

    // -------------------------------------------------------------- stored blocks

    /** The length of a stored block, checked against its complement. */
    method StoredHeader() returns (ok: bool, counter: nat)
      requires r.Valid()
      modifies r
      ensures r.Valid() && r.numBits % 8 == 0 && (r.pads > 0 ==> r.numBits == 0)
      ensures var a := Align(old(r.Pos()));
              r.Pos() == a + 32 && counter == Num(r.S(), a, 16) && (ok <==> Num(r.S(), a + 16, 16) == 65535 - counter)
    {
      hide Num, BitReader.Valid, BitReader.Pos, Align, BitOr, BitXor;
      r.SkipToByte();
      ghost var a := r.Pos();
      var h0 := r.GetAligned();
      var h1 := r.GetAligned();
      var h2 := r.GetAligned();
      var h3 := r.GetAligned();
      TwoBytes(r.S(), a, h0, h1);
      TwoBytes(r.S(), a + 16, h2, h3);
      Pow2Values();
      counter := BitOr(h0, h1 * 256);
      XorOnes(BitOr(h2, h3 * 256), 16);
      ok := counter == BitXor(BitOr(h2, h3 * 256), 65535);
    }

    /** `memcpy` from the input to the output. */
    method CopyIn(k: nat)
      requires Valid() && r.numBits == 0 && k <= r.end - r.cur && k <= o.size - o.cur && (k > 0 ==> r.pads == 0)
      modifies r, o, o.buf
      ensures Valid() && r.numBits == 0 && r.Pos() == old(r.Pos()) + 8 * k && r.cur == old(r.cur) + k
      ensures o.made == old(o.made) + r.input[old(r.cur)..r.cur]
    {
      hide Peek, FromBits, BytesToBits;
      o.PutBytes(r.input[r.cur..r.cur + k]);
      r.SkipBytes(k);
    }

    /** As much of a stored block as there is input and room for. */
    method StoredPiece(n: nat) returns (left: nat)
      requires Valid() && r.numBits == 0 && n > 0 && o.cur < o.size && r.cur < r.end
      modifies r, o, o.buf
      ensures Valid() && r.numBits == 0 && left < n
      ensures StoredBytes(r.S(), r.Pos(), left, o.made, o.cap) == old(StoredBytes(r.S(), r.Pos(), n, o.made, o.cap))
    {
      hide StoredBytes, Num, Peek, FromBits, BytesToBits, Flat, OutputBuffer.Valid;
      var k := Min(Min(o.size - o.cur, r.end - r.cur), n);
      StoredRun(r.input, r.cur, n, k, o.made, o.cap);
      CopyIn(k);
      left := n - k;
    }

    /** The rest of a stored block, copied from the input. */
    method StoredRest(n: nat) returns (status: Progress)
      requires Valid() && (n > 0 ==> r.numBits == 0)
      modifies r, o, o.buf
      ensures Valid() && Reached(StoredBytes(r.S(), old(r.Pos()), n, old(o.made), o.cap), status)
    {
      hide StoredBytes, Num, Peek, FromBits, BytesToBits, Flat, OutputBuffer.Valid, BitReader.Valid, BitReader.Pos;
      ghost var t := StoredBytes(r.S(), r.Pos(), n, o.made, o.cap);
      var counter := n;
      while counter > 0
        invariant Valid() && (counter > 0 ==> r.numBits == 0) && 0 <= counter
        invariant StoredBytes(r.S(), r.Pos(), counter, o.made, o.cap) == t
      {
        StoredStep(r.S(), r.Pos(), counter, o.made, o.cap);
        var ok := o.AwaitRoom();
        if !ok { return OutputFull; }
        ok := r.NeedInput();
        if !ok { return Fail; }
        counter := StoredPiece(counter);
      }
      StoredEnd(r.S(), r.Pos(), o.made, o.cap);
      status := Running;
    }

    /** The bytes of a stored block, first those already in the bit buffer. */
    method StoredData(n: nat) returns (status: Progress)
      requires Valid() && r.numBits % 8 == 0 && (r.pads > 0 ==> r.numBits == 0)
      modifies r, o, o.buf
      ensures Valid() && Reached(StoredBytes(r.S(), old(r.Pos()), n, old(o.made), o.cap), status)
    {
      hide StoredBytes, Num, BitReader.Valid, BitReader.Pos, OutputBuffer.Valid;
      ghost var t := StoredBytes(r.S(), r.Pos(), n, o.made, o.cap);
      var counter := n;
      while counter > 0 && r.numBits > 0
        invariant Valid() && r.numBits % 8 == 0 && (r.pads > 0 ==> r.numBits == 0) && 0 <= counter
        invariant StoredBytes(r.S(), r.Pos(), counter, o.made, o.cap) == t
      {
        StoredStep(r.S(), r.Pos(), counter, o.made, o.cap);
        var b := r.HeldByte();
        var ok := o.AwaitRoom();
        if !ok { return OutputFull; }
        o.PutByte(b);
        counter := counter - 1;
      }
      status := StoredRest(counter);
    }

    // -------------------------------------------------------------- tables

    method StaticTables()
      requires Shape()
      modifies lit.codeSize, lit`nodes, lit.lookUp, lit.tree, dist.codeSize, dist`nodes, dist.lookUp, dist.tree
      ensures lit.Ready(StaticLit()) && dist.Ready(StaticDist())
    {
      hide TableOk, Acceptable;
      StaticAcceptable();
      forall i | 0 <= i < 32 { dist.codeSize[i] := 5; }
      forall i | 0 <= i < 288 {
        lit.codeSize[i] := if i <= 143 then 8 else if i <= 255 then 9 else if i <= 279 then 7 else 8;
      }
      assert dist.codeSize[..32] == StaticDist();
      var ok := dist.Build(32);
      assert lit.codeSize[..288] == StaticLit();
      ok := lit.Build(288);
    }

    /** The code lengths of the code length code, which come in the order of section 3.2.7 of RFC 1951. */
    method ReadClSizes(n: nat)
      requires r.Valid() && cl.Shape() && n <= 19
      modifies r, cl.codeSize
      ensures r.Valid() && r.Pos() == old(r.Pos()) + 3 * n && cl.codeSize[..19] == ClLens(r.S(), old(r.Pos()), n)
      ensures forall j :: 0 <= j < 19 ==>
        cl.codeSize[..19][[16, 17, 18, 0, 8, 7, 9, 6, 10, 5, 11, 4, 12, 3, 13, 2, 14, 1, 15][j]] ==
        if j < n then Num(r.S(), old(r.Pos()) + 3 * j, 3) else 0
    {
      hide Num, BitReader.Valid, BitReader.Pos, ClOrder;
      ghost var s, p := r.S(), r.Pos();
      forall i | 0 <= i < 288 { cl.codeSize[i] := 0; }
      assert cl.codeSize[..19] == Repeat(0, 19);
      for i := 0 to n
        invariant r.Valid() && r.Pos() == p + 3 * i && cl.codeSize[..19] == ClLens(s, p, i)
      {
        var b := r.GetBits(3);
        cl.codeSize[ClOrder(i)] := b;
      }
      forall j | 0 <= j < 19
        ensures ClLens(s, p, n)[[16, 17, 18, 0, 8, 7, 9, 6, 10, 5, 11, 4, 12, 3, 13, 2, 14, 1, 15][j]] ==
                if j < n then Num(s, p + 3 * j, 3) else 0
      {
        ClLensAt(s, p, n, j);
      }
    }

    /** One packed code length or run of them. */
    method ReadRun(lenCodes: array<nat>, counter: nat, total: nat, ghost c: seq<nat>) returns (ok: bool, next: nat)
      requires r.Valid() && cl.Ready(c) && |c| == 19 && counter < total <= 320 && lenCodes.Length == 457
      requires lenCodes != cl.codeSize && ValidLens(lenCodes[..counter])
      requires !DecodeLens(c, r.S(), r.Pos(), total, lenCodes[..counter]).LensUndefined?
      modifies r, lenCodes
      ensures r.Valid() && (!ok ==> DecodeLens(c, r.S(), old(r.Pos()), total, old(lenCodes[..counter])) == LensFailed)
      ensures ok ==> counter < next <= 457 && ValidLens(lenCodes[..next])
      ensures ok ==> DecodeLens(c, r.S(), r.Pos(), total, lenCodes[..next]) ==
                     DecodeLens(c, r.S(), old(r.Pos()), total, old(lenCodes[..counter]))
    {
      hide Num, BitReader.Valid, BitReader.Pos, DecodeTable.Ready, DecodeSym, DecodeLens;
      ghost var acc := lenCodes[..counter];
      LensStep(c, r.S(), r.Pos(), total, acc);
      var sym := DecodeNext(cl, r, c);
      if sym < 16 {
        NoBits(r.S(), r.Pos());
        lenCodes[counter] := sym;
        assert lenCodes[..counter + 1] == acc + [sym];
        return true, counter + 1;
      }
      if sym == 16 && counter == 0 { return false, counter; }
      RunExtra(sym);
      var s := r.GetBits(ClExtraBits(sym));
      s := s + ClBase(sym);
      var v := if sym == 16 then lenCodes[counter - 1] else 0;
      forall i | 0 <= i < s { lenCodes[counter + i] := v; }
      assert lenCodes[..counter + s] == acc + Repeat(v, s);
      return true, counter + s;
    }

    /** All packed code lengths. */
    method ReadLens(lenCodes: array<nat>, total: nat, ghost c: seq<nat>) returns (ok: bool)
      requires r.Valid() && cl.Ready(c) && |c| == 19 && total <= 320 && lenCodes.Length == 457
      requires lenCodes != cl.codeSize
      requires !DecodeLens(c, r.S(), r.Pos(), total, []).LensUndefined?
      modifies r, lenCodes
      ensures r.Valid()
      ensures DecodeLens(c, r.S(), old(r.Pos()), total, []) == if ok then LensOk(r.Pos(), lenCodes[..total]) else LensFailed
      ensures ok ==> ValidLens(lenCodes[..total])
    {
      hide Num, BitReader.Valid, BitReader.Pos, DecodeTable.Ready, DecodeLens;
      ghost var t := DecodeLens(c, r.S(), r.Pos(), total, []);
      var counter: nat := 0;
      assert lenCodes[..0] == [];
      while counter < total
        invariant counter <= 457 && r.Valid() && cl.Ready(c) && ValidLens(lenCodes[..counter])
        invariant DecodeLens(c, r.S(), r.Pos(), total, lenCodes[..counter]) == t
        decreases total - counter
      {
        ok, counter := ReadRun(lenCodes, counter, total, c);
        if !ok { return; }
      }
      LensEnd(c, r.S(), r.Pos(), total, lenCodes[..counter]);
      ok := counter == total;
    }

    /** The three table sizes. */
    method ReadSizes() returns (hlit: nat, hdist: nat, hclen: nat)
      requires r.Valid()
      modifies r
      ensures r.Valid() && r.Pos() == old(r.Pos()) + 14 && hclen <= 19 && hlit <= 288 && hdist <= 32
      ensures hlit == Num(r.S(), old(r.Pos()), 5) + 257 && hdist == Num(r.S(), old(r.Pos()) + 5, 5) + 1
      ensures hclen == Num(r.S(), old(r.Pos()) + 10, 4) + 4
    {
      hide Num, BitReader.Valid, BitReader.Pos;
      Pow2Values();
      hlit := r.GetBits(5);
      hdist := r.GetBits(5);
      hclen := r.GetBits(4);
      hlit, hdist, hclen := hlit + 257, hdist + 1, hclen + 4;
    }

    /** The header of a dynamic block, up to the code lengths. */
    method DynamicLens(ghost made: seq<byte>, ghost cap: nat) returns (ok: bool, hlit: nat, hdist: nat, lenCodes: array<nat>)
      requires r.Valid() && Shape() && |made| <= cap && !DecodeDynamic(r.S(), r.Pos(), made, cap).Undefined?
      modifies r, cl.codeSize, cl`nodes, cl.lookUp, cl.tree
      ensures r.Valid() && (!ok ==> DecodeDynamic(r.S(), old(r.Pos()), made, cap) == Failed)
      ensures ok ==> fresh(lenCodes) && hlit <= 288 && hdist <= 32 && lenCodes.Length == 457 && ValidLens(lenCodes[..hlit + hdist])
      ensures ok ==> DecodeDynamic(r.S(), old(r.Pos()), made, cap) ==
                     TablesOutcome(lenCodes[..hlit + hdist], hlit, r.S(), r.Pos(), made, cap)
    {
      hide Num, BitReader.Valid, BitReader.Pos, TableOk, DecodeLens, DecodeDynamic, Acceptable, ClLens, TablesOutcome;
      DynamicStep(r.S(), r.Pos(), made, cap);
      var hclen;
      hlit, hdist, hclen := ReadSizes();
      ReadClSizes(hclen);
      ghost var c := cl.codeSize[..19];
      lenCodes := new nat[457];
      ok := cl.Build(19);
      if !ok { return; }
      ok := ReadLens(lenCodes, hlit + hdist, c);
    }

    method CopyLens(lenCodes: array<nat>, hlit: nat, hdist: nat)
      requires Shape() && lenCodes.Length == 457 && hlit <= 288 && hdist <= 32
      requires lenCodes != lit.codeSize && lenCodes != dist.codeSize
      modifies lit.codeSize, dist.codeSize
      ensures lit.codeSize[..hlit] == lenCodes[..hlit + hdist][..hlit]
      ensures dist.codeSize[..hdist] == lenCodes[..hlit + hdist][hlit..]
    {
      forall i | 0 <= i < hlit { lit.codeSize[i] := lenCodes[i]; }
      forall i | 0 <= i < hdist { dist.codeSize[i] := lenCodes[hlit + i]; }
    }

    method BuildBoth(hlit: nat, hdist: nat, ghost l: seq<nat>, ghost d: seq<nat>) returns (ok: bool)
      requires Shape() && hlit <= 288 && hdist <= 288 && lit.codeSize[..hlit] == l && dist.codeSize[..hdist] == d
      requires ValidLens(l) && ValidLens(d)
      modifies lit`nodes, lit.lookUp, lit.tree, dist`nodes, dist.lookUp, dist.tree
      ensures ok <==> Acceptable(d) && Acceptable(l)
      ensures ok ==> lit.Ready(l) && dist.Ready(d)
    {
      hide TableOk, Acceptable;
      forall i | 0 <= i < hlit ensures lit.codeSize[i] <= 15 { assert l[i] == lit.codeSize[i]; }
      forall i | 0 <= i < hdist ensures dist.codeSize[i] <= 15 { assert d[i] == dist.codeSize[i]; }
      ok := dist.Build(hdist);
      if ok { ok := lit.Build(hlit); }
    }

    /** The sizes and the three tables of a dynamic block. */
    method DynamicTables() returns (ok: bool, ghost l: seq<nat>, ghost d: seq<nat>)
      requires Valid() && !DecodeDynamic(r.S(), r.Pos(), o.made, o.cap).Undefined?
      modifies r, lit.codeSize, lit`nodes, lit.lookUp, lit.tree, dist.codeSize, dist`nodes, dist.lookUp, dist.tree
      modifies cl.codeSize, cl`nodes, cl.lookUp, cl.tree
      ensures Valid() && (!ok ==> DecodeDynamic(r.S(), old(r.Pos()), o.made, o.cap) == Failed)
      ensures ok ==> lit.Ready(l) && dist.Ready(d) && DecodeDynamic(r.S(), old(r.Pos()), o.made, o.cap) == Tokens(l, d)
    {
      hide BitReader.Valid, BitReader.Pos, DecodeTable.Ready, DecodeDynamic, DecodeTokens, Acceptable;
      l, d := [], [];
      var hlit, hdist, lenCodes;
      ok, hlit, hdist, lenCodes := DynamicLens(o.made, o.cap);
      if !ok { return; }
      ghost var lens := lenCodes[..hlit + hdist];
      l, d := lens[..hlit], lens[hlit..];
      CopyLens(lenCodes, hlit, hdist);
      ok := BuildBoth(hlit, hdist, l, d);
    }

    // -------------------------------------------------------------- blocks

    method StoredBlock() returns (status: Progress)
      requires Valid()
      modifies r, o, o.buf
      ensures Valid() && Reached(DecodeStored(r.S(), old(r.Pos()), old(o.made), o.cap), status)
    {
      hide BitReader.Valid, BitReader.Pos, StoredBytes, Num, Align;
      var ok, counter := StoredHeader();
      if !ok { return Fail; }
      status := StoredData(counter);
    }

    method DynamicBlock() returns (status: Progress)
      requires Valid() && !DecodeDynamic(r.S(), r.Pos(), o.made, o.cap).Undefined?
      modifies r, o, o.buf
      modifies lit.codeSize, lit`nodes, lit.lookUp, lit.tree, dist.codeSize, dist`nodes, dist.lookUp, dist.tree
      modifies cl.codeSize, cl`nodes, cl.lookUp, cl.tree
      ensures Valid() && Reached(DecodeDynamic(r.S(), old(r.Pos()), old(o.made), o.cap), status)
    {
      hide BitReader.Valid, BitReader.Pos, DecodeTable.Ready, DecodeDynamic, DecodeTokens;
      ghost var l, d;
      var ok;
      ok, l, d := DynamicTables();
      if !ok { return Fail; }
      status := TokenLoop(l, d);
    }

    /** One block, from its three header bits on. */
    method Block() returns (final: bool, status: Progress)
      requires Valid() && !DecodeBlock(r.S(), r.Pos(), o.made, o.cap).Undefined?
      modifies r, o, o.buf
      modifies lit.codeSize, lit`nodes, lit.lookUp, lit.tree, dist.codeSize, dist`nodes, dist.lookUp, dist.tree
      modifies cl.codeSize, cl`nodes, cl.lookUp, cl.tree
      ensures Valid() && final == BitAt(r.S(), old(r.Pos()))
      ensures Reached(DecodeBlock(r.S(), old(r.Pos()), old(o.made), o.cap), status)
    {
      hide BitReader.Valid, BitReader.Pos, DecodeTable.Ready, DecodeDynamic, DecodeTokens, DecodeBlock, Acceptable, Num;
      BlockStep(r.S(), r.Pos(), o.made, o.cap);
      var b := r.GetBits(3);
      final := b % 2 == 1;
      var kind := b / 2;
      if kind == 0 {
        status := StoredBlock();
      } else if kind == 3 {
        status := Fail;
      } else if kind == 1 {
        StaticTables();
          status := TokenLoop(StaticLit(), StaticDist());
      } else {
        status := DynamicBlock();
      }
    }

    /** Block after block, up to the final one. */
    method Blocks() returns (status: Progress)
      requires Valid() && !InflateFrom(r.S(), r.Pos(), o.made, o.cap).Undefined?
      modifies r, o, o.buf
      modifies lit.codeSize, lit`nodes, lit.lookUp, lit.tree, dist.codeSize, dist`nodes, dist.lookUp, dist.tree
      modifies cl.codeSize, cl`nodes, cl.lookUp, cl.tree
      ensures Valid() && Reached(InflateFrom(r.S(), old(r.Pos()), old(o.made), o.cap), status)
    {
      hide BitReader.Valid, BitReader.Pos, DecodeBlock, InflateFrom;
      ghost var t := InflateFrom(r.S(), r.Pos(), o.made, o.cap);
      while true
        invariant Valid() && InflateFrom(r.S(), r.Pos(), o.made, o.cap) == t
        decreases Max(0, |r.S()| + 1 - r.Pos())
      {
        InflateStep(r.S(), r.Pos(), o.made, o.cap);
        var final;
        final, status := Block();
        if status != Running || final { return; }
      }
    }

    // -------------------------------------------------------------- zlib streams

    /** The two bytes of a zlib header. */
    method ReadHeader() returns (ok: bool)
      requires r.Valid() && r.Pos() == 0 && r.numBits == 0 && r.pads == 0 && (o.wrapping ==> o.size == DICT_SIZE)
      modifies r
      ensures r.Valid() && r.Pos() == 16
      ensures ok <==> HeaderOk(Num(r.S(), 0, 8), Num(r.S(), 8, 8)) && (o.wrapping ==> WindowFits(Num(r.S(), 0, 8)))
    {
      hide BitReader.Valid, BitReader.Pos, Num, Pow2;
      var h0 := r.GetAligned();
      var h1 := r.GetAligned();
      ok := !((h0 * 256 + h1) % 31 != 0 || h1 / 32 % 2 != 0 || h0 % 16 != 8);
      if o.wrapping {
        ok := ok && !(Pow2(8 + h0 / 16) > 32768 || o.size < Pow2(8 + h0 / 16));
      }
    }

    /** The checksum after the last block, collected in a 32-bit number that starts as one. */
    method ReadChecksum() returns (z: nat)
      requires r.Valid()
      modifies r
      ensures r.Valid() && z == BigNum(r.S(), Align(old(r.Pos()))) && r.Pos() == Align(old(r.Pos())) + 32 && r.numBits == 0
    {
      hide BitReader.Valid, BitReader.Pos, Num, Align, BigNum;
      r.SkipToByte();
      r.FewHeld();
      ghost var a := r.Pos();
      var b0 := r.GetAligned();
      var b1 := r.GetAligned();
      var b2 := r.GetAligned();
      var b3 := r.GetAligned();
      z := Shift8(1, b0);
      z := Shift8(z, b1);
      z := Shift8(z, b2);
      z := Shift8(z, b3);
      Shifted(r.S(), a, b0, b1, b2, b3);
    }

    /** `tinfl_decompress`, from its first call to the last: the reference's status, all the
        output there is then, and how far the input has been read. */
    method Run(zlib: bool) returns (status: TinflStatus)
      requires Valid() && r.Pos() == 0 && r.numBits == 0 && r.pads == 0 && o.made == o.preset
      requires !DecompressAfter(r.input, zlib, o.wrapping, o.preset, o.cap).Undefined?
      modifies r, o, o.buf
      modifies lit.codeSize, lit`nodes, lit.lookUp, lit.tree, dist.codeSize, dist`nodes, dist.lookUp, dist.tree
      modifies cl.codeSize, cl`nodes, cl.lookUp, cl.tree
      ensures var t := DecompressAfter(r.input, zlib, o.wrapping, o.preset, o.cap);
              Agrees(t, status, o.preset + o.given) && (status == Done ==> Used(t.pos, zlib, r.cur, |r.input|))
      ensures status == Done ==> (r.pads > 0 <==> DecompressAfter(r.input, zlib, o.wrapping, o.preset, o.cap).pos > 8 * |r.input|)
      ensures status == Done ==> o.Sizes() && o.made == o.preset + o.given
    {
      hide BitReader.Valid, BitReader.Pos, InflateFrom, Num, Align, BigNum, HeaderOk, Adler32, BytesToBits;
      if zlib {
        var ok := ReadHeader();
        if !ok { return StreamFailed; }
      }
      var progress := Blocks();
      if progress == Fail { return StreamFailed; }
      var z := 0;
      if zlib && progress == Running { z := ReadChecksum(); }
      o.Return();
      if progress == OutputFull { return HasMoreOutput; }
      r.Consumed();
      if zlib && o.check != z { return AdlerMismatch; }
      status := Done;
    }
  }

  /** `tinfl_decompress_mem_to_mem`: one call, into a buffer of `cap` bytes. */
  method MemToMem(input: seq<byte>, zlib: bool, cap: nat) returns (status: TinflStatus, output: seq<byte>)
    requires !Decompress(input, zlib, cap).Undefined?
    ensures Agrees(Decompress(input, zlib, cap), status, output)
  {
    hide DecompressAfter;
    OnePiece(input);
    var o := new OutputBuffer.Growing(cap, 0);
    var f := new Inflater([input], o);
    status := f.Run(zlib);
    output := o.given;
    assert [] + output == output;
  }

  /** `tinfl_decompress_mem_to_heap`, when the memory lasts for enlarging the buffer `turns` times. */
  method MemToHeap(input: seq<byte>, zlib: bool, turns: nat) returns (output: Option<seq<byte>>)
    requires !Decompress(input, zlib, GrownTimes(0, turns)).Undefined?
    ensures var t := Decompress(input, zlib, GrownTimes(0, turns)); output == if t.Ok? then Some(t.out) else None
  {
    hide DecompressAfter, GrownTimes;
    OnePiece(input);
    var o := new OutputBuffer.Growing(0, turns);
    var f := new Inflater([input], o);
    var status := f.Run(zlib);
    assert [] + o.given == o.given;
    output := if status == Done then Some(o.given) else None;
  }

  /** `tinfl_decompress_mem_to_callback`, through a ring with whatever it held before, when the
      callback accepts `accepts` pieces and no more: the result, what the callback was handed,
      and how much of the input was taken. */
  method MemToCallback(input: seq<byte>, zlib: bool, ring: array<byte>, accepts: nat)
    returns (ok: bool, handed: seq<byte>, used: nat)
    requires ring.Length == DICT_SIZE
    requires !DecompressAfter(input, zlib, true, ring[..], DICT_SIZE * (accepts + 2)).Undefined?
    modifies ring
    ensures var t := DecompressAfter(input, zlib, true, old(ring[..]), DICT_SIZE * (accepts + 2));
            (ok <==> t.Ok? && |t.out| <= DICT_SIZE * (accepts + 1)) &&
            (ok ==> t.out == old(ring[..]) + handed && Used(t.pos, zlib, used, |input|))
  {
    hide DecompressAfter, Used;
    OnePiece(input);
    var o := new OutputBuffer.Ring(ring, accepts);
    var f := new Inflater([input], o);
    var status := f.Run(zlib);
    handed, used := o.given, f.r.cur;
    ok := status == Done && (o.cur == o.next || o.turns > 0);
  }
}
