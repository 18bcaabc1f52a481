/** Decoding inverts encoding, stage by stage and for whole streams: the reference
    decoder of module Inflate applied to the bits of module Blocks. */
module RoundTrip {
  import opened Bits
  import opened Canonical
  import opened Deflate
  import opened Blocks
  import opened Inflate

  /** The bits `e` stand at position `p` of the stream. */
  predicate At(s: seq<bool>, p: nat, e: seq<bool>) {
    p + |e| <= |s| && s[p..p + |e|] == e
  }

  lemma AtSplit(s: seq<bool>, p: nat, a: seq<bool>, b: seq<bool>)
    requires At(s, p, a + b)
    ensures At(s, p, a) && At(s, p + |a|, b)
  {
    var w := s[p..p + |a + b|];
    assert s[p..p + |a|] == w[..|a|];
    assert s[p + |a|..p + |a| + |b|] == w[|a|..];
  }

  lemma PeekSlice(s: seq<bool>, p: nat, n: nat)
    requires p + n <= |s|
    ensures Peek(s, p, n) == s[p..p + n]
  {
    forall i | 0 <= i < n ensures Peek(s, p, n)[i] == s[p..p + n][i] {
      assert BitAt(s, p + i) == s[p + i];
    }
  }

  lemma AtNum(s: seq<bool>, p: nat, v: nat, n: nat)
    requires At(s, p, ToBits(v, n)) && v < Pow2(n)
    ensures Num(s, p, n) == v
  {
    PeekSlice(s, p, n);
    FromToBits(v, n);
  }

  lemma {:induction false} FewUsed(lens: seq<nat>)
    requires ValidLens(lens)
    ensures UsedSyms(lens) == 0 ==> Kraft(lens) == 0
    ensures UsedSyms(lens) <= 1 ==> Kraft(lens) <= 16384
  {
    if lens != [] {
      FewUsed(lens[..|lens| - 1]);
      var l := lens[|lens| - 1];
      if l > 0 {
        Pow2Values();
        Pow2Mono(15 - l, 14);
      }
    }
  }

  lemma AcceptableKraft(lens: seq<nat>)
    requires Acceptable(lens)
    ensures Kraft(lens) <= 32768
  {
    FewUsed(lens);
  }

  lemma AtSym(lens: seq<nat>, s: seq<bool>, p: nat, sym: nat)
    requires Acceptable(lens) && HasCode(lens, sym) && At(s, p, CodeBits(lens, sym))
    ensures DecodeSym(lens, s, p) == Some(sym)
  {
    AcceptableKraft(lens);
    var l := lens[sym];
    PeekSlice(s, p, l);
    assert Peek(s, p, 15)[..l] == Peek(s, p, l);
    FindSymOf(lens, sym, Peek(s, p, 15));
  }

  // ---------------------------------------------------------------- tokens

  /** The length and the distance of a match are read back, whether or not it can be copied. */
  lemma DistanceRoundTrip(
    lit: seq<nat>, dist: seq<nat>, s: seq<bool>, p: nat, len: nat, d: nat, out: seq<byte>, cap: nat)
    requires Acceptable(dist) && 3 <= len <= 258 && 1 <= d <= 32768 && HasCode(dist, DistSym(d - 1))
    requires At(s, p + LenExtra(len - 3), CodeBits(dist, DistSym(d - 1)))
    requires At(s, p + LenExtra(len - 3) + dist[DistSym(d - 1)], ToBits(Low(d - 1, DistExtra(d - 1)), DistExtra(d - 1)))
    requires At(s, p, ToBits(Low(len - 3, LenExtra(len - 3)), LenExtra(len - 3)))
    requires |out| <= cap
    ensures DecodeMatch(lit, dist, s, p, LenSym(len - 3) - 257, out, cap)
         == DecodeCopy(lit, dist, s, p + LenExtra(len - 3) + dist[DistSym(d - 1)] + DistExtra(d - 1), len, d, out, cap)
  {
    hide ToBits, CodeBits, Acceptable, Low, LenSym, LenExtra, DistSym, DistExtra, Num,
         LengthBase, LengthExtra, DistanceBase, DistanceExtra, At, DecodeCopy, DecodeSym, DecodeTokens;
    var l, k := len - 3, d - 1;
    var p2 := p + LenExtra(l);
    AtNum(s, p, Low(l, LenExtra(l)), LenExtra(l));
    AtSym(dist, s, p2, DistSym(k));
    AtNum(s, p2 + dist[DistSym(k)], Low(k, DistExtra(k)), DistExtra(k));
    LengthInverse(l);
    DistanceInverse(k);
  }

  lemma MatchBitsAt(lit: seq<nat>, dist: seq<nat>, s: seq<bool>, p: nat, t: Token)
    requires t.Match? && Codable(lit, dist, t) && At(s, p, TokenBits(lit, dist, t))
    ensures var l, k := t.len - 3, t.dist - 1;
            var p1 := p + lit[LenSym(l)];
            var p2 := p1 + LenExtra(l);
            var p3 := p2 + dist[DistSym(k)];
            At(s, p, CodeBits(lit, LenSym(l))) && At(s, p1, ToBits(Low(l, LenExtra(l)), LenExtra(l))) &&
            At(s, p2, CodeBits(dist, DistSym(k))) && At(s, p3, ToBits(Low(k, DistExtra(k)), DistExtra(k))) &&
            |TokenBits(lit, dist, t)| == p3 + DistExtra(k) - p
  {
    hide ToBits, CodeBits, Low, LenSym, LenExtra, DistSym, DistExtra, At;
    var l, k := t.len - 3, t.dist - 1;
    var a, b := CodeBits(lit, LenSym(l)), ToBits(Low(l, LenExtra(l)), LenExtra(l));
    var c, d := CodeBits(dist, DistSym(k)), ToBits(Low(k, DistExtra(k)), DistExtra(k));
    AtSplit(s, p, a + b + c, d);
    AtSplit(s, p, a + b, c);
    AtSplit(s, p, a, b);
  }

  lemma MatchRoundTrip(lit: seq<nat>, dist: seq<nat>, s: seq<bool>, p: nat, t: Token, out: seq<byte>, cap: nat)
    requires Acceptable(lit) && Acceptable(dist) && t.Match? && Codable(lit, dist, t)
    requires At(s, p, TokenBits(lit, dist, t)) && CanStep(out, t) && |Step(out, t)| <= cap
    ensures DecodeTokens(lit, dist, s, p, out, cap)
         == DecodeTokens(lit, dist, s, p + |TokenBits(lit, dist, t)|, Step(out, t), cap)
  {
    hide ToBits, CodeBits, Acceptable, Low, LenSym, LenExtra, DistSym, DistExtra, At, Copy, DecodeSym, DecodeMatch, TokenBits;
    MatchBitsAt(lit, dist, s, p, t);
    AtSym(lit, s, p, LenSym(t.len - 3));
    DistanceRoundTrip(lit, dist, s, p + lit[LenSym(t.len - 3)], t.len, t.dist, out, cap);
  }

  lemma TokenRoundTrip(lit: seq<nat>, dist: seq<nat>, s: seq<bool>, p: nat, t: Token, out: seq<byte>, cap: nat)
    requires Acceptable(lit) && Acceptable(dist) && Codable(lit, dist, t)
    requires At(s, p, TokenBits(lit, dist, t)) && CanStep(out, t) && |Step(out, t)| <= cap
    ensures |out| <= cap
    ensures DecodeTokens(lit, dist, s, p, out, cap)
         == DecodeTokens(lit, dist, s, p + |TokenBits(lit, dist, t)|, Step(out, t), cap)
  {
    hide At, Acceptable, CodeBits, DecodeSym, DecodeMatch, Copy;
    if t.Match? {
      MatchRoundTrip(lit, dist, s, p, t, out, cap);
    } else {
      AtSym(lit, s, p, t.b);
    }
  }

  lemma {:induction false} TokensRoundTrip(
    lit: seq<nat>, dist: seq<nat>, s: seq<bool>, p: nat, ts: seq<Token>, out: seq<byte>, cap: nat)
    requires Acceptable(lit) && Acceptable(dist) && AllCodable(lit, dist, ts)
    requires At(s, p, TokensBits(lit, dist, ts))
    requires Expand(out, ts).Some? && |Expand(out, ts).value| <= cap
    ensures |out| <= cap
    ensures DecodeTokens(lit, dist, s, p, out, cap)
         == DecodeTokens(lit, dist, s, p + |TokensBits(lit, dist, ts)|, Expand(out, ts).value, cap)
  {
    hide DecodeTokens, TokenBits, Acceptable, Codable, At;
    if ts != [] {
      var ts', t := ts[..|ts| - 1], ts[|ts| - 1];
      var a, b := TokensBits(lit, dist, ts'), TokenBits(lit, dist, t);
      AtSplit(s, p, a, b);
      var o := Expand(out, ts').value;
      TokensRoundTrip(lit, dist, s, p, ts', out, cap);
      TokenRoundTrip(lit, dist, s, p + |a|, t, o, cap);
    }
  }

  lemma BodyRoundTrip(lit: seq<nat>, dist: seq<nat>, s: seq<bool>, p: nat, ts: seq<Token>, out: seq<byte>, cap: nat)
    requires Acceptable(lit) && Acceptable(dist) && AllCodable(lit, dist, ts) && HasCode(lit, 256)
    requires At(s, p, BodyBits(lit, dist, ts))
    requires Expand(out, ts).Some? && |Expand(out, ts).value| <= cap
    ensures |out| <= cap
    ensures DecodeTokens(lit, dist, s, p, out, cap)
         == Ok(p + |BodyBits(lit, dist, ts)|, Expand(out, ts).value)
  {
    hide At, Acceptable, CodeBits, DecodeSym, TokensBits, Expand;
    var a := TokensBits(lit, dist, ts);
    AtSplit(s, p, a, CodeBits(lit, 256));
    TokensRoundTrip(lit, dist, s, p, ts, out, cap);
    AtSym(lit, s, p + |a|, 256);
  }

  // ---------------------------------------------------------------- dynamic headers

  lemma ClOrderInjective(i: nat, j: nat)
    requires i < 19 && j < 19 && ClOrder(i) == ClOrder(j)
    ensures i == j
  {
  }

  lemma ClOrderOnto(i: nat) returns (j: nat)
    requires i < 19
    ensures j < 19 && ClOrder(j) == i
  {
    j := if i >= 16 then i - 16 else if i == 0 then 3 else if i >= 8 then 4 + 2 * (i - 8) else 5 + 2 * (7 - i);
  }

  lemma {:induction false} ClLensPrefix(s: seq<bool>, p: nat, cl: seq<nat>, n: nat)
    requires |cl| == 19 && n <= 19 && (forall i :: 0 <= i < 19 ==> cl[i] < 8)
    requires At(s, p, ClBits(cl, n))
    ensures forall j :: 0 <= j < n ==> ClLens(s, p, n)[ClOrder(j)] == cl[ClOrder(j)]
    ensures forall j :: n <= j < 19 ==> ClLens(s, p, n)[ClOrder(j)] == 0
  {
    if n > 0 {
      var k := ClOrder(n - 1);
      AtSplit(s, p, ClBits(cl, n - 1), ToBits(cl[k], 3));
      Pow2Values();
      AtNum(s, p + 3 * (n - 1), cl[k], 3);
      ClLensPrefix(s, p, cl, n - 1);
      forall j | 0 <= j < 19 && j != n - 1
        ensures ClLens(s, p, n)[ClOrder(j)] == ClLens(s, p, n - 1)[ClOrder(j)]
      {
        if ClOrder(j) == k { ClOrderInjective(j, n - 1); }
      }
    }
  }

  lemma ClLensRoundTrip(s: seq<bool>, p: nat, cl: seq<nat>, n: nat)
    requires |cl| == 19 && n <= 19 && (forall i :: 0 <= i < 19 ==> cl[i] < 8)
    requires forall j :: n <= j < 19 ==> cl[ClOrder(j)] == 0
    requires At(s, p, ClBits(cl, n))
    ensures ClLens(s, p, n) == cl
  {
    ClLensPrefix(s, p, cl, n);
    forall i | 0 <= i < 19 ensures ClLens(s, p, n)[i] == cl[i] {
      var j := ClOrderOnto(i);
    }
  }

  lemma ItemRoundTrip(cl: seq<nat>, s: seq<bool>, p: nat, it: ClItem, total: nat, acc: seq<nat>)
    requires |cl| == 19 && Acceptable(cl) && ValidItem(it) && HasCode(cl, it.sym)
    requires At(s, p, ItemBits(cl, it)) && UnpackItem(acc, it).Some? && |acc| < total
    ensures DecodeLens(cl, s, p, total, acc)
         == DecodeLens(cl, s, p + |ItemBits(cl, it)|, total, UnpackItem(acc, it).value)
  {
    hide At, Acceptable, CodeBits, DecodeSym, ToBits, Num, UnpackItem, ClExtraBits;
    var a, b := CodeBits(cl, it.sym), ToBits(it.extra, ClExtraBits(it.sym));
    AtSplit(s, p, a, b);
    AtSym(cl, s, p, it.sym);
    AtNum(s, p + |a|, it.extra, ClExtraBits(it.sym));
  }

  lemma UnpackGrows(acc: seq<nat>, it: ClItem)
    requires UnpackItem(acc, it).Some?
    ensures |acc| < |UnpackItem(acc, it).value|
  {
  }

  lemma {:induction false} ItemsRoundTrip(cl: seq<nat>, s: seq<bool>, p: nat, items: seq<ClItem>, total: nat)
    requires |cl| == 19 && Acceptable(cl) && AllItems(cl, items)
    requires At(s, p, ItemsBits(cl, items)) && Unpack(items).Some? && |Unpack(items).value| <= total
    ensures DecodeLens(cl, s, p, total, [])
         == DecodeLens(cl, s, p + |ItemsBits(cl, items)|, total, Unpack(items).value)
  {
    hide At, Acceptable, ItemBits, DecodeLens, UnpackItem;
    if items != [] {
      var items', it := items[..|items| - 1], items[|items| - 1];
      AtSplit(s, p, ItemsBits(cl, items'), ItemBits(cl, it));
      UnpackGrows(Unpack(items').value, it);
      ItemsRoundTrip(cl, s, p, items', total);
      ItemRoundTrip(cl, s, p + |ItemsBits(cl, items')|, it, total, Unpack(items').value);
    }
  }

  lemma HeaderBitsAt(s: seq<bool>, p: nat, h: Header)
    requires ValidHeader(h) && At(s, p, HeaderBits(h))
    ensures Num(s, p, 5) == h.hlit - 257 && Num(s, p + 5, 5) == h.hdist - 1 && Num(s, p + 10, 4) == h.hclen - 4
    ensures At(s, p + 14, ClBits(h.cl, h.hclen)) && At(s, p + 14 + 3 * h.hclen, ItemsBits(h.cl, h.items))
  {
    hide At, Acceptable, ToBits, Num, AllItems, Unpack, ClBits, ItemsBits, HeaderLit, HeaderDist;
    var a, b, c := ToBits(h.hlit - 257, 5), ToBits(h.hdist - 1, 5), ToBits(h.hclen - 4, 4);
    var d, e := ClBits(h.cl, h.hclen), ItemsBits(h.cl, h.items);
    AtSplit(s, p, a + b + c + d, e);
    AtSplit(s, p, a + b + c, d);
    AtSplit(s, p, a + b, c);
    AtSplit(s, p, a, b);
    Pow2Values();
    AtNum(s, p, h.hlit - 257, 5);
    AtNum(s, p + 5, h.hdist - 1, 5);
    AtNum(s, p + 10, h.hclen - 4, 4);
  }

  lemma DynamicRoundTrip(s: seq<bool>, p: nat, h: Header, out: seq<byte>, cap: nat)
    requires ValidHeader(h) && At(s, p, HeaderBits(h)) && |out| <= cap
    ensures DecodeDynamic(s, p, out, cap)
         == DecodeTokens(HeaderLit(h), HeaderDist(h), s, p + |HeaderBits(h)|, out, cap)
  {
    hide At, Acceptable, ToBits, Num, AllItems, Unpack, ClBits, ItemsBits, DecodeTokens, ClLens;
    HeaderBitsAt(s, p, h);
    ClLensRoundTrip(s, p + 14, h.cl, h.hclen);
    ItemsRoundTrip(h.cl, s, p + 14 + 3 * h.hclen, h.items, h.hlit + h.hdist);
  }

  // ---------------------------------------------------------------- stored blocks

  lemma {:induction false} StoredBytesRoundTrip(s: seq<bool>, p: nat, data: seq<byte>, out: seq<byte>, cap: nat)
    requires At(s, p, BytesToBits(data)) && |out| + |data| <= cap
    ensures StoredBytes(s, p, |data|, out, cap) == Ok(p + 8 * |data|, out + data)
    decreases |data|
  {
    if data == [] {
      assert out + data == out;
    } else {
      AtSplit(s, p, ToBits(data[0], 8), BytesToBits(data[1..]));
      Pow2Values();
      AtNum(s, p, data[0], 8);
      StoredBytesRoundTrip(s, p + 8, data[1..], out + [data[0]], cap);
      assert out + [data[0]] + data[1..] == out + data;
    }
  }

  lemma StoredRoundTrip(s: seq<bool>, p: nat, data: seq<byte>, out: seq<byte>, cap: nat)
    requires |data| < 65536 && At(s, p, StoredBits(p, data)) && |out| + |data| <= cap
    ensures DecodeStored(s, p, out, cap) == Ok(p + |StoredBits(p, data)|, out + data)
  {
    hide At, ToBits, Num, BytesToBits, StoredBytes;
    var a, b, c := Padding(p), ToBits(|data|, 16), ToBits(65535 - |data|, 16);
    AtSplit(s, p, a + b + c, BytesToBits(data));
    AtSplit(s, p, a + b, c);
    AtSplit(s, p, a, b);
    Pow2Values();
    AtNum(s, Align(p), |data|, 16);
    AtNum(s, Align(p) + 16, 65535 - |data|, 16);
    StoredBytesRoundTrip(s, Align(p) + 32, data, out, cap);
  }

  // ---------------------------------------------------------------- static blocks

  lemma {:induction false} KraftConcat(a: seq<nat>, b: seq<nat>)
    requires ValidLens(a) && ValidLens(b)
    ensures ValidLens(a + b) && Kraft(a + b) == Kraft(a) + Kraft(b)
  {
    if b == [] {
      assert a + b == a;
    } else {
      assert (a + b)[..|a + b| - 1] == a + b[..|b| - 1];
      KraftConcat(a, b[..|b| - 1]);
    }
  }

  lemma {:induction false} KraftRepeat(l: nat, n: nat)
    requires l <= 15
    ensures ValidLens(Repeat(l, n)) && Kraft(Repeat(l, n)) == n * Weight(l)
  {
    if n > 0 {
      assert Repeat(l, n)[..n - 1] == Repeat(l, n - 1);
      KraftRepeat(l, n - 1);
      MulDistrib(n - 1, 1, Weight(l));
    }
  }

  /** The codes of section 3.2.6 of RFC 1951 fill the code space. */
  lemma StaticAcceptable()
    ensures Acceptable(StaticLit()) && Acceptable(StaticDist())
    ensures Kraft(StaticLit()) == 32768 && Kraft(StaticDist()) == 32768
  {
    hide Kraft, Pow2, Repeat;
    Pow2Values();
    KraftRepeat(8, 144);
    KraftRepeat(9, 112);
    KraftRepeat(7, 24);
    KraftRepeat(8, 8);
    KraftRepeat(5, 32);
    KraftConcat(Repeat(8, 144), Repeat(9, 112));
    KraftConcat(Repeat(8, 144) + Repeat(9, 112), Repeat(7, 24));
    KraftConcat(Repeat(8, 144) + Repeat(9, 112) + Repeat(7, 24), Repeat(8, 8));
  }

  // ---------------------------------------------------------------- streams

  lemma PayloadRoundTrip(s: seq<bool>, p: nat, b: Block, out: seq<byte>, cap: nat)
    requires ValidBlock(b) && At(s, p + 3, Payload(p + 3, b)) && |out| <= cap && Num(s, p + 1, 2) == KindOf(b)
    requires BlockOutput(out, b).Some? && |BlockOutput(out, b).value| <= cap
    ensures DecodeBlock(s, p, out, cap) == Ok(p + 3 + |Payload(p + 3, b)|, BlockOutput(out, b).value)
  {
    hide At, Num, StoredBits, BodyBits, HeaderBits, DecodeStored, DecodeTokens, DecodeDynamic,
         StaticLit, StaticDist, HeaderLit, HeaderDist, Expand, AllCodable, Acceptable, HasCode;
    match b
    case Stored(data) =>
      StoredRoundTrip(s, p + 3, data, out, cap);
    case Static(ts) =>
      StaticHas256();
      StaticAcceptable();
      BodyRoundTrip(StaticLit(), StaticDist(), s, p + 3, ts, out, cap);
    case Dynamic(h, ts) =>
      AtSplit(s, p + 3, HeaderBits(h), BodyBits(HeaderLit(h), HeaderDist(h), ts));
      DynamicRoundTrip(s, p + 3, h, out, cap);
      BodyRoundTrip(HeaderLit(h), HeaderDist(h), s, p + 3 + |HeaderBits(h)|, ts, out, cap);
  }

  lemma BlockRoundTrip(s: seq<bool>, p: nat, b: Block, final: bool, out: seq<byte>, cap: nat)
    requires ValidBlock(b) && At(s, p, BlockBits(p, b, final)) && |out| <= cap
    requires BlockOutput(out, b).Some? && |BlockOutput(out, b).value| <= cap
    ensures p < |s| && BitAt(s, p) == final
    ensures DecodeBlock(s, p, out, cap) == Ok(p + |BlockBits(p, b, final)|, BlockOutput(out, b).value)
  {
    hide ToBits, Num, Payload, ValidBlock, DecodeBlock, BlockOutput;
    var k := ToBits(KindOf(b), 2);
    AtSplit(s, p, [final] + k, Payload(p + 3, b));
    AtSplit(s, p, [final], k);
    assert s[p] == s[p..p + 1][0];
    Pow2Values();
    AtNum(s, p + 1, KindOf(b), 2);
    PayloadRoundTrip(s, p, b, out, cap);
  }

  lemma {:induction false} ExpandGrows(out: seq<byte>, ts: seq<Token>)
    requires Expand(out, ts).Some?
    ensures |out| <= |Expand(out, ts).value|
  {
    if ts != [] { ExpandGrows(out, ts[..|ts| - 1]); }
  }

  lemma BlockOutputGrows(out: seq<byte>, b: Block)
    requires BlockOutput(out, b).Some?
    ensures |out| <= |BlockOutput(out, b).value|
  {
    match b
    case Stored(_) =>
    case Static(ts) => ExpandGrows(out, ts);
    case Dynamic(_, ts) => ExpandGrows(out, ts);
  }

  lemma {:induction false} RunRoundTrip(s: seq<bool>, p: nat, bs: seq<Block>, out: seq<byte>, cap: nat)
    requires AllValid(bs) && At(s, p, RunBits(p, bs))
    requires RunOutput(out, bs).Some? && |RunOutput(out, bs).value| <= cap
    ensures |out| <= cap
    ensures InflateFrom(s, p, out, cap) == InflateFrom(s, p + |RunBits(p, bs)|, RunOutput(out, bs).value, cap)
  {
    hide At, BlockBits, ValidBlock, DecodeBlock, BlockOutput;
    if bs != [] {
      var bs', b := bs[..|bs| - 1], bs[|bs| - 1];
      var r, o := RunBits(p, bs'), RunOutput(out, bs').value;
      AtSplit(s, p, r, BlockBits(p + |r|, b, false));
      BlockOutputGrows(o, b);
      RunRoundTrip(s, p, bs', out, cap);
      BlockRoundTrip(s, p + |r|, b, false, o, cap);
    }
  }

  /** A stream of blocks of any kinds, the last one final, decodes to what the
      blocks stand for and ends right after the last block. */
  lemma StreamRoundTrip(s: seq<bool>, p: nat, bs: seq<Block>, last: Block, out: seq<byte>, cap: nat)
    requires AllValid(bs) && ValidBlock(last)
    requires At(s, p, RunBits(p, bs) + BlockBits(p + |RunBits(p, bs)|, last, true))
    requires RunOutput(out, bs).Some? && BlockOutput(RunOutput(out, bs).value, last).Some?
    requires |BlockOutput(RunOutput(out, bs).value, last).value| <= cap
    ensures |out| <= cap
    ensures InflateFrom(s, p, out, cap) ==
            Ok(p + |RunBits(p, bs)| + |BlockBits(p + |RunBits(p, bs)|, last, true)|,
               BlockOutput(RunOutput(out, bs).value, last).value)
  {
    hide At, BlockBits, ValidBlock, DecodeBlock, BlockOutput, RunBits, RunOutput;
    var r, o := RunBits(p, bs), RunOutput(out, bs).value;
    AtSplit(s, p, r, BlockBits(p + |r|, last, true));
    BlockOutputGrows(o, last);
    RunRoundTrip(s, p, bs, out, cap);
    BlockRoundTrip(s, p + |r|, last, true, o, cap);
  }
}
