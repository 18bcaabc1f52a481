/** Streams that break a rule of RFC 1951: exactly which of them are refused, rule by rule. */
module Refusals {
  import opened Bits
  import opened Canonical
  import opened Deflate
  import opened Blocks
  import opened Inflate
  import opened RoundTrip

  // ---------------------------------------------------------------- block types and raw blocks

  /** After its three header bits a block goes on as its type says; type 3 is refused. */
  lemma TypeVerdict(s: seq<bool>, p: nat, final: bool, kind: nat, out: seq<byte>, cap: nat)
    requires |out| <= cap && kind < 4 && At(s, p, [final] + ToBits(kind, 2))
    ensures BitAt(s, p) == final
    ensures DecodeBlock(s, p, out, cap) ==
            if kind == 0 then DecodeStored(s, p + 3, out, cap)
            else if kind == 1 then DecodeTokens(StaticLit(), StaticDist(), s, p + 3, out, cap)
            else if kind == 2 then DecodeDynamic(s, p + 3, out, cap)
            else Failed
  {
    hide ToBits, Num, DecodeStored, DecodeTokens, DecodeDynamic;
    AtSplit(s, p, [final], ToBits(kind, 2));
    assert s[p] == s[p..p + 1][0];
    Pow2Values();
    AtNum(s, p + 1, kind, 2);
  }

  lemma PaddingAligns(p: nat)
    ensures p + |Padding(p)| == Align(p)
  {
  }

  lemma {:induction false} StoredEnds(s: seq<bool>, p: nat, n: nat, data: seq<byte>, out: seq<byte>, cap: nat)
    requires |out| + n <= cap && |data| <= n && At(s, p, BytesToBits(data))
    requires |data| < n ==> |s| == p + 8 * |data|
    ensures StoredBytes(s, p, n, out, cap) == if |data| < n then Failed else Ok(p + 8 * n, out + data)
    decreases n
  {
    hide Num, ToBits;
    if data == [] {
      assert out + data == out;
    } else {
      AtSplit(s, p, ToBits(data[0], 8), BytesToBits(data[1..]));
      Pow2Values();
      AtNum(s, p, data[0], 8);
      StoredEnds(s, p + 8, n - 1, data[1..], out + [data[0]], cap);
      assert out + [data[0]] + data[1..] == out + data;
    }
  }

  /** A raw block is refused exactly if its second length is not the complement of the first, or
      the input ends before its data does. */
  lemma StoredVerdict(s: seq<bool>, p: nat, n: nat, m: nat, data: seq<byte>, out: seq<byte>, cap: nat)
    requires n < 65536 && m < 65536 && |out| + n <= cap && |data| <= n
    requires At(s, p, Padding(p) + ToBits(n, 16) + ToBits(m, 16) + BytesToBits(data))
    requires |data| < n ==> |s| == p + |Padding(p)| + 32 + 8 * |data|
    ensures DecodeStored(s, p, out, cap) ==
            if n + m != 65535 || |data| < n then Failed else Ok(p + |Padding(p)| + 32 + 8 * n, out + data)
  {
    hide At, ToBits, Num, BytesToBits, StoredBytes, Padding, Align;
    PaddingAligns(p);
    var a, b, c := Padding(p), ToBits(n, 16), ToBits(m, 16);
    AtSplit(s, p, a + b + c, BytesToBits(data));
    AtSplit(s, p, a + b, c);
    AtSplit(s, p, a, b);
    Pow2Values();
    AtNum(s, Align(p), n, 16);
    AtNum(s, Align(p) + 16, m, 16);
    StoredEnds(s, Align(p) + 32, n, data, out, cap);
  }

  // ---------------------------------------------------------------- dynamic headers

  /** A header as it may be sent, good or not. */
  predicate Sendable(h: Header) {
    257 <= h.hlit <= 288 && 1 <= h.hdist <= 32 && 4 <= h.hclen <= 19 && |h.cl| == 19 &&
    (forall i :: 0 <= i < 19 ==> h.cl[i] < 8) && (forall j :: h.hclen <= j < 19 ==> h.cl[ClOrder(j)] == 0) &&
    AllItems(h.cl, h.items)
  }

  function SentHeader(h: Header): seq<bool>
    requires Sendable(h)
  {
    ToBits(h.hlit - 257, 5) + ToBits(h.hdist - 1, 5) + ToBits(h.hclen - 4, 4) +
    ClBits(h.cl, h.hclen) + ItemsBits(h.cl, h.items)
  }

  lemma SentHeaderAt(s: seq<bool>, p: nat, h: Header)
    requires Sendable(h) && At(s, p, SentHeader(h))
    ensures Num(s, p, 5) == h.hlit - 257 && Num(s, p + 5, 5) == h.hdist - 1 && Num(s, p + 10, 4) == h.hclen - 4
    ensures ClLens(s, p + 14, h.hclen) == h.cl && At(s, p + 14 + 3 * h.hclen, ItemsBits(h.cl, h.items))
  {
    hide At, ToBits, Num, AllItems, ClBits, ItemsBits, ClLens;
    var a, b, c := ToBits(h.hlit - 257, 5), ToBits(h.hdist - 1, 5), ToBits(h.hclen - 4, 4);
    var d, e := ClBits(h.cl, h.hclen), ItemsBits(h.cl, h.items);
    AtSplit(s, p, a + b + c + d, e);
    AtSplit(s, p, a + b + c, d);
    AtSplit(s, p, a + b, c);
    AtSplit(s, p, a, b);
    Pow2Values();
    AtNum(s, p, h.hlit - 257, 5);
    AtNum(s, p + 5, h.hdist - 1, 5);
    AtNum(s, p + 10, h.hclen - 4, 4);
    ClLensRoundTrip(s, p + 14, h.cl, h.hclen);
  }

  lemma LensVerdict(cl: seq<nat>, s: seq<bool>, p: nat, items: seq<ClItem>, total: nat)
    requires |cl| == 19 && Acceptable(cl) && AllItems(cl, items) && At(s, p, ItemsBits(cl, items)) && items != []
    requires Unpack(items).Some? && |Unpack(items[..|items| - 1]).value| < total <= |Unpack(items).value|
    ensures var u := Unpack(items).value;
            DecodeLens(cl, s, p, total, []) == if |u| == total then LensOk(p + |ItemsBits(cl, items)|, u) else LensFailed
  {
    hide At, Acceptable, ItemBits, UnpackItem;
    var front, it := items[..|items| - 1], items[|items| - 1];
    AtSplit(s, p, ItemsBits(cl, front), ItemBits(cl, it));
    ItemsRoundTrip(cl, s, p, front, total);
    ItemRoundTrip(cl, s, p + |ItemsBits(cl, front)|, it, total, Unpack(front).value);
  }

  /** A dynamic block goes on with its two codes exactly if its code length code, its literal code
      and its distance code are each acceptable and its runs end where the lengths do. */
  lemma HeaderVerdict(s: seq<bool>, p: nat, h: Header, out: seq<byte>, cap: nat)
    requires Sendable(h) && At(s, p, SentHeader(h)) && |out| <= cap && h.items != []
    requires Unpack(h.items).Some? && |Unpack(h.items[..|h.items| - 1]).value| < h.hlit + h.hdist <= |Unpack(h.items).value|
    ensures var u := Unpack(h.items).value;
            DecodeDynamic(s, p, out, cap) ==
            if Acceptable(h.cl) && |u| == h.hlit + h.hdist && Acceptable(u[..h.hlit]) && Acceptable(u[h.hlit..]) then
              DecodeTokens(u[..h.hlit], u[h.hlit..], s, p + |SentHeader(h)|, out, cap)
            else Failed
  {
    hide At, Acceptable, ToBits, Num, AllItems, ClBits, DecodeTokens, ClLens, DecodeLens;
    SentHeaderAt(s, p, h);
    if Acceptable(h.cl) { LensVerdict(h.cl, s, p + 14 + 3 * h.hclen, h.items, h.hlit + h.hdist); }
  }

  lemma {:induction false} FirstItem(cl: seq<nat>, s: seq<bool>, p: nat, items: seq<ClItem>)
    requires AllItems(cl, items) && items != [] && At(s, p, ItemsBits(cl, items))
    ensures At(s, p, CodeBits(cl, items[0].sym))
  {
    hide At, CodeBits;
    var n := |items| - 1;
    AtSplit(s, p, ItemsBits(cl, items[..n]), ItemBits(cl, items[n]));
    if n > 0 {
      FirstItem(cl, s, p, items[..n]);
    } else {
      AtSplit(s, p, CodeBits(cl, items[0].sym), ToBits(items[0].extra, ClExtraBits(items[0].sym)));
    }
  }

  /** A header whose first length repeats one before it is refused. */
  lemma NothingToRepeat(s: seq<bool>, p: nat, h: Header, out: seq<byte>, cap: nat)
    requires Sendable(h) && At(s, p, SentHeader(h)) && |out| <= cap && h.items != [] && h.items[0].sym == 16
    ensures DecodeDynamic(s, p, out, cap) == Failed
  {
    hide At, Acceptable, ToBits, Num, ClBits, DecodeTokens, ClLens, ItemsBits, DecodeSym;
    SentHeaderAt(s, p, h);
    if Acceptable(h.cl) {
      FirstItem(h.cl, s, p + 14 + 3 * h.hclen, h.items);
      AtSym(h.cl, s, p + 14 + 3 * h.hclen, 16);
    }
  }

  // ---------------------------------------------------------------- tokens

  /** One token of a block: a literal needs room; a match is refused exactly if it reaches back
      before the first byte, and without room for all of it as much is copied as there is room for. */
  lemma TokenVerdict(lit: seq<nat>, dist: seq<nat>, s: seq<bool>, p: nat, t: Token, out: seq<byte>, cap: nat)
    requires Acceptable(lit) && Acceptable(dist) && Codable(lit, dist, t) && At(s, p, TokenBits(lit, dist, t)) && |out| <= cap
    ensures var q := p + |TokenBits(lit, dist, t)|;
            DecodeTokens(lit, dist, s, p, out, cap) ==
            match t
            case Literal(b) => if |out| == cap then MoreOutput(out) else DecodeTokens(lit, dist, s, q, out + [b], cap)
            case Match(len, d) =>
              if d > |out| then Failed
              else if |out| + len > cap then MoreOutput(Copy(out, cap - |out|, d))
              else DecodeTokens(lit, dist, s, q, Copy(out, len, d), cap)
  {
    hide ToBits, CodeBits, Acceptable, Low, LenSym, LenExtra, DistSym, DistExtra, At, Copy, DecodeSym, DecodeMatch;
    if t.Match? {
      MatchBitsAt(lit, dist, s, p, t);
      AtSym(lit, s, p, LenSym(t.len - 3));
      DistanceRoundTrip(lit, dist, s, p + lit[LenSym(t.len - 3)], t.len, t.dist, out, cap);
    } else {
      AtSym(lit, s, p, t.b);
    }
  }

  /** After good tokens, one that reaches back before the first byte. */
  lemma TooFar(lit: seq<nat>, dist: seq<nat>, s: seq<bool>, p: nat, ts: seq<Token>, t: Token, out: seq<byte>, cap: nat)
    requires Acceptable(lit) && Acceptable(dist) && AllCodable(lit, dist, ts) && Codable(lit, dist, t)
    requires At(s, p, TokensBits(lit, dist, ts) + TokenBits(lit, dist, t))
    requires Expand(out, ts).Some? && |Expand(out, ts).value| <= cap && t.Match? && t.dist > |Expand(out, ts).value|
    ensures |out| <= cap && DecodeTokens(lit, dist, s, p, out, cap) == Failed
  {
    hide At, Acceptable, TokensBits, TokenBits, DecodeTokens, Expand, Codable;
    AtSplit(s, p, TokensBits(lit, dist, ts), TokenBits(lit, dist, t));
    TokensRoundTrip(lit, dist, s, p, ts, out, cap);
    TokenVerdict(lit, dist, s, p + |TokensBits(lit, dist, ts)|, t, Expand(out, ts).value, cap);
  }

  // ---------------------------------------------------------------- streams

  /** A stream ends as its first bad block does, final or not. */
  lemma FirstBad(s: seq<bool>, p: nat, blocks: seq<Block>, out: seq<byte>, cap: nat)
    requires AllValid(blocks) && At(s, p, RunBits(p, blocks)) && RunOutput(out, blocks).Some? && |RunOutput(out, blocks).value| <= cap
    ensures |out| <= cap
    ensures var q, o := p + |RunBits(p, blocks)|, RunOutput(out, blocks).value;
            q < |s| && !DecodeBlock(s, q, o, cap).Ok? ==> InflateFrom(s, p, out, cap) == DecodeBlock(s, q, o, cap)
  {
    hide At, RunBits, RunOutput, DecodeBlock, AllValid;
    RunRoundTrip(s, p, blocks, out, cap);
  }
}
