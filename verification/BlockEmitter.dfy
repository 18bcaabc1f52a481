/** `tdefl_compress_block`, and the bounds that let it fit the output buffer. */
module BlockEmitter {
  import opened Bits
  import opened Canonical
  import opened Deflate
  import opened Blocks
  import opened RoundTrip
  import opened BitOutput
  import opened TokenBuffers
  import opened CodeLengths
  import opened UsedSymbols
  import opened CodeCosts
  import opened Shortening
  import opened CodePacking
  import opened TokenEncoder
  import opened BlockStart

  // ---------------------------------------------------------------- histograms

  function Matches(ts: seq<Token>): (m: nat)
    ensures m <= |ts|
  {
    if ts == [] then 0 else Matches(ts[..|ts| - 1]) + (if ts[|ts| - 1].Match? then 1 else 0)
  }

  lemma LitSymRange(t: Token)
    requires ValidToken(t)
    ensures LitSym(t) <= 285 && LitSym(t) != 256
  {
    hide LenSym;
  }

  /** The literal/length histogram sums to the number of tokens. */
  lemma {:induction false} LitSum(ts: seq<Token>, c: seq<nat>)
    requires AllTokens(ts) && |c| == 288 && forall s :: 0 <= s < 288 ==> c[s] == LitUses(ts, s)
    ensures SumCounts(c) == |ts|
  {
    hide SumCounts, LitSym;
    if ts == [] {
      NoCounts(c);
    } else {
      var u, t := ts[..|ts| - 1], ts[|ts| - 1];
      var k := LitSym(t);
      LitSymRange(t);
      assert c[k] == LitUses(u, k) + 1;
      var d := c[k := LitUses(u, k)];
      forall s | 0 <= s < 288 ensures d[s] == LitUses(u, s) {
        assert c[s] == LitUses(ts, s);
      }
      LitSum(u, d);
      SumUpdate(c, k, LitUses(u, k));
    }
  }

  /** The distance histogram sums to the number of matches. */
  lemma {:induction false} DistSum(ts: seq<Token>, c: seq<nat>)
    requires AllTokens(ts) && |c| == 32 && forall s :: 0 <= s < 32 ==> c[s] == DistUses(ts, s)
    ensures SumCounts(c) == Matches(ts)
  {
    hide SumCounts, DistSym;
    if ts == [] {
      NoCounts(c);
    } else {
      var u, t := ts[..|ts| - 1], ts[|ts| - 1];
      var k := if t.Match? then DistSym(t.dist - 1) else 0;
      var d := c[k := DistUses(u, k)];
      forall s | 0 <= s < 32 ensures d[s] == DistUses(u, s) {
        assert c[s] == DistUses(ts, s);
      }
      assert c[k] == DistUses(u, k) + (if t.Match? then 1 else 0);
      DistSum(u, d);
      SumUpdate(c, k, DistUses(u, k));
    }
  }

  lemma {:induction false} SymUnused(ts: seq<Token>, s: nat)
    requires AllTokens(ts)
    ensures s == 256 || s > 285 ==> LitUses(ts, s) == 0
    ensures s > 29 ==> DistUses(ts, s) == 0
  {
    if ts != [] {
      hide LitSym, DistSym;
      SymUnused(ts[..|ts| - 1], s);
      LitSymRange(ts[|ts| - 1]);
    }
  }

  lemma {:induction false} SymUsed(ts: seq<Token>, i: nat)
    requires AllTokens(ts) && i < |ts|
    ensures LitUses(ts, LitSym(ts[i])) > 0
    ensures ts[i].Match? ==> DistUses(ts, DistSym(ts[i].dist - 1)) > 0
  {
    if i < |ts| - 1 {
      hide LitSym, DistSym;
      SymUsed(ts[..|ts| - 1], i);
    }
  }

  /** Tables made for the histograms of the tokens can code all of them. */
  lemma CountedCodable(ts: seq<Token>, litCount: seq<nat>, distCount: seq<nat>, lit: seq<nat>, dist: seq<nat>)
    requires AllTokens(ts) && |litCount| == 288 && |distCount| == 32
    requires forall s :: 0 <= s < 288 && s != 256 ==> litCount[s] == LitUses(ts, s)
    requires forall s :: 0 <= s < 32 ==> distCount[s] == DistUses(ts, s)
    requires GoodLengths(litCount, lit, 15) && GoodLengths(distCount, dist, 15)
    ensures AllCodable(lit, dist, ts)
  {
    hide LitUses, DistUses, Acceptable, LenSym, DistSym;
    forall i | 0 <= i < |ts| ensures Codable(lit, dist, ts[i]) {
      SymUsed(ts, i);
      LitSymRange(ts[i]);
    }
  }

  // ---------------------------------------------------------------- static blocks fit

  lemma StaticLens(s: nat)
    requires s < 288
    ensures 7 <= StaticLit()[s] <= 9 && (s >= 256 ==> StaticLit()[s] <= 8) && (s < 32 ==> StaticDist()[s] == 5)
  {
  }

  lemma StaticCodable(t: Token)
    requires ValidToken(t)
    ensures Codable(StaticLit(), StaticDist(), t)
    ensures |TokenBits(StaticLit(), StaticDist(), t)| <= if t.Match? then 31 else 9
  {
    hide StaticLit, StaticDist, LenSym, DistSym, CodeBits;
    match t
    case Literal(b) => StaticLens(b);
    case Match(len, d) =>
      StaticLens(LenSym(len - 3));
      StaticLens(DistSym(d - 1));
  }

  lemma StaticAllCodable(ts: seq<Token>)
    requires AllTokens(ts)
    ensures AllCodable(StaticLit(), StaticDist(), ts) && HasCode(StaticLit(), 256)
  {
    hide StaticLit, StaticDist, Codable;
    StaticLens(256);
    forall i | 0 <= i < |ts| ensures Codable(StaticLit(), StaticDist(), ts[i]) {
      StaticCodable(ts[i]);
    }
  }

  lemma NoTokens(lit: seq<nat>, dist: seq<nat>, ts: seq<Token>)
    ensures AllCodable(lit, dist, ts[..0]) && TokensBits(lit, dist, ts[..0]) == [] && Off(ts, 0) == 1
  {
  }

  lemma TokenSize(t: Token)
    ensures Size(t) == if t.Match? then 3 else 1
  {
  }

  lemma OneMoreToken(lit: seq<nat>, dist: seq<nat>, ts: seq<Token>, k: nat)
    requires 0 < k <= |ts| && AllCodable(lit, dist, ts[..k])
    ensures AllCodable(lit, dist, ts[..k - 1]) && Codable(lit, dist, ts[k - 1]) && ValidToken(ts[k - 1])
    ensures |TokensBits(lit, dist, ts[..k])| == |TokensBits(lit, dist, ts[..k - 1])| + |TokenBits(lit, dist, ts[k - 1])|
  {
    hide TokenBits;
    assert ts[..k][..k - 1] == ts[..k - 1] && ts[..k][k - 1] == ts[k - 1];
  }

  /** A token takes at most 31/25 of the bits it takes in the token buffer, its flag included. */
  lemma {:induction false} StaticTokensBound(ts: seq<Token>, k: nat)
    requires AllTokens(ts) && k <= |ts| && AllCodable(StaticLit(), StaticDist(), ts[..k])
    ensures 25 * |TokensBits(StaticLit(), StaticDist(), ts[..k])| <= 31 * (8 * (Off(ts, k) - 1) + k % 8)
  {
    hide *;
    if k > 0 {
      OneMoreToken(StaticLit(), StaticDist(), ts, k);
      StaticCodable(ts[k - 1]);
      StaticTokensBound(ts, k - 1);
      OffStep(ts, k - 1);
      TokenSize(ts[k - 1]);
    } else {
      NoTokens(StaticLit(), StaticDist(), ts);
    }
  }

  /** The static encoding of any token buffer is under 81276 bytes. */
  lemma StaticBound(ts: seq<Token>)
    requires AllTokens(ts) && ReadPos(ts, |ts|) <= CODE_BUF_SIZE
    ensures AllCodable(StaticLit(), StaticDist(), ts) && HasCode(StaticLit(), 256)
    ensures |BodyBits(StaticLit(), StaticDist(), ts)| <= 650200
  {
    hide StaticLit, StaticDist, Codable, Off, TokensBits;
    StaticAllCodable(ts);
    assert ts[..|ts|] == ts;
    StaticTokensBound(ts, |ts|);
    StaticLens(256);
  }

  // ---------------------------------------------------------------- a cheapest code

  function LitHist(ts: seq<Token>): (c: seq<nat>)
    requires AllTokens(ts)
    ensures |c| == 288
  {
    seq(288, (s: nat) => LitUses(ts, s))
  }

  function DistHist(ts: seq<Token>): (c: seq<nat>)
    requires AllTokens(ts)
    ensures |c| == 32
  {
    seq(32, (s: nat) => DistUses(ts, s))
  }

  /** The extra bits of lengths and distances, which no code changes. */
  function ExtraBits(ts: seq<Token>): nat
    requires AllTokens(ts)
  {
    if ts == [] then 0
    else
      var t := ts[|ts| - 1];
      ExtraBits(ts[..|ts| - 1]) + (if t.Match? then LenExtra(t.len - 3) + DistExtra(t.dist - 1) else 0)
  }

  lemma {:induction false} OneMoreUse(counts: seq<nat>, ls: seq<nat>, s: nat, n: nat)
    requires n <= |counts| && n <= |ls| && s < |counts|
    ensures SymCost(counts[s := counts[s] + 1], ls, n) == SymCost(counts, ls, n) + (if s < n then ls[s] else 0)
  {
    if n > 0 {
      OneMoreUse(counts, ls, s, n - 1);
      if s == n - 1 { MulDistrib(counts[s], 1, ls[s]); }
    }
  }

  lemma HistSnoc(ts: seq<Token>)
    requires AllTokens(ts) && ts != []
    ensures AllTokens(ts[..|ts| - 1])
    ensures var t, c, d := ts[|ts| - 1], LitHist(ts[..|ts| - 1]), DistHist(ts[..|ts| - 1]);
            LitHist(ts) == c[LitSym(t) := c[LitSym(t)] + 1] &&
            DistHist(ts) == if t.Match? then d[DistSym(t.dist - 1) := d[DistSym(t.dist - 1)] + 1] else d
  {
    hide LenSym, DistSym;
    LitSymRange(ts[|ts| - 1]);
  }

  lemma {:induction false} ZeroCost(counts: seq<nat>, ls: seq<nat>, n: nat)
    requires n <= |counts| && n <= |ls| && forall s :: 0 <= s < n ==> counts[s] == 0
    ensures SymCost(counts, ls, n) == 0
  {
    if n > 0 { ZeroCost(counts, ls, n - 1); }
  }

  lemma NoCost(ts: seq<Token>, lit: seq<nat>, dist: seq<nat>)
    requires ts == [] && |lit| == 288 && |dist| == 32
    ensures SymCost(LitHist(ts), lit, 288) == 0 && SymCost(DistHist(ts), dist, 32) == 0
  {
    ZeroCost(LitHist(ts), lit, 288);
    ZeroCost(DistHist(ts), dist, 32);
  }

  /** The bits of the tokens: their symbols', as often as they occur, and the extra bits. */
  lemma {:induction false} TokensCost(lit: seq<nat>, dist: seq<nat>, ts: seq<Token>)
    requires AllTokens(ts) && |lit| == 288 && |dist| == 32 && AllCodable(lit, dist, ts)
    ensures |TokensBits(lit, dist, ts)| == SymCost(LitHist(ts), lit, 288) + SymCost(DistHist(ts), dist, 32) + ExtraBits(ts)
  {
    hide LitHist, DistHist, SymCost, LenSym, DistSym, CodeBits, ToBits;
    if ts == [] {
      NoCost([], lit, dist);
    } else {
      var k, t := |ts| - 1, ts[|ts| - 1];
      TokensCost(lit, dist, ts[..k]);
      HistSnoc(ts);
      LitSymRange(t);
      OneMoreUse(LitHist(ts[..k]), lit, LitSym(t), 288);
      if t.Match? { OneMoreUse(DistHist(ts[..k]), dist, DistSym(t.dist - 1), 32); }
    }
  }

  lemma {:induction false} SpaceWithin(counts: seq<nat>, ls: seq<nat>, n: nat)
    requires n <= |counts| && n <= |ls| && ValidLens(ls) && forall s :: 0 <= s < n && counts[s] > 0 ==> ls[s] > 0
    ensures UsedSpace(counts, ls, 15, n) <= Kraft(ls[..n])
  {
    hide Pow2;
    if n > 0 {
      SpaceWithin(counts, ls, n - 1);
      assert ls[..n][..n - 1] == ls[..n - 1];
    }
  }

  /** Lengths that fill the code space serve any symbols. */
  lemma FullServes(counts: seq<nat>, ls: seq<nat>)
    requires |counts| == |ls| && ValidLens(ls) && Kraft(ls) == 32768 && forall s :: 0 <= s < |ls| ==> ls[s] > 0
    ensures Serves(counts, ls, 15)
  {
    hide Kraft, UsedSpace;
    SpaceWithin(counts, ls, |ls|);
    assert ls[..|ls|] == ls;
    Pow2Values();
  }

  lemma StaticFull()
    ensures |StaticLit()| == 288 && |StaticDist()| == 32 && ValidLens(StaticLit()) && ValidLens(StaticDist())
    ensures Kraft(StaticLit()) == 32768 && Kraft(StaticDist()) == 32768
    ensures forall s :: 0 <= s < 288 ==> StaticLit()[s] > 0
    ensures forall s :: 0 <= s < 32 ==> StaticDist()[s] > 0
  {
    hide Kraft, UsedSyms;
    StaticAcceptable();
  }

  /** With cheapest codes a block is never longer than with the static ones. */
  lemma CheapestFits(ts: seq<Token>, litCount: seq<nat>, distCount: seq<nat>, lit: seq<nat>, dist: seq<nat>)
    requires AllTokens(ts) && ReadPos(ts, |ts|) <= CODE_BUF_SIZE && |lit| == 288 && |dist| == 32
    requires AllCodable(lit, dist, ts) && HasCode(lit, 256)
    requires LitHist(ts)[256] == 0 && litCount == LitHist(ts)[256 := 1] && distCount == DistHist(ts)
    requires Cheapest(litCount, lit) && Cheapest(distCount, dist)
    ensures |BodyBits(lit, dist, ts)| <= 650200
  {
    hide LitHist, DistHist, SymCost, Serves, StaticLit, StaticDist, TokensBits, Kraft, AllCodable, CodeBits, ReadPos;
    StaticBound(ts);
    StaticFull();
    FullServes(litCount, StaticLit());
    FullServes(distCount, StaticDist());
    TokensCost(lit, dist, ts);
    TokensCost(StaticLit(), StaticDist(), ts);
    OneMoreUse(LitHist(ts), lit, 256, 288);
    OneMoreUse(LitHist(ts), StaticLit(), 256, 288);
  }

  lemma OneMoreMatch(ts: seq<Token>, k: nat)
    requires 0 < k <= |ts|
    ensures Matches(ts[..k]) == Matches(ts[..k - 1]) + (if ts[k - 1].Match? then 1 else 0)
  {
    assert ts[..k][..k - 1] == ts[..k - 1] && ts[..k][k - 1] == ts[k - 1];
  }

  lemma NoMatches(ts: seq<Token>)
    ensures Matches(ts[..0]) == 0
  {
  }

  lemma StretchedStep(k: nat, bits: nat, more: nat, matches: nat, off: nat, isMatch: bool)
    requires k > 0 && off > 0 && more <= if isMatch then 31 else 9
    requires 250 * bits + 250 * (k - 1) + 25 * matches <= 321 * (8 * (off - 1) + (k - 1) % 8)
    ensures 250 * (bits + more) + 250 * k + 25 * (matches + if isMatch then 1 else 0) <=
            321 * (8 * (off + (if isMatch then 3 else 1) + (if k % 8 == 0 then 1 else 0) - 1) + k % 8)
  {
    assert if k % 8 == 0 then (k - 1) % 8 == 7 else (k - 1) % 8 == k % 8 - 1;
  }

  /** Ten bits more for each ten uses of a symbol, and one more for each match, still leave the
      static encoding within the same bound for each bit of the token buffer. */
  lemma {:induction false} StretchedTokensBound(ts: seq<Token>, k: nat)
    requires AllTokens(ts) && k <= |ts| && AllCodable(StaticLit(), StaticDist(), ts[..k])
    ensures 250 * |TokensBits(StaticLit(), StaticDist(), ts[..k])| + 250 * k + 25 * Matches(ts[..k]) <=
            321 * (8 * (Off(ts, k) - 1) + k % 8)
  {
    hide *;
    if k > 0 {
      OneMoreToken(StaticLit(), StaticDist(), ts, k);
      OneMoreMatch(ts, k);
      StaticCodable(ts[k - 1]);
      StretchedTokensBound(ts, k - 1);
      OffStep(ts, k - 1);
      TokenSize(ts[k - 1]);
      StretchedStep(k, |TokensBits(StaticLit(), StaticDist(), ts[..k - 1])|, |TokenBits(StaticLit(), StaticDist(), ts[k - 1])|,
                    Matches(ts[..k - 1]), Off(ts, k - 1), ts[k - 1].Match?);
    } else {
      NoTokens(StaticLit(), StaticDist(), ts);
      assert Matches(ts[..0]) == 0 by { NoMatches(ts); }
    }
  }

  lemma {:induction false} UsedAtMost(counts: seq<nat>)
    ensures |Used(counts)| <= |counts|
  {
    if counts != [] { UsedAtMost(counts[..|counts| - 1]); }
  }

  lemma {:induction false} UsedFew(counts: seq<nat>, k: nat)
    requires k <= |counts| && forall s :: k <= s < |counts| ==> counts[s] == 0
    ensures |Used(counts)| <= k
  {
    if k < |counts| {
      var n := |counts| - 1;
      UsedFew(counts[..n], k);
    } else {
      UsedAtMost(counts);
    }
  }

  lemma TwoUnused(counts: seq<nat>)
    requires |counts| >= 2 && counts[|counts| - 1] == counts[|counts| - 2] == 0
    ensures |Used(counts)| <= |counts| - 2
  {
    hide Used;
    UsedFew(counts, |counts| - 2);
  }

  lemma ThriftyOver(counts: seq<nat>, sizes: seq<nat>, ls: seq<nat>)
    requires Thrifty(counts, sizes) && Serves(counts, ls, 15)
    ensures |sizes| == |ls| == |counts|
    ensures |Used(counts)| <= 286 ==> SymCost(counts, sizes, |counts|) <= SymCost(counts, ls, |counts|) + SumCounts(counts)
    ensures |Used(counts)| <= 30 ==>
              10 * SymCost(counts, sizes, |counts|) <= 10 * SymCost(counts, ls, |counts|) + SumCounts(counts)
  {
    hide SymCost, SumCounts, Used, UsedSpace;
  }

  /** The histograms of the tokens and of end-of-block. */
  lemma HistSums(ts: seq<Token>)
    requires AllTokens(ts)
    ensures LitHist(ts)[256] == 0 && SumCounts(LitHist(ts)[256 := 1]) == |ts| + 1 && SumCounts(DistHist(ts)) == Matches(ts)
    ensures LitHist(ts)[286] == LitHist(ts)[287] == 0 && DistHist(ts)[30] == DistHist(ts)[31] == 0
  {
    hide SumCounts, LitUses, DistUses;
    LitSum(ts, LitHist(ts));
    DistSum(ts, DistHist(ts));
    SymUnused(ts, 256);
    SymUnused(ts, 286);
    SymUnused(ts, 287);
    SymUnused(ts, 30);
    SymUnused(ts, 31);
    SumUpdate(LitHist(ts), 256, 1);
  }

  lemma StretchedStatic(ts: seq<Token>)
    requires AllTokens(ts) && ReadPos(ts, |ts|) <= CODE_BUF_SIZE && AllCodable(StaticLit(), StaticDist(), ts)
    ensures 250 * |TokensBits(StaticLit(), StaticDist(), ts)| + 250 * |ts| + 25 * Matches(ts) <= 321 * 524288
  {
    hide StaticLit, StaticDist, Codable, Off, TokensBits, Matches;
    assert ts[..|ts|] == ts;
    StretchedTokensBound(ts, |ts|);
  }

  /** However codes had to be shortened, the body of a block is at most 673200 bits. */
  lemma ThriftyFits(ts: seq<Token>, litCount: seq<nat>, distCount: seq<nat>, lit: seq<nat>, dist: seq<nat>)
    requires AllTokens(ts) && ReadPos(ts, |ts|) <= CODE_BUF_SIZE && |lit| == 288 && |dist| == 32
    requires AllCodable(lit, dist, ts) && HasCode(lit, 256)
    requires litCount == LitHist(ts)[256 := 1] && distCount == DistHist(ts)
    requires Thrifty(litCount, lit) && Thrifty(distCount, dist)
    ensures |BodyBits(lit, dist, ts)| <= 673200
  {
    hide LitHist, DistHist, SymCost, Serves, StaticLit, StaticDist, TokensBits, Kraft, AllCodable, CodeBits, ReadPos, Thrifty,
         SumCounts, Matches, Used;
    HistSums(ts);
    StaticAllCodable(ts);
    StaticFull();
    FullServes(litCount, StaticLit());
    FullServes(distCount, StaticDist());
    TwoUnused(litCount);
    TwoUnused(distCount);
    ThriftyOver(litCount, lit, StaticLit());
    ThriftyOver(distCount, dist, StaticDist());
    TokensCost(lit, dist, ts);
    TokensCost(StaticLit(), StaticDist(), ts);
    OneMoreUse(LitHist(ts), lit, 256, 288);
    OneMoreUse(LitHist(ts), StaticLit(), 256, 288);
    StaticLens(256);
    StretchedStatic(ts);
  }

  /** A minimum-redundancy code for the block's literals and lengths, or for its distances,
      would have codes of more than 15 bits. */
  ghost predicate NeedsShortening(ts: seq<Token>)
    requires AllTokens(ts)
  {
    Shortened(LitHist(ts)[256 := 1], 15) || Shortened(DistHist(ts), 15)
  }

  /** The body is at most 673200 bits, and unless codes had to be shortened no more than the
      static one may be. */
  ghost predicate WellCoded(b: Block) {
    b.Dynamic? && ValidBlock(b) && AllTokens(b.tokens) ==>
      |BodyBits(HeaderLit(b.header), HeaderDist(b.header), b.tokens)| <=
      if NeedsShortening(b.tokens) then 673200 else 650200
  }

  lemma DynamicWell(h: Header, ts: seq<Token>, litCount: seq<nat>, distCount: seq<nat>, lit: seq<nat>, dist: seq<nat>)
    requires ValidHeader(h) && AllTokens(ts) && ReadPos(ts, |ts|) <= CODE_BUF_SIZE
    requires |litCount| == |lit| == 288 && |distCount| == |dist| == 32 && LitUses(ts, 256) == 0
    requires litCount[256] == 1 && forall s :: 0 <= s < 288 && s != 256 ==> litCount[s] == LitUses(ts, s)
    requires forall s :: 0 <= s < 32 ==> distCount[s] == DistUses(ts, s)
    requires Frugal(litCount, lit, 15) && Frugal(distCount, dist, 15) && Thrifty(litCount, lit) && Thrifty(distCount, dist)
    requires AllCodable(lit, dist, ts) && HasCode(lit, 256) && UnusedFrom(lit, h.hlit) && UnusedFrom(dist, h.hdist)
    requires Acceptable(lit) && Acceptable(dist) && HeaderLit(h) == lit[..h.hlit] && HeaderDist(h) == dist[..h.hdist]
    ensures WellCoded(Dynamic(h, ts))
  {
    hide LitUses, DistUses, Cheapest, Thrifty, Shortened, ValidHeader, HeaderLit, HeaderDist, AllCodable, BodyBits, UnusedFrom, Acceptable,
         ReadPos, AllTokens;
    assert litCount == LitHist(ts)[256 := 1] && distCount == DistHist(ts);
    TrimBody(lit, dist, h.hlit, h.hdist, ts);
    if NeedsShortening(ts) {
      ThriftyFits(ts, litCount, distCount, lit, dist);
    } else {
      CheapestFits(ts, litCount, distCount, lit, dist);
    }
  }

  /** The codes are the best for the tokens and the end-of-block, and the header spares what it can. */
  ghost predicate BestCodes(b: Block) {
    b.Dynamic? && ValidBlock(b) && AllTokens(b.tokens) && Sparing(b.header) &&
    var l, d := HeaderLit(b.header), HeaderDist(b.header);
    GoodLengths(LitHist(b.tokens)[256 := 1], l + Repeat(0, 288 - |l|), 15) &&
    GoodLengths(DistHist(b.tokens), d + Repeat(0, 32 - |d|), 15)
  }

  lemma Padded(ls: seq<nat>, k: nat)
    requires UnusedFrom(ls, k)
    ensures ls[..k] + Repeat(0, |ls| - k) == ls
  {
  }

  lemma DynamicBest(h: Header, ts: seq<Token>, litCount: seq<nat>, distCount: seq<nat>, lit: seq<nat>, dist: seq<nat>)
    requires ValidBlock(Dynamic(h, ts)) && AllTokens(ts) && Sparing(h) && LitUses(ts, 256) == 0
    requires |litCount| == |lit| == 288 && |distCount| == |dist| == 32
    requires litCount[256] == 1 && forall s :: 0 <= s < 288 && s != 256 ==> litCount[s] == LitUses(ts, s)
    requires forall s :: 0 <= s < 32 ==> distCount[s] == DistUses(ts, s)
    requires GoodLengths(litCount, lit, 15) && GoodLengths(distCount, dist, 15)
    requires UnusedFrom(lit, h.hlit) && UnusedFrom(dist, h.hdist)
    requires HeaderLit(h) == lit[..h.hlit] && HeaderDist(h) == dist[..h.hdist]
    ensures BestCodes(Dynamic(h, ts))
  {
    hide LitUses, DistUses, ValidBlock, HeaderLit, HeaderDist, AllTokens, Sparing, GoodLengths, UnusedFrom;
    assert litCount == LitHist(ts)[256 := 1] && distCount == DistHist(ts);
    Padded(lit, h.hlit);
    Padded(dist, h.hdist);
  }

  /** The bits of a block after the final bit, which is bit `p - 1`. */
  ghost function BlockTail(p: nat, b: Block): seq<bool>
    requires ValidBlock(b)
  {
    ToBits(KindOf(b), 2) + Payload(p + 2, b)
  }

  lemma TailIs(put: seq<bool>, b: Block)
    requires ValidBlock(b)
    ensures forall p: nat :: put + BlockTail(p, b) == put + ToBits(KindOf(b), 2) + Payload(p + 2, b)
    ensures KindOf(b) == match b case Stored(_) => 0 case Static(_) => 1 case Dynamic(_, _) => 2
  {
    hide ToBits, Payload;
  }

  // ---------------------------------------------------------------- one compressed block

  /** Nothing the encoder writes is read by it again. */
  ghost predicate Apart(w: BitWriter, tb: TokenBuffer, t: Tables) {
    t.Shape() && tb.Shape() && t.Apart({w, w.buf, tb, tb.buf, tb.litCount, tb.distCount}) &&
    {w as object, w.buf} !! {tb, tb.buf, tb.litCount, tb.distCount}
  }

  lemma FinishedParts(tb: TokenBuffer)
    requires tb.Finished()
    ensures AllTokens(tb.tokens) && Readable(tb.buf[..], tb.tokens)
    ensures tb.codePos == ReadPos(tb.tokens, |tb.tokens|) <= CODE_BUF_SIZE
  {
  }

  lemma StaticPayload(ts: seq<Token>)
    requires AllTokens(ts)
    ensures ValidBlock(Static(ts)) && AllCodable(StaticLit(), StaticDist(), ts) && HasCode(StaticLit(), 256)
    ensures forall p :: Payload(p, Static(ts)) == BodyBits(StaticLit(), StaticDist(), ts)
  {
    StaticAllCodable(ts);
  }

  method CompressStatic(w: BitWriter, tb: TokenBuffer, t: Tables) returns (fits: bool)
    requires Apart(w, tb, t) && w.Valid() && tb.Finished()
    modifies w, w.buf, t.lit.sizes, t.lit.codes, t.dist.sizes, t.dist.codes
    ensures w.Valid() && ValidBlock(Static(tb.tokens)) && fits == (w.pos < OUT_BUF_END)
    ensures forall p :: w.put == old(w.put) + ToBits(1, 2) + Payload(p, Static(tb.tokens))
    ensures |w.put| <= |old(w.put)| + 650202
  {
    hide BitWriter.Valid, TokenBuffer.Finished, StaticLit, StaticDist, BodyBits, Payload, ValidBlock, AllTokens, Readable,
         ToBits, AllCodable, HasCode, ReadPos, Coding;
    ghost var ts, put := tb.tokens, w.put;
    FinishedParts(tb);
    StaticPayload(ts);
    StaticBound(ts);
    t.StartStatic(w);
    FinishedParts(tb);
    fits := CompressLzCodes(w, tb.buf, tb.codePos, t.lit, t.dist, ts);
    assert put + ToBits(1, 2) + BodyBits(StaticLit(), StaticDist(), ts) == put + (ToBits(1, 2) + BodyBits(StaticLit(), StaticDist(), ts));
  }

  /** The histograms stay below 2^16, and some symbols are never used. */
  lemma HistogramsFit(ts: seq<Token>, litCount: seq<nat>, distCount: seq<nat>)
    requires AllTokens(ts) && |litCount| == 288 && |distCount| == 32 && ReadPos(ts, |ts|) <= CODE_BUF_SIZE
    requires forall s :: 0 <= s < 288 ==> litCount[s] == LitUses(ts, s)
    requires forall s :: 0 <= s < 32 ==> distCount[s] == DistUses(ts, s)
    ensures SumCounts(litCount) == |ts| && SumCounts(distCount) == Matches(ts) && |ts| <= 65534
    ensures litCount[256] == litCount[286] == litCount[287] == 0 && distCount[30] == distCount[31] == 0
  {
    hide LitUses, DistUses, SumCounts, Off;
    TokensFit(ts, |ts|);
    LitSum(ts, litCount);
    DistSum(ts, distCount);
    SymUnused(ts, 256);
    SymUnused(ts, 286);
    SymUnused(ts, 287);
    SymUnused(ts, 30);
    SymUnused(ts, 31);
  }

  lemma DynamicPayload(h: Header, ts: seq<Token>, litCount: seq<nat>, distCount: seq<nat>, lit: seq<nat>, dist: seq<nat>)
    requires ValidHeader(h) && AllTokens(ts) && |litCount| == 288 && |distCount| == 32
    requires litCount[256] == 1 && forall s :: 0 <= s < 288 && s != 256 ==> litCount[s] == LitUses(ts, s)
    requires forall s :: 0 <= s < 32 ==> distCount[s] == DistUses(ts, s)
    requires GoodLengths(litCount, lit, 15) && GoodLengths(distCount, dist, 15)
    requires UnusedFrom(lit, h.hlit) && UnusedFrom(dist, h.hdist)
    requires HeaderLit(h) == lit[..h.hlit] && HeaderDist(h) == dist[..h.hdist]
    requires LitUses(ts, 256) == 0 && ReadPos(ts, |ts|) <= CODE_BUF_SIZE
    ensures AllCodable(lit, dist, ts) && HasCode(lit, 256) && ValidBlock(Dynamic(h, ts)) && WellCoded(Dynamic(h, ts))
    ensures forall p :: Payload(p, Dynamic(h, ts)) == HeaderBits(h) + BodyBits(lit, dist, ts)
  {
    hide LitUses, DistUses, ValidHeader, HeaderLit, HeaderDist, HeaderBits, BodyBits, AllCodable, UnusedFrom, AllTokens, Acceptable,
         Frugal, Thrifty, WellCoded, ReadPos;
    CountedCodable(ts, litCount, distCount, lit, dist);
    TrimBody(lit, dist, h.hlit, h.hdist, ts);
    DynamicWell(h, ts, litCount, distCount, lit, dist);
  }

  method CompressDynamic(w: BitWriter, tb: TokenBuffer, t: Tables) returns (fits: bool, ghost b: Block)
    requires Apart(w, tb, t) && w.Valid() && tb.Finished() && tb.Counted()
    modifies w, w.buf, tb.litCount, t.lit.sizes, t.lit.codes, t.dist.sizes, t.dist.codes, t.cl.sizes, t.cl.codes
    ensures w.Valid() && ValidBlock(b) && b.Dynamic? && b.tokens == tb.tokens && fits == (w.pos < OUT_BUF_END) && WellCoded(b)
    ensures BestCodes(b)
    ensures forall p :: w.put == old(w.put) + ToBits(2, 2) + Payload(p, b)
  {
    hide BitWriter.Valid, TokenBuffer.Finished, BodyBits, HeaderBits, ValidHeader, HeaderLit, HeaderDist, AllTokens, Readable,
         ToBits, AllCodable, HasCode, ReadPos, Coding, LitUses, DistUses, SumCounts, GoodLengths, UnusedFrom, Unpack, WellCoded,
         Sparing, BestCodes;
    ghost var ts, put := tb.tokens, w.put;
    FinishedParts(tb);
    HistogramsFit(ts, tb.litCount[..], tb.distCount[..]);
    ghost var h := t.StartDynamic(w, tb.litCount, tb.distCount);
    b := Dynamic(h, ts);
    FinishedParts(tb);
    DynamicPayload(h, ts, tb.litCount[..], tb.distCount[..], t.lit.sizes[..], t.dist.sizes[..]);
    DynamicBest(h, ts, tb.litCount[..], tb.distCount[..], t.lit.sizes[..], t.dist.sizes[..]);
    fits := CompressLzCodes(w, tb.buf, tb.codePos, t.lit, t.dist, ts);
    ghost var head, body := HeaderBits(h), BodyBits(t.lit.sizes[..], t.dist.sizes[..], ts);
    assert put + ToBits(2, 2) + head + body == put + ToBits(2, 2) + (head + body);
  }
}
