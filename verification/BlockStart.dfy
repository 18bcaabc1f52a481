/** `tdefl_start_dynamic_block` and `tdefl_start_static_block`: the code tables of a
    block and the bits that describe them. */
module BlockStart {
  import opened Bits
  import opened Canonical
  import opened Deflate
  import opened Blocks
  import opened Rfc1951
  import opened BitOutput
  import opened CodeLengths
  import opened UsedSymbols
  import opened HuffmanTables
  import opened CodePacking
  import opened TokenEncoder

  // ---------------------------------------------------------------- unused symbols at the end

  /** Symbols from `k` on are not used. */
  predicate UnusedFrom(lens: seq<nat>, k: nat) {
    k <= |lens| && forall s :: k <= s < |lens| ==> lens[s] == 0
  }

  lemma {:induction false} TrimFirstCode(lens: seq<nat>, k: nat, l: nat, n: nat)
    requires UnusedFrom(lens, k) && n <= |lens|
    ensures FirstCode(lens, l, n) == FirstCode(lens[..k], l, Min(n, k))
  {
    if n > 0 { TrimFirstCode(lens, k, l, n - 1); }
  }

  /** Leaving them out of the header does not change the codes of the others. */
  lemma TrimCode(lens: seq<nat>, k: nat, s: nat)
    requires UnusedFrom(lens, k) && s < |lens| && lens[s] > 0
    ensures s < k && lens[..k][s] == lens[s] && CodeBits(lens[..k], s) == CodeBits(lens, s)
  {
    TrimFirstCode(lens, k, lens[s], |lens|);
    assert lens[..k][..s] == lens[..s];
    CountLenPrefix(lens, lens[..k], lens[s], s);
  }

  lemma {:induction false} TrimKraft(lens: seq<nat>, k: nat)
    requires UnusedFrom(lens, k) && ValidLens(lens)
    ensures ValidLens(lens[..k]) && Kraft(lens[..k]) == Kraft(lens) && UsedSyms(lens[..k]) == UsedSyms(lens)
    decreases |lens|
  {
    if k == |lens| {
      assert lens[..k] == lens;
    } else {
      var t := lens[..|lens| - 1];
      TrimKraft(t, k);
      assert t[..k] == lens[..k];
    }
  }

  lemma TrimAcceptable(lens: seq<nat>, k: nat)
    requires UnusedFrom(lens, k) && Acceptable(lens)
    ensures Acceptable(lens[..k])
  {
    TrimKraft(lens, k);
  }

  lemma TrimToken(lit: seq<nat>, dist: seq<nat>, k: nat, m: nat, t: Token)
    requires UnusedFrom(lit, k) && UnusedFrom(dist, m) && Codable(lit, dist, t)
    ensures Codable(lit[..k], dist[..m], t) && TokenBits(lit[..k], dist[..m], t) == TokenBits(lit, dist, t)
  {
    hide CodeBits, LenSym, LenExtra, DistSym, DistExtra, ToBits;
    match t
    case Literal(b) => TrimCode(lit, k, b);
    case Match(len, d) =>
      TrimCode(lit, k, LenSym(len - 3));
      TrimCode(dist, m, DistSym(d - 1));
  }

  lemma {:induction false} TrimTokens(lit: seq<nat>, dist: seq<nat>, k: nat, m: nat, ts: seq<Token>)
    requires UnusedFrom(lit, k) && UnusedFrom(dist, m) && AllCodable(lit, dist, ts)
    ensures AllCodable(lit[..k], dist[..m], ts)
    ensures TokensBits(lit[..k], dist[..m], ts) == TokensBits(lit, dist, ts)
  {
    if ts != [] {
      hide Codable, TokenBits;
      TrimTokens(lit, dist, k, m, ts[..|ts| - 1]);
      TrimToken(lit, dist, k, m, ts[|ts| - 1]);
    }
  }

  /** The tokens are coded as if the header had all lengths. */
  lemma TrimBody(lit: seq<nat>, dist: seq<nat>, k: nat, m: nat, ts: seq<Token>)
    requires UnusedFrom(lit, k) && UnusedFrom(dist, m) && AllCodable(lit, dist, ts) && HasCode(lit, 256)
    ensures AllCodable(lit[..k], dist[..m], ts) && HasCode(lit[..k], 256)
    ensures BodyBits(lit[..k], dist[..m], ts) == BodyBits(lit, dist, ts)
  {
    TrimTokens(lit, dist, k, m, ts);
    TrimCode(lit, k, 256);
  }

  /** The loops that find `num_lit_codes` and `num_dist_codes`. */
  method CountCodes(sizes: array<nat>, most: nat, least: nat) returns (n: nat)
    requires least <= most <= sizes.Length && UnusedFrom(sizes[..], most)
    ensures least <= n <= most && UnusedFrom(sizes[..], n) && (n > least ==> sizes[n - 1] != 0)
  {
    n := most;
    while n > least && sizes[n - 1] == 0
      invariant least <= n <= most && UnusedFrom(sizes[..], n)
    {
      n := n - 1;
    }
  }

  // ---------------------------------------------------------------- the code length code

  method PackAll(sizes: array<nat>, total: nat, p: Packer)
    requires total <= sizes.Length == MAX_CODE_SIZES && p.Valid() && p.done == []
    requires sizes != p.packed && sizes != p.counts && forall i :: 0 <= i < total ==> sizes[i] <= 15
    modifies p, p.packed, p.counts
    ensures p.Shape() && p.Packed() && p.n <= total && p.Counts(0, 0)
    ensures Unpack(p.items) == Some(old(sizes[..total])) && p.items == Packing(old(sizes[..total]))
  {
    hide Packer.Valid, Packer.Packed, Packer.Counts, Unpack, Packing;
    for i := 0 to total
      invariant p.Valid() && p.done == sizes[..i] && sizes[..] == old(sizes[..])
    {
      p.Add(sizes[i]);
    }
    p.Finish();
  }

  /** Copy the used code sizes together and pack them. */
  method PackSizes(lit: array<nat>, hlit: nat, dist: array<nat>, hdist: nat) returns (p: Packer)
    requires lit.Length == 288 && dist.Length == 32 && hlit <= 288 && hdist <= 32
    requires ValidLens(lit[..]) && ValidLens(dist[..])
    ensures fresh(p) && fresh(p.packed) && fresh(p.counts)
    ensures p.Shape() && p.Packed() && p.n <= hlit + hdist && p.Counts(0, 0)
    ensures Unpack(p.items) == Some(lit[..hlit] + dist[..hdist]) && p.items == Packing(lit[..hlit] + dist[..hdist])
  {
    hide Unpack, Flat, ItemUses, SumCounts, Packing;
    var sizes := new nat[MAX_CODE_SIZES];
    forall i | 0 <= i < hlit { sizes[i] := lit[i]; }
    forall i | 0 <= i < hdist { sizes[hlit + i] := dist[i]; }
    var total := hlit + hdist;
    assert sizes[..total] == lit[..hlit] + dist[..hdist];
    p := new Packer();
    PackAll(sizes, total, p);
  }

  /** `num_bit_lengths`. */
  method CountClCodes(sizes: array<nat>) returns (n: nat)
    requires sizes.Length == 19
    ensures 4 <= n <= 19 && forall j :: n <= j < 19 ==> sizes[ClOrder(j)] == 0
    ensures n > 4 ==> sizes[ClOrder(n - 1)] != 0
  {
    var i: int := 18;
    while i >= 0 && sizes[ClOrder(i)] == 0
      invariant -1 <= i <= 18 && forall j :: i < j < 19 ==> sizes[ClOrder(j)] == 0
    {
      i := i - 1;
    }
    n := Max(4, i + 1);
  }

  /** Three bits of the stream hold the length `v`. */
  ghost predicate FieldAt(s: seq<bool>, at: nat, v: nat) {
    at + 3 <= |s| && s[at..at + 3] == ToBits(v, 3)
  }

  lemma FieldOf(c: seq<nat>, n: nat, put: seq<bool>, j: nat)
    requires |c| == 19 && j < n <= 19
    ensures FieldAt(put + ClBits(c, n), |put| + 3 * j, c[[16, 17, 18, 0, 8, 7, 9, 6, 10, 5, 11, 4, 12, 3, 13, 2, 14, 1, 15][j]])
  {
    hide ToBits, ClBits;
    ClBitsAt(c, n, j);
    var b := ClBits(c, n);
    assert (put + b)[|put| + 3 * j..|put| + 3 * j + 3] == b[3 * j..3 * j + 3];
  }

  /** The lengths of the code length code, in the order of section 3.2.7 of RFC 1951. */
  method PutClLengths(w: BitWriter, sizes: array<nat>, n: nat)
    requires w.Valid() && sizes.Length == 19 && n <= 19 && forall i :: 0 <= i < 19 ==> sizes[i] < 8
    requires w.buf as object != sizes
    modifies w, w.buf
    ensures w.Valid() && w.put == old(w.put) + ClBits(old(sizes[..]), n)
    ensures forall j :: 0 <= j < n ==>
              FieldAt(w.put, |old(w.put)| + 3 * j,
                      old(sizes[..])[[16, 17, 18, 0, 8, 7, 9, 6, 10, 5, 11, 4, 12, 3, 13, 2, 14, 1, 15][j]])
  {
    hide BitWriter.Valid, ToBits, ClOrder, FieldAt;
    Pow2Values();
    ghost var c, put := sizes[..], w.put;
    assert put + [] == put;
    for i := 0 to n
      invariant w.Valid() && w.put == put + ClBits(c, i) && c == sizes[..]
    {
      w.PutBits(sizes[ClOrder(i)], 3);
    }
    forall j | 0 <= j < n ensures FieldAt(w.put, |put| + 3 * j, c[[16, 17, 18, 0, 8, 7, 9, 6, 10, 5, 11, 4, 12, 3, 13, 2, 14, 1, 15][j]]) {
      FieldOf(c, n, put, j);
    }
  }

  // ---------------------------------------------------------------- packed code sizes

  lemma {:induction false} FlatPrefix(items: seq<ClItem>, k: nat)
    requires k <= |items|
    ensures Flat(items[..k]) <= Flat(items)
    decreases |items|
  {
    if k == |items| {
      assert items[..k] == items;
    } else {
      var t := items[..|items| - 1];
      FlatPrefix(t, k);
      assert t[..k] == items[..k];
    }
  }

  /** Where item `k` stands in the packed array. */
  function ItemPos(items: seq<ClItem>, k: nat): nat
    requires k <= |items|
  {
    |Flat(items[..k])|
  }

  lemma ItemPosIs(items: seq<ClItem>, k: nat)
    requires k <= |items|
    ensures ItemPos(items, k) == |Flat(items[..k])|
  {
  }

  lemma FlatItem(a: seq<ClItem>, it: ClItem, f: seq<nat>)
    requires Flat(a + [it]) <= f
    ensures var p := |Flat(a)|;
            p < |f| && f[p] == it.sym &&
            if it.sym < 16 then |Flat(a + [it])| == p + 1
            else p + 1 < |f| && f[p + 1] == it.extra && |Flat(a + [it])| == p + 2
  {
    hide *;
    FlatSnoc(a, it);
    var g, p := Flat(a + [it]), |Flat(a)|;
    assert g[p] == it.sym && f[p] == g[p];
    if it.sym >= 16 {
      assert g[p + 1] == it.extra && f[p + 1] == g[p + 1];
    }
  }

  lemma ItemAt(items: seq<ClItem>, k: nat, f: seq<nat>)
    requires k < |items| && f == Flat(items)
    ensures var p := ItemPos(items, k);
            p < |f| && f[p] == items[k].sym &&
            if items[k].sym < 16 then ItemPos(items, k + 1) == p + 1
            else p + 1 < |f| && f[p + 1] == items[k].extra && ItemPos(items, k + 1) == p + 2
  {
    hide *;
    var a, it := items[..k], items[k];
    assert items[..k + 1] == a + [it];
    FlatPrefix(items, k + 1);
    FlatItem(a, it, f);
    ItemPosIs(items, k);
    ItemPosIs(items, k + 1);
  }

  lemma ItemsMore(items: seq<ClItem>, k: nat)
    requires k <= |items| && ItemPos(items, k) < |Flat(items)|
    ensures k < |items|
  {
    assert items[..|items|] == items;
  }

  lemma ItemsSnoc(cl: seq<nat>, items: seq<ClItem>, k: nat, put: seq<bool>)
    requires AllItems(cl, items) && k < |items|
    ensures AllItems(cl, items[..k]) && AllItems(cl, items[..k + 1])
    ensures put + ItemsBits(cl, items[..k + 1]) == put + ItemsBits(cl, items[..k]) + ItemBits(cl, items[k])
    ensures HasCode(cl, items[k].sym) && ValidItem(items[k])
    ensures items[k].sym < 16 ==> ClExtraBits(items[k].sym) == 0 && ItemBits(cl, items[k]) == CodeBits(cl, items[k].sym)
    ensures items[k].sym >= 16 ==> ItemBits(cl, items[k]) ==
                                   CodeBits(cl, items[k].sym) + ToBits(items[k].extra, ClExtraBits(items[k].sym))
  {
    hide CodeBits;
    assert items[..k + 1][..k] == items[..k];
  }

  lemma ItemsStart(cl: seq<nat>, items: seq<ClItem>, put: seq<bool>)
    ensures AllItems(cl, items[..0]) && put + ItemsBits(cl, items[..0]) == put && ItemPos(items, 0) == 0
  {
  }

  lemma ItemsEnd(cl: seq<nat>, items: seq<ClItem>, k: nat)
    requires k <= |items| && ItemPos(items, k) >= |Flat(items)|
    ensures k == |items| && items[..k] == items
  {
    hide Flat, ItemPos;
    if k < |items| { ItemAt(items, k, Flat(items)); }
  }

  lemma ItemLimits(it: ClItem)
    requires ValidItem(it)
    ensures it.extra < Pow2(ClExtraBits(it.sym)) && ClExtraBits(it.sym) <= 16
  {
  }

  /** The last loop of `tdefl_start_dynamic_block`. */
  method PutItems(w: BitWriter, packed: array<nat>, n: nat, cl: HuffTable, ghost items: seq<ClItem>)
    requires w.Valid() && Coding(cl) && AllItems(cl.sizes[..], items)
    requires {w, w.buf} !! {cl.sizes, cl.codes} && w.buf as object != packed
    requires n <= packed.Length && packed[..n] == Flat(items)
    modifies w, w.buf
    ensures w.Valid() && w.put == old(w.put) + ItemsBits(cl.sizes[..], items)
  {
    hide *;
    ghost var c, f, put := cl.sizes[..], packed[..n], w.put;
    ghost var k := 0;
    var i := 0;
    ItemsStart(c, items, put);
    while i < n
      invariant k <= |items| && i == ItemPos(items, k) && c == cl.sizes[..] && f == packed[..n] && Coding(cl)
      invariant AllItems(c, items[..k]) && w.Valid() && w.put == put + ItemsBits(c, items[..k])
      decreases |items| - k
    {
      ItemsMore(items, k);
      ItemsSnoc(c, items, k, put);
      ItemAt(items, k, f);
      var code := packed[i];
      i := i + 1;
      PutCode(w, cl, code);
      if code >= 16 {
        var extra := packed[i];
        i := i + 1;
        ItemLimits(items[k]);
        w.PutBits(extra, ClExtraBits(code));
      }
      k := k + 1;
    }
    ItemsEnd(c, items, k);
  }

  // ---------------------------------------------------------------- the tables of a block

  lemma GoodUnused(counts: seq<nat>, sizes: seq<nat>, k: nat)
    requires GoodLengths(counts, sizes, 15) && k <= |counts| && forall s :: k <= s < |counts| ==> counts[s] == 0
    ensures UnusedFrom(sizes, k)
  {
  }

  /** The histogram of the items lets every item be coded. */
  lemma PackedCounts(p: Packer)
    requires p.Shape() && p.Packed() && p.n <= 320 && p.Counts(0, 0)
    ensures SumCounts(p.counts[..]) <= 320 && p.counts.Length <= Pow2(7)
    ensures forall k :: 0 <= k < |p.items| ==> ValidItem(p.items[k]) && p.counts[p.items[k].sym] > 0
  {
    hide SumCounts;
    Pow2Values();
    forall k | 0 <= k < |p.items| ensures ValidItem(p.items[k]) && p.counts[p.items[k].sym] > 0 {
      UsesPositive(p.items, k);
    }
  }

  lemma CountsAre(p: Packer)
    requires p.Shape() && p.Counts(0, 0)
    ensures |p.counts[..]| == 19 && forall s :: 0 <= s < 19 ==> p.counts[..][s] == ItemUses(p.items, s)
  {
  }

  lemma HeaderOk(l: seq<nat>, d: seq<nat>, h: Header, counts: seq<nat>)
    requires 257 <= h.hlit <= 286 && 1 <= h.hdist <= 30 && 4 <= h.hclen <= 19 && |h.cl| == 19
    requires Acceptable(l) && Acceptable(d) && UnusedFrom(l, h.hlit) && UnusedFrom(d, h.hdist)
    requires Unpack(h.items) == Some(l[..h.hlit] + d[..h.hdist])
    requires forall j :: h.hclen <= j < 19 ==> h.cl[ClOrder(j)] == 0
    requires GoodLengths(counts, h.cl, 7)
    requires forall k :: 0 <= k < |h.items| ==> ValidItem(h.items[k]) && h.items[k].sym < |counts| && counts[h.items[k].sym] > 0
    ensures ValidHeader(h) && HeaderLit(h) == l[..h.hlit] && HeaderDist(h) == d[..h.hdist]
  {
    hide Unpack, Kraft, UsedSyms, ValidItem;
    TrimAcceptable(l, h.hlit);
    TrimAcceptable(d, h.hdist);
    assert (l[..h.hlit] + d[..h.hdist])[..h.hlit] == l[..h.hlit];
    assert (l[..h.hlit] + d[..h.hdist])[h.hlit..] == d[..h.hdist];
  }

  lemma GoodValid(counts: seq<nat>, sizes: seq<nat>)
    requires GoodLengths(counts, sizes, 15)
    ensures |sizes| == |counts| && ValidLens(sizes) && Acceptable(sizes)
  {
  }

  /** The uses of the code length symbols. */
  function ItemHist(items: seq<ClItem>): (c: seq<nat>)
    ensures |c| == 19
  {
    seq(19, (s: nat) => ItemUses(items, s))
  }

  /** A header that says no more than it has to: no unused symbols at the end of the three codes, the
      lengths packed run by run, and the best code for what they are packed in. */
  ghost predicate Sparing(h: Header)
    requires ValidHeader(h)
  {
    (h.hlit > 257 ==> HeaderLit(h)[h.hlit - 1] != 0) && (h.hdist > 1 ==> HeaderDist(h)[h.hdist - 1] != 0) &&
    (h.hclen > 4 ==> h.cl[[16, 17, 18, 0, 8, 7, 9, 6, 10, 5, 11, 4, 12, 3, 13, 2, 14, 1, 15][h.hclen - 1]] != 0) &&
    h.items == Packing(HeaderLit(h) + HeaderDist(h)) && GoodLengths(ItemHist(h.items), h.cl, 7)
  }

  lemma HeaderSpares(l: seq<nat>, d: seq<nat>, h: Header, counts: seq<nat>)
    requires ValidHeader(h) && h.hlit <= |l| && h.hdist <= |d| && HeaderLit(h) == l[..h.hlit] && HeaderDist(h) == d[..h.hdist]
    requires (h.hlit > 257 ==> l[h.hlit - 1] != 0) && (h.hdist > 1 ==> d[h.hdist - 1] != 0)
    requires h.hclen > 4 ==> h.cl[ClOrder(h.hclen - 1)] != 0
    requires h.items == Packing(l[..h.hlit] + d[..h.hdist]) && GoodLengths(counts, h.cl, 7)
    requires |counts| == 19 && forall s :: 0 <= s < 19 ==> counts[s] == ItemUses(h.items, s)
    ensures Sparing(h)
  {
    hide Packing, GoodLengths, HeaderLit, HeaderDist, ItemUses, ClOrder;
    assert counts == ItemHist(h.items);
    OrderTable(h.hclen - 1);
  }

  lemma DescribedBy(p: Packer, l: seq<nat>, d: seq<nat>, h: Header)
    requires p.Shape() && p.Counts(0, 0) && h.items == p.items && |l| == 288 && |d| == 32
    requires 257 <= h.hlit <= 286 && 1 <= h.hdist <= 30 && 4 <= h.hclen <= 19 && |h.cl| == 19
    requires Acceptable(l) && Acceptable(d) && UnusedFrom(l, h.hlit) && UnusedFrom(d, h.hdist)
    requires Unpack(h.items) == Some(l[..h.hlit] + d[..h.hdist]) && h.items == Packing(l[..h.hlit] + d[..h.hdist])
    requires (h.hlit > 257 ==> l[h.hlit - 1] != 0) && (h.hdist > 1 ==> d[h.hdist - 1] != 0)
    requires (h.hclen > 4 ==> h.cl[ClOrder(h.hclen - 1)] != 0) && forall j :: h.hclen <= j < 19 ==> h.cl[ClOrder(j)] == 0
    requires GoodLengths(p.counts[..], h.cl, 7)
    requires forall k :: 0 <= k < |h.items| ==> ValidItem(h.items[k]) && h.items[k].sym < 19 && p.counts[h.items[k].sym] > 0
    ensures ValidHeader(h) && HeaderLit(h) == l[..h.hlit] && HeaderDist(h) == d[..h.hdist] && Sparing(h)
  {
    hide Unpack, Packing, GoodLengths, Sparing, Acceptable, UnusedFrom, ValidHeader, HeaderLit, HeaderDist, Packer.Counts,
         ValidItem, ClOrder;
    HeaderOk(l, d, h, p.counts[..]);
    CountsAre(p);
    HeaderSpares(l, d, h, p.counts[..]);
  }

  lemma HeaderParts(h: Header, put: seq<bool>)
    requires ValidHeader(h)
    ensures 2 < Pow2(2) && 257 <= h.hlit && h.hlit - 257 < Pow2(5) && 1 <= h.hdist && h.hdist - 1 < Pow2(5)
    ensures 4 <= h.hclen <= 19 && h.hclen - 4 < Pow2(4) && |h.cl| == 19 && AllItems(h.cl, h.items)
    ensures forall i :: 0 <= i < 19 ==> h.cl[i] < 8
    ensures put + ToBits(2, 2) + HeaderBits(h) ==
            put + ToBits(2, 2) + ToBits(h.hlit - 257, 5) + ToBits(h.hdist - 1, 5) + ToBits(h.hclen - 4, 4) +
            ClBits(h.cl, h.hclen) + ItemsBits(h.cl, h.items)
  {
    hide ToBits, ClBits, ItemsBits, Acceptable, Unpack, HeaderLit, HeaderDist, AllItems;
    Pow2Values();
  }

  /** The header of a dynamic block and its type. */
  method PutHeader(w: BitWriter, hlit: nat, hdist: nat, hclen: nat, packed: array<nat>, n: nat, cl: HuffTable, ghost h: Header)
    requires w.Valid() && ValidHeader(h) && hlit == h.hlit && hdist == h.hdist && hclen == h.hclen
    requires cl.sizes.Length == 19 && h.cl == cl.sizes[..] && Coding(cl)
    requires {w, w.buf} !! {cl.sizes, cl.codes} && w.buf as object != packed
    requires n <= packed.Length && packed[..n] == Flat(h.items)
    modifies w, w.buf
    ensures w.Valid() && w.put == old(w.put) + ToBits(2, 2) + HeaderBits(h)
  {
    hide *;
    HeaderParts(h, w.put);
    w.PutBits(2, 2);
    w.PutBits(hlit - 257, 5);
    w.PutBits(hdist - 1, 5);
    w.PutBits(hclen - 4, 4);
    PutClLengths(w, cl.sizes, hclen);
    PutItems(w, packed, n, cl, h.items);
  }

  /** The three code tables of the compressor. */
  class Tables {
    const lit: HuffTable
    const dist: HuffTable
    const cl: HuffTable

    ghost predicate Shape() {
      lit.Shape(288) && dist.Shape(32) && cl.Shape(19) &&
      {lit.sizes, lit.codes} !! {dist.sizes, dist.codes} && {lit.sizes, lit.codes} !! {cl.sizes, cl.codes} &&
      {dist.sizes, dist.codes} !! {cl.sizes, cl.codes}
    }

    ghost predicate Apart(objects: set<object>) {
      objects !! {lit.sizes, lit.codes, dist.sizes, dist.codes, cl.sizes, cl.codes}
    }

    constructor ()
      ensures Shape() && fresh(lit.sizes) && fresh(lit.codes) && fresh(dist.sizes) && fresh(dist.codes)
      ensures fresh(cl.sizes) && fresh(cl.codes)
    {
      lit := new HuffTable(288);
      dist := new HuffTable(32);
      cl := new HuffTable(19);
    }

    /** `tdefl_start_static_block`. */
    method StartStatic(w: BitWriter)
      requires Shape() && w.Valid() && Apart({w, w.buf})
      modifies w, w.buf, lit.sizes, lit.codes, dist.sizes, dist.codes
      ensures w.Valid() && w.put == old(w.put) + ToBits(1, 2)
      ensures lit.sizes[..] == StaticLit() && dist.sizes[..] == StaticDist() && Coding(lit) && Coding(dist)
    {
      hide ToBits, CodesAt, BitWriter.Valid;
      forall i | 0 <= i < 288 {
        lit.sizes[i] := if i <= 143 then 8 else if i <= 255 then 9 else if i <= 279 then 7 else 8;
      }
      forall i | 0 <= i < 32 { dist.sizes[i] := 5; }
      lit.OptimizeStatic();
      dist.OptimizeStatic();
      assert lit.sizes[..] == StaticLit();
      assert dist.sizes[..] == StaticDist();
      Pow2Values();
      w.PutBits(1, 2);
    }

    /** The code lengths chosen for the literals and the distances of a dynamic block. */
    method Choose(litCount: array<nat>, distCount: array<nat>)
      requires Shape() && Apart({litCount, distCount}) && litCount != distCount
      requires litCount.Length == 288 && distCount.Length == 32
      requires SumCounts(litCount[..]) <= 65534 && litCount[256] == 0 && SumCounts(distCount[..]) <= 65535
      modifies litCount, lit.sizes, lit.codes, dist.sizes, dist.codes
      ensures litCount[..] == old(litCount[..])[256 := 1]
      ensures GoodLengths(litCount[..], lit.sizes[..], 15) && GoodLengths(distCount[..], dist.sizes[..], 15)
      ensures Coding(lit) && Coding(dist)
    {
      hide CodesAt, SumCounts, GoodLengths;
      Pow2Values();
      ghost var c, d := litCount[..], distCount[..];
      SumUpdate(c, 256, 1);
      litCount[256] := 1;
      assert litCount[..] == c[256 := 1] && distCount[..] == d;
      lit.OptimizeDynamic(litCount, 15);
      ghost var l := lit.sizes[..];
      assert litCount[..] == c[256 := 1] && distCount[..] == d;
      dist.OptimizeDynamic(distCount, 15);
      assert litCount[..] == c[256 := 1] && distCount[..] == d && lit.sizes[..] == l;
      GoodValid(c[256 := 1], l);
      GoodValid(d, dist.sizes[..]);
    }

    /** The header of a dynamic block: trailing unused symbols left out, the rest packed. */
    method Describe() returns (hlit: nat, hdist: nat, hclen: nat, p: Packer, ghost h: Header)
      requires Shape() && Acceptable(lit.sizes[..]) && Acceptable(dist.sizes[..])
      requires UnusedFrom(lit.sizes[..], 286) && UnusedFrom(dist.sizes[..], 30)
      modifies cl.sizes, cl.codes
      ensures fresh(p) && fresh(p.packed) && fresh(p.counts) && p.n <= p.packed.Length && p.packed[..p.n] == Flat(h.items)
      ensures hlit == h.hlit && hdist == h.hdist && hclen == h.hclen
      ensures ValidHeader(h) && h.cl == cl.sizes[..] && Coding(cl)
      ensures UnusedFrom(lit.sizes[..], h.hlit) && UnusedFrom(dist.sizes[..], h.hdist)
      ensures HeaderLit(h) == lit.sizes[..][..h.hlit] && HeaderDist(h) == dist.sizes[..][..h.hdist] && Sparing(h)
    {
      hide Packer.Counts, Unpack, Flat, Kraft, UsedSyms, GoodLengths, SumCounts, Packing, Sparing;
      ghost var l, d := lit.sizes[..], dist.sizes[..];
      hlit := CountCodes(lit.sizes, 286, 257);
      hdist := CountCodes(dist.sizes, 30, 1);
      p := PackSizes(lit.sizes, hlit, dist.sizes, hdist);
      assert lit.sizes[..hlit] == l[..hlit] && dist.sizes[..hdist] == d[..hdist];
      PackedCounts(p);
      cl.OptimizeDynamic(p.counts, 7);
      assert lit.sizes[..] == l && dist.sizes[..] == d;
      hclen := CountClCodes(cl.sizes);
      h := Header(hlit, hdist, hclen, cl.sizes[..], p.items);
      DescribedBy(p, l, d, h);
    }

    /** `tdefl_start_dynamic_block`: exactly the symbols counted, and end-of-block, get codes. */
    method StartDynamic(w: BitWriter, litCount: array<nat>, distCount: array<nat>) returns (ghost h: Header)
      requires Shape() && w.Valid() && Apart({litCount, distCount, w, w.buf})
      requires litCount.Length == 288 && distCount.Length == 32 && litCount != distCount
      requires {w, w.buf} !! {litCount, distCount}
      requires SumCounts(litCount[..]) <= 65534 && SumCounts(distCount[..]) <= 65535
      requires litCount[256] == litCount[286] == litCount[287] == 0 && distCount[30] == distCount[31] == 0
      modifies w, w.buf, litCount, lit.sizes, lit.codes, dist.sizes, dist.codes, cl.sizes, cl.codes
      ensures ValidHeader(h) && Coding(lit) && Coding(dist)
      ensures w.Valid() && w.put == old(w.put) + ToBits(2, 2) + HeaderBits(h)
      ensures litCount[..] == old(litCount[..])[256 := 1]
      ensures GoodLengths(litCount[..], lit.sizes[..], 15) && GoodLengths(distCount[..], dist.sizes[..], 15)
      ensures UnusedFrom(lit.sizes[..], h.hlit) && UnusedFrom(dist.sizes[..], h.hdist)
      ensures HeaderLit(h) == lit.sizes[..][..h.hlit] && HeaderDist(h) == dist.sizes[..][..h.hdist] && Sparing(h)
    {
      hide BitWriter.Valid, HuffTable.Ready, SumCounts, GoodLengths, UnusedFrom, ValidHeader, HeaderLit, HeaderDist, HeaderBits,
           Acceptable, ValidLens, Unpack, Flat, ToBits, Sparing;
      ghost var put := w.put;
      Choose(litCount, distCount);
      ghost var l, d, c, e := lit.sizes[..], dist.sizes[..], litCount[..], distCount[..];
      GoodUnused(c, l, 286);
      GoodUnused(e, d, 30);
      GoodValid(c, l);
      GoodValid(e, d);
      var hlit, hdist, hclen, p;
      hlit, hdist, hclen, p, h := Describe();
      assert lit.sizes[..] == l && dist.sizes[..] == d && litCount[..] == c && distCount[..] == e;
      PutHeader(w, hlit, hdist, hclen, p.packed, p.n, cl, h);
      assert lit.sizes[..] == l && dist.sizes[..] == d && litCount[..] == c && distCount[..] == e;
    }
  }
}
