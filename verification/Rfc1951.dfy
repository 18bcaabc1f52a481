/** The tables and codes that compressor and decompressor share, in the numbers of RFC 1951
    (sections 3.2.2 and 3.2.5 to 3.2.7) and of the source's arrays. */
module Rfc1951 {
  import opened Bits
  import opened Canonical
  import opened Deflate
  import opened Blocks
  import opened Inflate
  import opened RoundTrip

  // ---------------------------------------------------------------- lengths and distances

  /** `s_length_base` and `s_length_extra`. */
  lemma LengthTable(k: nat)
    requires k < 29
    ensures LengthBase(k) == [3, 4, 5, 6, 7, 8, 9, 10, 11, 13, 15, 17, 19, 23, 27, 31, 35, 43, 51, 59, 67, 83, 99, 115,
                              131, 163, 195, 227, 258][k]
    ensures LengthExtra(k) == [0, 0, 0, 0, 0, 0, 0, 0, 1, 1, 1, 1, 2, 2, 2, 2, 3, 3, 3, 3, 4, 4, 4, 4, 5, 5, 5, 5, 0][k]
  {
    hide Pow2;
    Pow2Values();
  }

  /** `s_dist_base` and `s_dist_extra`. */
  lemma DistanceTable(k: nat)
    requires k < 30
    ensures DistanceBase(k) == [1, 2, 3, 4, 5, 7, 9, 13, 17, 25, 33, 49, 65, 97, 129, 193, 257, 385, 513, 769, 1025, 1537,
                                2049, 3073, 4097, 6145, 8193, 12289, 16385, 24577][k]
    ensures DistanceExtra(k) == [0, 0, 0, 0, 1, 1, 2, 2, 3, 3, 4, 4, 5, 5, 6, 6, 7, 7, 8, 8, 9, 9, 10, 10, 11, 11, 12, 12,
                                 13, 13][k]
  {
    hide Pow2;
    Pow2Values();
  }

  lemma NextLength(k: nat)
    requires k < 28
    ensures LengthBase(k + 1) == if k == 27 then 258 else LengthBase(k) + Pow2(LengthExtra(k))
  {
    hide Pow2, LengthBase, LengthExtra;
    Pow2Values();
    LengthTable(k);
    LengthTable(k + 1);
  }

  lemma LowBelow(v: nat, n: nat)
    ensures Low(v, n) < Pow2(n)
  {
  }

  /** The code of a match length is the last whose base does not exceed it. */
  lemma LengthSymbol(i: nat)
    requires i < 256
    ensures var k := LenSym(i) - 257;
            0 <= k < 29 && LengthBase(k) <= i + 3 && (k < 28 ==> i + 3 < LengthBase(k + 1)) && LenExtra(i) == LengthExtra(k)
  {
    hide LengthBase, LengthExtra, Low, Pow2;
    LengthInverse(i);
    LowBelow(i, LenExtra(i));
    var k := LenSym(i) - 257;
    if k < 28 { NextLength(k); }
  }

  lemma NextDistance(k: nat)
    requires k < 29
    ensures DistanceBase(k + 1) == DistanceBase(k) + Pow2(DistanceExtra(k))
  {
    hide Pow2, DistanceBase, DistanceExtra;
    Pow2Values();
    DistanceTable(k);
    DistanceTable(k + 1);
  }

  /** The code of a distance is the last whose base does not exceed it. */
  lemma DistanceSymbol(d: nat)
    requires d < 32768
    ensures var k := DistSym(d);
            DistanceBase(k) <= d + 1 && (k < 29 ==> d + 1 < DistanceBase(k + 1)) && DistExtra(d) == DistanceExtra(k)
  {
    hide DistanceBase, DistanceExtra, DistSym, DistExtra, Low, Pow2;
    DistanceInverse(d);
    LowBelow(d, DistExtra(d));
    if DistSym(d) < 29 { NextDistance(DistSym(d)); }
  }

  // ---------------------------------------------------------------- headers

  /** `s_length_dezigzag` and `s_tdefl_packed_code_size_syms_swizzle`. */
  lemma OrderTable(j: nat)
    requires j < 19
    ensures ClOrder(j) == [16, 17, 18, 0, 8, 7, 9, 6, 10, 5, 11, 4, 12, 3, 13, 2, 14, 1, 15][j]
  {
  }

  /** The extra bits of the repeats 16, 17 and 18 and the least run of each. */
  lemma RepeatTable(sym: nat)
    requires sym < 19
    ensures if sym < 16 then ClExtraBits(sym) == 0
            else ClExtraBits(sym) == [2, 3, 7][sym - 16] && ClBase(sym) == [3, 3, 11][sym - 16]
  {
  }

  /** What each symbol of the packed code lengths adds to them. */
  lemma RepeatMeaning(acc: seq<nat>, it: ClItem)
    requires ValidItem(it)
    ensures it.sym <= 15 ==> UnpackItem(acc, it) == Some(acc + [it.sym])
    ensures it.sym == 16 ==>
              it.extra < 4 &&
              UnpackItem(acc, it) == if acc == [] then None else Some(acc + seq(3 + it.extra, (i: nat) => acc[|acc| - 1]))
    ensures it.sym == 17 ==> it.extra < 8 && UnpackItem(acc, it) == Some(acc + seq(3 + it.extra, (i: nat) => 0))
    ensures it.sym == 18 ==> it.extra < 128 && UnpackItem(acc, it) == Some(acc + seq(11 + it.extra, (i: nat) => 0))
  {
    hide Pow2;
    Pow2Values();
    if it.sym == 16 && acc != [] {
      assert Repeat(acc[|acc| - 1], 3 + it.extra) == seq(3 + it.extra, (i: nat) => acc[|acc| - 1]);
    } else if it.sym == 17 {
      assert Repeat(0, 3 + it.extra) == seq(3 + it.extra, (i: nat) => 0);
    } else if it.sym == 18 {
      assert Repeat(0, 11 + it.extra) == seq(11 + it.extra, (i: nat) => 0);
    }
  }

  // ---------------------------------------------------------------- codes

  /** Section 3.2.6: the lengths of the static codes. */
  lemma StaticLengths(s: nat)
    requires s < 288
    ensures StaticLit()[s] == if s <= 143 then 8 else if s <= 255 then 9 else if s <= 279 then 7 else 8
    ensures s < 32 ==> StaticDist()[s] == 5
  {
  }

  lemma {:induction false} ToBitsAt(v: nat, n: nat, k: nat)
    requires k < n
    ensures ToBits(v, n)[k] == (v / Pow2(k) % 2 == 1)
  {
    if k > 0 {
      ToBitsAt(v / 2, n - 1, k - 1);
      DivDiv(v, 2, Pow2(k - 1));
    }
  }

  /** Bits of a code stand in the stream from the most significant on. */
  lemma CodeBitAt(lens: seq<nat>, s: nat, i: nat)
    requires s < |lens| && i < lens[s]
    ensures CodeBits(lens, s)[i] == (CodeVal(lens, s) / Pow2(lens[s] - 1 - i) % 2 == 1)
  {
    hide Pow2, CodeVal;
    ToBitsAt(CodeVal(lens, s), lens[s], lens[s] - 1 - i);
  }

  lemma {:induction false} FirstCodeRun(lens: seq<nat>, l: nat, a: nat, b: nat, k: nat)
    requires a <= b <= |lens| && forall i :: a <= i < b ==> lens[i] == k
    ensures FirstCode(lens, l, b) == FirstCode(lens, l, a) + (b - a) * (if 0 < k < l then Pow2(l - k) else 0)
    decreases b
  {
    hide Pow2;
    if a < b {
      FirstCodeRun(lens, l, a, b - 1, k);
      MulDistrib(b - 1 - a, 1, if 0 < k < l then Pow2(l - k) else 0);
    }
  }

  lemma {:induction false} CountRun(lens: seq<nat>, l: nat, a: nat, b: nat, k: nat)
    requires a <= b <= |lens| && forall i :: a <= i < b ==> lens[i] == k
    ensures CountLen(lens, l, b) == CountLen(lens, l, a) + (if k == l then b - a else 0)
    decreases b
  {
    if a < b { CountRun(lens, l, a, b - 1, k); }
  }

  lemma NothingBefore(lens: seq<nat>, l: nat)
    ensures FirstCode(lens, l, 0) == 0 && CountLen(lens, l, 0) == 0
  {
  }

  lemma StaticFirst(l: nat)
    requires 7 <= l <= 9
    ensures FirstCode(StaticLit(), l, 288) == if l == 7 then 0 else if l == 8 then 48 else 400
  {
    hide Pow2, FirstCode, StaticLit;
    var lens := StaticLit();
    Pow2Values();
    forall s | 0 <= s < 288 ensures lens[s] == if s <= 143 then 8 else if s <= 255 then 9 else if s <= 279 then 7 else 8 {
      StaticLengths(s);
    }
    NothingBefore(lens, l);
    FirstCodeRun(lens, l, 0, 144, 8);
    FirstCodeRun(lens, l, 144, 256, 9);
    FirstCodeRun(lens, l, 256, 280, 7);
    FirstCodeRun(lens, l, 280, 288, 8);
  }

  /** Section 3.2.6: the static codes, as numbers. */
  lemma StaticCodes(s: nat)
    requires s < 288
    ensures CodeVal(StaticLit(), s) ==
            if s <= 143 then 0x30 + s else if s <= 255 then 0x190 + (s - 144) else if s <= 279 then s - 256 else 0xc0 + (s - 280)
  {
    hide FirstCode, CountLen, StaticLit;
    var lens := StaticLit();
    forall i | 0 <= i < 288 ensures lens[i] == if i <= 143 then 8 else if i <= 255 then 9 else if i <= 279 then 7 else 8 {
      StaticLengths(i);
    }
    var l := lens[s];
    StaticFirst(l);
    NothingBefore(lens, l);
    CountRun(lens, l, 0, Min(s, 144), 8);
    if s > 144 { CountRun(lens, l, 144, Min(s, 256), 9); }
    if s > 256 { CountRun(lens, l, 256, Min(s, 280), 7); }
    if s > 280 { CountRun(lens, l, 280, s, 8); }
  }

  lemma {:induction false} NoneBetween(lens: seq<nat>, l: nat, a: nat, b: nat)
    requires a <= b <= |lens| && forall i :: a <= i < b ==> lens[i] != l
    ensures CountLen(lens, l, b) == CountLen(lens, l, a)
    decreases b
  {
    if a < b { NoneBetween(lens, l, a, b - 1); }
  }

  /** Section 3.2.2: codes of one length are consecutive, in the order of their symbols. */
  lemma NextCode(lens: seq<nat>, s: nat, t: nat)
    requires s < t < |lens| && lens[s] == lens[t] && forall i :: s < i < t ==> lens[i] != lens[s]
    ensures CodeVal(lens, t) == CodeVal(lens, s) + 1
  {
    hide FirstCode;
    NoneBetween(lens, lens[s], s + 1, t);
  }

  /** Section 3.2.2: the codes of its example. */
  lemma ExampleCodes(s: nat)
    requires s < 8
    ensures CodeVal([3, 3, 3, 3, 3, 2, 4, 4], s) == [2, 3, 4, 5, 6, 0, 14, 15][s]
  {
    hide Pow2, FirstCode, CountLen;
    var lens: seq<nat> := [3, 3, 3, 3, 3, 2, 4, 4];
    Pow2Values();
    var l := lens[s];
    NothingBefore(lens, l);
    FirstCodeRun(lens, l, 0, 5, 3);
    FirstCodeRun(lens, l, 5, 6, 2);
    FirstCodeRun(lens, l, 6, 8, 4);
    CountRun(lens, l, 0, Min(s, 5), 3);
    if s > 5 { CountRun(lens, l, 5, 6, 2); }
    if s > 6 { CountRun(lens, l, 6, s, 4); }
  }

  // ---------------------------------------------------------------- the order of a dynamic header

  lemma {:induction false} ClBitsAt(cl: seq<nat>, n: nat, j: nat)
    requires |cl| == 19 && j < n <= 19
    ensures ClBits(cl, n)[3 * j..3 * j + 3] == ToBits(cl[[16, 17, 18, 0, 8, 7, 9, 6, 10, 5, 11, 4, 12, 3, 13, 2, 14, 1, 15][j]], 3)
  {
    hide ToBits, ClOrder;
    OrderTable(j);
    var b := ClBits(cl, n - 1);
    if j < n - 1 {
      ClBitsAt(cl, n - 1, j);
      assert ClBits(cl, n)[3 * j..3 * j + 3] == b[3 * j..3 * j + 3];
    }
  }

  lemma {:induction false} ClLensAt(s: seq<bool>, p: nat, n: nat, j: nat)
    requires n <= 19 && j < 19
    ensures ClLens(s, p, n)[[16, 17, 18, 0, 8, 7, 9, 6, 10, 5, 11, 4, 12, 3, 13, 2, 14, 1, 15][j]] ==
            if j < n then Num(s, p + 3 * j, 3) else 0
  {
    hide Num, ClOrder;
    OrderTable(j);
    if n > 0 {
      Pow2Values();
      ClLensAt(s, p, n - 1, j);
      if ClOrder(n - 1) == ClOrder(j) { ClOrderInjective(n - 1, j); }
    }
  }

  /** The fields of a dynamic header, in their order in the stream. */
  lemma HeaderFields(h: Header, j: nat)
    requires ValidHeader(h) && j < h.hclen
    ensures var b := HeaderBits(h);
            |b| >= 14 + 3 * h.hclen && b[..5] == ToBits(h.hlit - 257, 5) && b[5..10] == ToBits(h.hdist - 1, 5) &&
            b[10..14] == ToBits(h.hclen - 4, 4) &&
            b[14 + 3 * j..17 + 3 * j] ==
            ToBits(h.cl[[16, 17, 18, 0, 8, 7, 9, 6, 10, 5, 11, 4, 12, 3, 13, 2, 14, 1, 15][j]], 3)
  {
    hide ToBits, ClOrder, ClBits, ItemsBits, Acceptable, Unpack, AllItems, HeaderLit, HeaderDist;
    ClBitsAt(h.cl, h.hclen, j);
    var c, b := ClBits(h.cl, h.hclen), HeaderBits(h);
    assert b[14 + 3 * j..17 + 3 * j] == c[3 * j..3 * j + 3];
  }
}
