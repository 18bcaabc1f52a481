/** Every dynamic block fits the output buffer. */
module BlockSizes {
  import opened Bits
  import opened Canonical
  import opened Blocks
  import opened TokenBuffers
  import opened RoundTrip
  import opened BitOutput
  import opened BlockEmitter

  /** Every item stands for at least one length. */
  lemma {:induction false} ItemsCount(items: seq<ClItem>)
    requires Unpack(items).Some?
    ensures |items| <= |Unpack(items).value|
  {
    hide UnpackItem;
    if items != [] {
      ItemsCount(items[..|items| - 1]);
      UnpackGrows(Unpack(items[..|items| - 1]).value, items[|items| - 1]);
    }
  }

  lemma {:induction false} ItemsBound(cl: seq<nat>, items: seq<ClItem>)
    requires AllItems(cl, items) && forall i :: 0 <= i < |cl| ==> cl[i] < 8
    ensures |ItemsBits(cl, items)| <= 14 * |items|
  {
    hide CodeBits;
    if items != [] { ItemsBound(cl, items[..|items| - 1]); }
  }

  lemma HeaderBound(h: Header)
    requires ValidHeader(h)
    ensures Unpack(h.items).Some? && |Unpack(h.items).value| == h.hlit + h.hdist
    ensures |HeaderBits(h)| <= 4551
  {
    hide ItemsBits, ClBits, ToBits, Unpack, Kraft, UsedSyms;
    ItemsCount(h.items);
    ItemsBound(h.cl, h.items);
  }

  /** Every dynamic block fits the output buffer, with what goes before and after it. */
  lemma DynamicFits(p: nat, b: Block)
    requires ValidBlock(b) && b.Dynamic? && WellCoded(b) && AllTokens(b.tokens)
    ensures |BlockTail(p, b)| < 8 * OUT_BUF_END - 100
  {
    hide ValidHeader, HeaderBits, HeaderLit, HeaderDist, BodyBits, ToBits, ValidLens, NeedsShortening;
    HeaderBound(b.header);
    TailIs([], b);
  }
}
