/** Decoding one symbol (`TINFL_HUFF_DECODE`): the fast path with two bytes fetched ahead,
    and the slow one near the end of the input, which fetches no byte it does not need. */
module HuffDecode {
  import opened Bits
  import opened Canonical
  import opened Blocks
  import opened Inflate
  import opened RoundTrip
  import opened DecodeTables
  import opened BitInput

  // ---------------------------------------------------------------- what the tables answer

  lemma LookAt(lens: seq<nat>, lookUp: seq<int>, tree: seq<int>, nodes: seq<seq<bool>>, w: seq<bool>)
    requires TableOk(lens, |lens|, lookUp, tree, nodes) && |w| >= LOOKUP_BITS
    ensures |lookUp| == LOOKUP_SIZE && Low(FromBits(w), LOOKUP_BITS) < LOOKUP_SIZE
    ensures LookSlot(lens, |lens|, nodes, w[..LOOKUP_BITS], lookUp[Low(FromBits(w), LOOKUP_BITS)])
  {
    hide LookSlot, ToBits, FromBits, Low, AllTree, Paths;
    FirstTen(w);
  }

  lemma ShortPrefix(lens: seq<nat>, w: seq<bool>, s: nat)
    requires s < |lens| && |w| >= LOOKUP_BITS && lens[s] <= LOOKUP_BITS
    ensures Matches(lens, s, w) <==> ShortIs(lens, |lens|, w[..LOOKUP_BITS], s)
  {
    hide CodeBits;
    assert w[..LOOKUP_BITS][..lens[s]] == w[..lens[s]];
  }

  /** The look-up entry for bits that start with the code of `s`. */
  lemma LookFor(lens: seq<nat>, lookUp: seq<int>, tree: seq<int>, nodes: seq<seq<bool>>, w: seq<bool>, s: nat) returns (k: nat)
    requires TableOk(lens, |lens|, lookUp, tree, nodes) && |w| >= LOOKUP_BITS && s < |lens| && Matches(lens, s, w)
    ensures |lookUp| == LOOKUP_SIZE && Low(FromBits(w), LOOKUP_BITS) < LOOKUP_SIZE
    ensures var v := lookUp[Low(FromBits(w), LOOKUP_BITS)];
            if lens[s] <= LOOKUP_BITS then v == lens[s] * 512 + s
            else k < |nodes| && nodes[k] == w[..LOOKUP_BITS] && v == NodeRef(k)
  {
    hide ToBits, FromBits, Low, AllTree, AllLook, CodeBits, ShortIs;
    LookAt(lens, lookUp, tree, nodes, w);
    k := 0;
    if lens[s] <= LOOKUP_BITS {
      ShortPrefix(lens, w, s);
    } else {
      PathAt(lens, |lens|, nodes, s, LOOKUP_BITS);
      assert CodeBits(lens, s)[..LOOKUP_BITS] == w[..LOOKUP_BITS] by {
        assert w[..lens[s]][..LOOKUP_BITS] == w[..LOOKUP_BITS];
      }
      k :| k < |nodes| && nodes[k] == w[..LOOKUP_BITS];
    }
  }

  /** The entry of a node on the way to the code of `s`: the symbol, or the next node. */
  lemma TreeFor(lens: seq<nat>, lookUp: seq<int>, tree: seq<int>, nodes: seq<seq<bool>>, w: seq<bool>, s: nat, k: nat, d: nat)
    returns (l: nat)
    requires TableOk(lens, |lens|, lookUp, tree, nodes) && s < |lens| && Matches(lens, s, w)
    requires k < |nodes| && LOOKUP_BITS <= d < lens[s] && nodes[k] == w[..d]
    ensures |tree| == TREE_SIZE && SlotOf(k, w[d]) < TREE_SIZE
    ensures var v := tree[SlotOf(k, w[d])];
            if d + 1 == lens[s] then v == s else l < |nodes| && nodes[l] == w[..d + 1] && v == NodeRef(l)
  {
    hide AllLook, CodeBits, SlotOf;
    var q := w[..d + 1];
    assert q == nodes[k] + [w[d]];
    assert TreeSlot(lens, |lens|, nodes, q, tree[SlotOf(k, w[d])]);
    l := 0;
    if d + 1 == lens[s] {
      assert CodeIs(lens, |lens|, q, s);
    } else {
      PathAt(lens, |lens|, nodes, s, d + 1);
      assert CodeBits(lens, s)[..d + 1] == q by {
        assert w[..lens[s]][..d + 1] == q;
      }
      l :| l < |nodes| && nodes[l] == q;
    }
  }

  lemma ShortParts(lens: seq<nat>, r: seq<bool>, s: nat)
    requires ShortIs(lens, |lens|, r, s)
    ensures s < |lens| && lens[s] <= LOOKUP_BITS
  {
  }

  /** A look-up entry above zero is a symbol whose code starts the bits. */
  lemma LookSays(lens: seq<nat>, lookUp: seq<int>, tree: seq<int>, nodes: seq<seq<bool>>, w: seq<bool>)
    requires TableOk(lens, |lens|, lookUp, tree, nodes) && |w| >= LOOKUP_BITS
    ensures |lookUp| == LOOKUP_SIZE && Low(FromBits(w), LOOKUP_BITS) < LOOKUP_SIZE
    ensures var v := lookUp[Low(FromBits(w), LOOKUP_BITS)];
            v > 0 ==> v % 512 < |lens| && Matches(lens, v % 512, w) && v / 512 == lens[v % 512]
  {
    hide ToBits, FromBits, Low, AllTree, AllLook, Paths, Matches, ShortIs;
    LookAt(lens, lookUp, tree, nodes, w);
    var v := lookUp[Low(FromBits(w), LOOKUP_BITS)];
    if v > 0 {
      ShortParts(lens, w[..LOOKUP_BITS], v % 512);
      ShortPrefix(lens, w, v % 512);
    }
  }

  // ---------------------------------------------------------------- the bits at hand

  /** The bit buffer as the tables see it: the bits held, and zeros. */
  function Window(s: seq<bool>, p: nat, n: nat): (w: seq<bool>)
    ensures |w| == n + 16
  {
    Peek(s, p, n) + Zeros(16)
  }

  lemma WindowValue(s: seq<bool>, p: nat, n: nat)
    ensures FromBits(Window(s, p, n)) == FromBits(Peek(s, p, n))
  {
    hide FromBits, Peek;
    FromBitsConcat(Peek(s, p, n), Zeros(16));
    FromZeros(16);
  }

  lemma WindowMatch(lens: seq<nat>, s: seq<bool>, p: nat, n: nat, sym: nat)
    requires sym < |lens| && lens[sym] <= 15 && lens[sym] <= n
    ensures Matches(lens, sym, Window(s, p, n)) <==> Matches(lens, sym, Peek(s, p, 15))
  {
    hide CodeBits;
    var l := lens[sym];
    PeekSplit(s, p, n, l);
    PeekSplit(s, p, 15, l);
    assert Window(s, p, n)[..l] == Peek(s, p, n)[..l];
  }

  lemma SymFacts(lens: seq<nat>, s: seq<bool>, p: nat, sym: nat)
    requires Acceptable(lens) && DecodeSym(lens, s, p) == Some(sym)
    ensures sym < |lens| && 0 < lens[sym] <= 15 && Matches(lens, sym, Peek(s, p, 15))
  {
    hide Kraft, UsedSyms, CodeBits;
  }

  /** Another symbol whose code starts the bits is the same one. */
  lemma SymUnique(lens: seq<nat>, s: seq<bool>, p: nat, sym: nat, other: nat)
    requires Acceptable(lens) && DecodeSym(lens, s, p) == Some(sym) && other < |lens| && Matches(lens, other, Peek(s, p, 15))
    ensures other == sym
  {
    hide Kraft, UsedSyms, CodeBits;
    AcceptableKraft(lens);
    MatchUnique(lens, other, sym, Peek(s, p, 15));
  }

  /** With `n` bits held, what the look-up entry says about the symbol to be decoded. */
  ghost predicate Answers(lens: seq<nat>, nodes: seq<seq<bool>>, s: seq<bool>, p: nat, n: nat, sym: nat, v: int, k: nat)
    requires sym < |lens|
  {
    (lens[sym] <= n && lens[sym] <= LOOKUP_BITS ==> v == lens[sym] * 512 + sym) &&
    (v >= 0 && 0 < v / 512 <= n ==> v / 512 == lens[sym]) &&
    (LOOKUP_BITS <= n && lens[sym] > LOOKUP_BITS ==>
      k < |nodes| && nodes[k] == Peek(s, p, 15)[..LOOKUP_BITS] && v == NodeRef(k))
  }

  lemma WindowMatchLong(lens: seq<nat>, s: seq<bool>, p: nat, n: nat, sym: nat)
    requires Acceptable(lens) && sym < |lens| && lens[sym] <= n && Matches(lens, sym, Window(s, p, n))
    ensures Matches(lens, sym, Peek(s, p, 15))
  {
    hide Kraft, UsedSyms, Matches, Window, Peek;
    WindowMatch(lens, s, p, n, sym);
  }

  /** Once ten bits are held, they are the index. */
  lemma SameTen(s: seq<bool>, p: nat, n: nat)
    requires n >= LOOKUP_BITS
    ensures Low(FromBits(Peek(s, p, n)), LOOKUP_BITS) == Low(FromBits(Peek(s, p, 15)), LOOKUP_BITS)
  {
    hide FromBits, Low, Peek;
    PeekSplit(s, p, n, LOOKUP_BITS);
    PeekSplit(s, p, 15, LOOKUP_BITS);
    SplitBits(Peek(s, p, n), LOOKUP_BITS);
    SplitBits(Peek(s, p, 15), LOOKUP_BITS);
  }

  lemma FirstLook(lens: seq<nat>, lookUp: seq<int>, tree: seq<int>, nodes: seq<seq<bool>>, s: seq<bool>, p: nat, n: nat, sym: nat)
    returns (k: nat)
    requires Acceptable(lens) && |lens| <= 288 && TableOk(lens, |lens|, lookUp, tree, nodes)
    requires DecodeSym(lens, s, p) == Some(sym)
    ensures sym < |lens| && |lookUp| == LOOKUP_SIZE && Low(FromBits(Peek(s, p, n)), LOOKUP_BITS) < LOOKUP_SIZE
    ensures Answers(lens, nodes, s, p, n, sym, lookUp[Low(FromBits(Peek(s, p, n)), LOOKUP_BITS)], k)
  {
    hide TableOk, Acceptable, Matches, FromBits, Low, Peek, NodeRef, DecodeSym, Window;
    SymFacts(lens, s, p, sym);
    WindowValue(s, p, n);
    var w := Window(s, p, n);
    LookSays(lens, lookUp, tree, nodes, w);
    var v := lookUp[Low(FromBits(w), LOOKUP_BITS)];
    if v > 0 && v / 512 <= n {
      WindowMatchLong(lens, s, p, n, v % 512);
      SymUnique(lens, s, p, sym, v % 512);
    }
    k := 0;
    if lens[sym] <= n && lens[sym] <= LOOKUP_BITS {
      WindowMatch(lens, s, p, n, sym);
      k := LookFor(lens, lookUp, tree, nodes, w, sym);
    } else if LOOKUP_BITS <= n && lens[sym] > LOOKUP_BITS {
      k := LookFor(lens, lookUp, tree, nodes, Peek(s, p, 15), sym);
      SameTen(s, p, n);
    }
  }

  /** A bit that is held, read by shifting. */
  lemma HeldBit(s: seq<bool>, p: nat, n: nat, d: nat)
    requires d < n && d < 15
    ensures (Shr(FromBits(Peek(s, p, n)), d) % 2 == 1) == Peek(s, p, 15)[d]
  {
    hide FromBits, Shr;
    BitOfFrom(Peek(s, p, n), d);
  }

  // ---------------------------------------------------------------- decoding

  lemma NodeSlot(k: nat, b: bool)
    ensures -NodeRef(k) - 1 + (if b then 1 else 0) == SlotOf(k, b)
  {
  }

  /** One step down the tree, with the bit at depth `d`. */
  method StepDown(t: DecodeTable, bitBuf: nat, temp: int, d: nat,
                  ghost lens: seq<nat>, ghost s: seq<bool>, ghost p: nat, ghost n: nat, ghost sym: nat, ghost k: nat)
    returns (next: int, ghost l: nat)
    requires t.Ready(lens) && DecodeSym(lens, s, p) == Some(sym) && bitBuf == FromBits(Peek(s, p, n))
    requires sym < |lens| && LOOKUP_BITS <= d < n && d < lens[sym]
    requires k < |t.nodes| && t.nodes[k] == Peek(s, p, 15)[..d] && temp == NodeRef(k)
    ensures if d + 1 == lens[sym] then next == sym
            else d + 1 < 15 && l < |t.nodes| && t.nodes[l] == Peek(s, p, 15)[..d + 1] && next == NodeRef(l)
  {
    hide TableOk, Acceptable, Matches, FromBits, Shr, Peek, NodeRef, SlotOf, DecodeSym;
    SymFacts(lens, s, p, sym);
    l := TreeFor(lens, t.lookUp[..], t.tree[..], t.nodes, Peek(s, p, 15), sym, k, d);
    HeldBit(s, p, n, d);
    NodeSlot(k, Peek(s, p, 15)[d]);
    next := t.tree[(-temp - 1) + Shr(bitBuf, d) % 2];
  }

  lemma NodeNegative(k: nat)
    ensures NodeRef(k) < 0
  {
  }

  /** The test of `TINFL_HUFF_BITBUF_FILL`: do the bits held determine a symbol? */
  method Determined(t: DecodeTable, bitBuf: nat, numBits: nat,
                    ghost lens: seq<nat>, ghost s: seq<bool>, ghost p: nat, ghost sym: nat) returns (enough: bool)
    requires t.Ready(lens) && DecodeSym(lens, s, p) == Some(sym) && sym < |lens|
    requires numBits < 15 && bitBuf == FromBits(Peek(s, p, numBits))
    ensures enough <==> lens[sym] <= numBits
  {
    hide TableOk, Acceptable, Matches, FromBits, Low, Peek, NodeRef, DecodeSym;
    SymFacts(lens, s, p, sym);
    ghost var k: nat := FirstLook(lens, t.lookUp[..], t.tree[..], t.nodes, s, p, numBits, sym);
    var temp := t.lookUp[Low(bitBuf, LOOKUP_BITS)];
    if temp >= 0 {
      var codeLen := temp / 512;
      NodeNegative(k);
      return codeLen != 0 && numBits >= codeLen;
    } else if numBits > LOOKUP_BITS {
      var codeLen := LOOKUP_BITS;
      temp, k := StepDown(t, bitBuf, temp, codeLen, lens, s, p, numBits, sym, k);
      codeLen := codeLen + 1;
      NodeNegative(k);
      while temp < 0 && numBits >= codeLen + 1
        invariant LOOKUP_BITS < codeLen <= numBits && codeLen <= lens[sym]
        invariant if codeLen == lens[sym] then temp == sym
                  else codeLen < 15 && k < |t.nodes| && t.nodes[k] == Peek(s, p, 15)[..codeLen] && temp == NodeRef(k) < 0
        decreases numBits - codeLen
      {
        temp, k := StepDown(t, bitBuf, temp, codeLen, lens, s, p, numBits, sym, k);
        NodeNegative(k);
        codeLen := codeLen + 1;
      }
      return temp >= 0;
    }
    return false;
  }

  /** `TINFL_HUFF_BITBUF_FILL`: fetch bytes one at a time until they determine a symbol. */
  method FillBits(t: DecodeTable, r: BitReader, ghost lens: seq<nat>, ghost sym: nat)
    requires t.Ready(lens) && r.Valid() && r.numBits < 15 && DecodeSym(lens, r.S(), r.Pos()) == Some(sym) && sym < |lens|
    modifies r
    ensures r.Holds() && r.Pos() == old(r.Pos()) && lens[sym] <= r.numBits <= 22
    ensures if lens[sym] <= old(r.numBits) then r.numBits == old(r.numBits) else r.numBits < lens[sym] + 8
    ensures r.pads > 0 ==> r.numBits < lens[sym] + 8
  {
    hide TableOk, Acceptable, Matches, FromBits, Peek, DecodeSym, BytesToBits;
    SymFacts(lens, r.S(), r.Pos(), sym);
    ghost var p := r.Pos();
    while true
      invariant r.Holds() && r.Pos() == p && r.numBits < 15 && (r.pads > 0 ==> r.numBits < lens[sym] + 8)
      invariant r.numBits == old(r.numBits) || old(r.numBits) < r.numBits < lens[sym] + 8
      invariant lens[sym] <= old(r.numBits) ==> r.numBits == old(r.numBits)
      decreases 15 - r.numBits
    {
      var enough := Determined(t, r.bitBuf, r.numBits, lens, r.S(), p, sym);
      if enough { break; }
      r.MoreInput();
      if r.numBits >= 15 { break; }
    }
  }

  /** The end of `TINFL_HUFF_DECODE`: look the symbol up. `raw` is the table entry, which
      for a short code has the length above the symbol. */
  method LookUp(t: DecodeTable, bitBuf: nat, ghost n: nat, ghost lens: seq<nat>, ghost s: seq<bool>, ghost p: nat, ghost sym: nat)
    returns (raw: nat, codeLen: nat)
    requires t.Ready(lens) && DecodeSym(lens, s, p) == Some(sym) && sym < |lens|
    requires bitBuf == FromBits(Peek(s, p, n)) && lens[sym] <= n
    ensures raw % 512 == sym && codeLen == lens[sym]
  {
    hide TableOk, Acceptable, Matches, FromBits, Low, Peek, NodeRef, DecodeSym;
    SymFacts(lens, s, p, sym);
    ghost var k: nat := FirstLook(lens, t.lookUp[..], t.tree[..], t.nodes, s, p, n, sym);
    var temp := t.lookUp[Low(bitBuf, LOOKUP_BITS)];
    NodeNegative(k);
    if temp >= 0 {
      codeLen := temp / 512;
    } else {
      codeLen := LOOKUP_BITS;
      temp, k := StepDown(t, bitBuf, temp, codeLen, lens, s, p, n, sym, k);
      codeLen := codeLen + 1;
      NodeNegative(k);
      while temp < 0
        invariant LOOKUP_BITS < codeLen <= lens[sym]
        invariant if codeLen == lens[sym] then temp == sym
                  else codeLen < 15 && k < |t.nodes| && t.nodes[k] == Peek(s, p, 15)[..codeLen] && temp == NodeRef(k) < 0
        decreases lens[sym] - codeLen
      {
        temp, k := StepDown(t, bitBuf, temp, codeLen, lens, s, p, n, sym, k);
        NodeNegative(k);
        codeLen := codeLen + 1;
      }
    }
    raw := temp;
  }

  /** The symbol at hand, and on past its bits. */
  method TakeSym(t: DecodeTable, r: BitReader, ghost lens: seq<nat>, ghost sym: nat) returns (raw: nat)
    requires t.Ready(lens) && r.Holds() && DecodeSym(lens, r.S(), r.Pos()) == Some(sym) && sym < |lens|
    requires lens[sym] <= r.numBits <= 30 && (r.pads > 0 ==> r.numBits < lens[sym] + 8)
    modifies r`bitBuf, r`numBits
    ensures r.Valid() && r.Pos() == old(r.Pos()) + lens[sym] && raw % 512 == sym
  {
    hide TableOk, Acceptable, Matches, FromBits, Peek, DecodeSym, BytesToBits;
    var codeLen;
    raw, codeLen := LookUp(t, r.bitBuf, r.numBits, lens, r.S(), r.Pos(), sym);
    r.Drop(codeLen);
  }

  /** `TINFL_HUFF_DECODE`. */
  method DecodeNext(t: DecodeTable, r: BitReader, ghost lens: seq<nat>) returns (sym: nat)
    requires t.Ready(lens) && r.Valid() && DecodeSym(lens, r.S(), r.Pos()).Some?
    modifies r
    ensures DecodeSym(lens, r.S(), old(r.Pos())) == Some(sym) && sym < |lens|
    ensures r.Valid() && r.Pos() == old(r.Pos()) + lens[sym]
  {
    hide TableOk, Acceptable, Matches, FromBits, Peek, DecodeSym, BytesToBits;
    ghost var s := DecodeSym(lens, r.S(), r.Pos()).value;
    SymFacts(lens, r.S(), r.Pos(), s);
    if r.numBits < 15 {
      if r.end - r.cur < 2 {
        FillBits(t, r, lens, s);
      } else {
        r.Prefetch();
      }
    }
    var raw := TakeSym(t, r, lens, s);
    sym := raw % 512;
  }
}
