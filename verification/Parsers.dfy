/** The lazy LZ77 parser of `tdefl_compress_normal`. */
module Parsers {
  import opened Bits
  import opened Canonical
  import opened Deflate
  import opened TokenBuffers
  import opened Windows

  datatype Flags = Flags(rle: bool, filter: bool, raw: bool, greedy: bool, maxProbes: nat, maxProbesLong: nat)

  /** A match, or none with distance 0. */
  datatype Found = Found(dist: nat, len: nat)

  /** What is put off to the next round: a match and the byte it starts with; none if `len` is 0. */
  datatype Saved = Saved(len: nat, dist: nat, lit: byte)

  /** What one round decides: the tokens to record, what to put off, and how far to move on. */
  datatype Choice = Choice(tokens: seq<Token>, saved: Saved, move: nat)

  /** Matches not worth coding: three bytes from afar, one as far back as the place in the ring, and
      with `TDEFL_FILTER_MATCHES` any of up to five bytes. */
  ghost predicate NotWorth(filter: bool, p: nat, found: Found) {
    (found.len == 3 && found.dist >= 8192) || found.dist == p % 32768 || (filter && found.len <= 5)
  }

  /** Lazy parsing: a match is put off until it is known whether the next byte starts a longer one. */
  ghost function Choose(atOnce: bool, saved: Saved, cur: Found, here: byte): Choice {
    if saved.len != 0 && cur.len <= saved.len then
      Choice([Match(saved.len, saved.dist)], saved.(len := 0), saved.len - 1)
    else
      var before := if saved.len != 0 then [Literal(saved.lit)] else [];
      if saved.len == 0 && cur.dist == 0 then Choice([Literal(here)], saved, 1)
      else if cur.len >= 128 || (saved.len == 0 && atOnce) then Choice(before + [Match(cur.len, cur.dist)], saved.(len := 0), cur.len)
      else Choice(before, Saved(cur.len, cur.dist, here), 1)
  }

  /** Recording one token, over the source bytes it stands for. */
  lemma OneToken(src: seq<byte>, floor: nat, from: nat, p: nat, ts: seq<Token>, t: Token, q: nat)
    requires floor <= from <= p <= q <= |src| && Expand(src[floor..from], ts) == Some(src[floor..p])
    requires CanStep(src[floor..p], t) && Step(src[floor..p], t) == src[floor..q]
    ensures Expand(src[floor..from], ts + [t]) == Some(src[floor..q])
  {
    ExpandSnoc(src[floor..from], ts, t);
  }

  lemma LiteralStep(src: seq<byte>, floor: nat, q: nat)
    requires floor <= q < |src|
    ensures Step(src[floor..q], Literal(src[q])) == src[floor..q + 1]
  {
  }

  /** A genuine match that does not reach back before `floor` can do without what is before it. */
  lemma MatchStep(src: seq<byte>, floor: nat, q: nat, len: nat, dist: nat)
    requires Genuine(src, q, len, dist) && floor + dist <= q && 3 <= len <= MAX_MATCH && dist <= DICT_SIZE
    ensures CanStep(src[floor..q], Match(len, dist)) && Step(src[floor..q], Match(len, dist)) == src[floor..q + len]
  {
    var s := src[floor..];
    forall x | q - floor <= x < q - floor + len ensures s[x] == s[x - dist] {
      assert src[x + floor] == src[x + floor - dist];
    }
    GenuineCopy(s, q - floor, len, dist);
    assert s[..q - floor] == src[floor..q] && s[..q - floor + len] == src[floor..q + len];
  }

  lemma TotalIsCovers(tb: TokenBuffer)
    requires tb.Valid()
    ensures tb.totalBytes == Covers(tb.tokens)
  {
  }

  lemma CoversSnoc(ts: seq<Token>, t: Token)
    ensures Covers(ts + [t]) == Covers(ts) + (if t.Match? then t.len else 1)
  {
    assert (ts + [t])[..|ts|] == ts;
  }

  lemma {:induction false} CoversBound(ts: seq<Token>)
    requires AllTokens(ts)
    ensures Covers(ts) <= 258 * |ts|
  {
    if ts != [] {
      var front := ts[..|ts| - 1];
      forall i | 0 <= i < |front| ensures ValidToken(front[i]) { assert front[i] == ts[i]; }
      CoversBound(front);
    }
  }

  /** A token buffer stands for far less than 32 bits can count. */
  lemma TotalFits(tb: TokenBuffer)
    requires tb.Valid()
    ensures tb.totalBytes + 1 < WORD
  {
    hide Layout, TokenBuffer.Counted, Off, Covers, ValidToken;
    CoversBound(tb.tokens);
    TokensFit(tb.tokens, 8 * (|tb.tokens| / 8));
  }

  class Parser {
    const flags: Flags
    const win: Window
    const tb: TokenBuffer
    var savedDist: nat    // m_saved_match_dist
    var savedLen: nat     // m_saved_match_len
    var savedLit: byte    // m_saved_lit
    var start32: nat      // m_lz_code_buf_dict_pos
    ghost var start: nat  // the same without wrapping around

    ghost predicate Shape() {
      flags.maxProbes >= 1 && flags.maxProbesLong >= 1 &&
      {win as object, win.dict, win.next, win.hash} !! {tb, tb.buf, tb.litCount, tb.distCount} &&
      this as object != win && this as object != tb
    }

    /** One literal is pending while a match is saved. */
    ghost function Pending(): nat
      reads this
    {
      if savedLen != 0 then 1 else 0
    }

    /** The saved match starts at the byte of the pending literal. */
    ghost predicate SavedOk()
      reads this, win
    {
      savedLen != 0 ==>
        3 <= savedLen < 128 && 1 <= win.lookaheadPos <= |win.src| && savedDist <= DICT_SIZE &&
        win.floor + savedDist <= win.lookaheadPos - 1 &&
        savedLit == win.src[win.lookaheadPos - 1] && Genuine(win.src, win.lookaheadPos - 1, savedLen, savedDist)
    }

    /** The tokens recorded since the last flush stand for the source bytes from `start` to `q`, and
        need nothing from before `floor`. */
    ghost predicate Recorded(q: int)
      reads this`start, this`start32, win`src, win`floor, tb`totalBytes, tb`tokens
    {
      start32 == start % WORD && win.floor <= start && start + tb.totalBytes == q <= |win.src| &&
      Expand(win.src[win.floor..start], tb.tokens) == Some(win.src[win.floor..q])
    }

    /** Recorded tokens and the pending literal stand for exactly what was consumed. */
    ghost predicate Valid()
      reads this, win, win.dict, win.next, win.hash, tb, tb.buf, tb.litCount, tb.distCount
    {
      Shape() && win.Valid() && tb.Valid() && SavedOk() && Recorded(win.lookaheadPos - Pending())
    }

    constructor (flags: Flags, win: Window, tb: TokenBuffer)
      requires flags.maxProbes >= 1 && flags.maxProbesLong >= 1
      requires {win as object, win.dict, win.next, win.hash} !! {tb, tb.buf, tb.litCount, tb.distCount}
      requires win.Valid() && tb.Valid() && win.src == [] && win.floor == 0 && tb.tokens == []
      ensures Shape() && Valid() && fresh(this) && this.flags == flags && this.win == win && this.tb == tb
      ensures start == 0 && savedLen == 0
    {
      this.flags, this.win, this.tb := flags, win, tb;
      savedDist, savedLen, savedLit, start32, start := 0, 0, 0, 0, 0;
    }

    method PutLiteral(lit: byte, ghost q: nat)
      requires Shape() && tb.Valid() && tb.codePos + 2 <= CODE_BUF_SIZE
      requires Recorded(q) && q < |win.src| && lit == win.src[q]
      modifies tb, tb.buf, tb.litCount
      ensures tb.Valid() && Recorded(q + 1) && tb.codePos <= old(tb.codePos) + 2 && tb.tokens == old(tb.tokens) + [Literal(lit)]
    {
      hide TokenBuffer.Valid, Expand;
      ghost var ts, src := tb.tokens, win.src;
      TotalIsCovers(tb);
      tb.RecordLiteral(lit);
      TotalIsCovers(tb);
      CoversSnoc(ts, Literal(lit));
      LiteralStep(src, win.floor, q);
      OneToken(src, win.floor, start, q, ts, Literal(lit), q + 1);
    }

    method PutMatch(len: nat, dist: nat, ghost q: nat)
      requires Shape() && tb.Valid() && tb.codePos + 4 <= CODE_BUF_SIZE && 3 <= len <= MAX_MATCH && dist <= DICT_SIZE
      requires Recorded(q) && Genuine(win.src, q, len, dist) && win.floor + dist <= q
      modifies tb, tb.buf, tb.litCount, tb.distCount
      ensures tb.Valid() && Recorded(q + len) && tb.codePos <= old(tb.codePos) + 4
      ensures tb.tokens == old(tb.tokens) + [Match(len, dist)]
    {
      hide TokenBuffer.Valid, Expand;
      ghost var ts, src := tb.tokens, win.src;
      TotalIsCovers(tb);
      tb.RecordMatch(len, dist);
      TotalIsCovers(tb);
      CoversSnoc(ts, Match(len, dist));
      MatchStep(src, win.floor, q, len, dist);
      OneToken(src, win.floor, start, q, ts, Match(len, dist), q + len);
    }

    ghost predicate Run(n: nat)
      reads win
    {
      n <= win.lookaheadSize && Genuine(win.src, win.lookaheadPos, n, 1) &&
      (n == win.lookaheadSize || (1 <= win.lookaheadPos && win.lookaheadPos + n < |win.src| &&
                                  win.src[win.lookaheadPos + n] != win.src[win.lookaheadPos - 1]))
    }

    /** What is looked for at the lookahead: with `TDEFL_RLE_MATCHES` the whole run of the last byte,
        nothing if only raw blocks are wanted, otherwise the longest match along the hash chain. */
    ghost predicate LookedFor(found: Found)
      reads this, win
    {
      var w, len0 := win, if savedLen != 0 then savedLen else 2;
      if flags.raw || (flags.rle && w.dictSize == 0) then
        found == Found(0, len0)
      else if flags.rle then
        exists n :: found == (if n < 3 then Found(0, 0) else Found(1, n)) && Run(n)
      else
        var probes := if len0 >= 32 then flags.maxProbesLong else flags.maxProbes;
        (if found.dist == 0 then found.len == len0
         else Genuine(w.src, w.lookaheadPos, found.len, found.dist) && len0 < found.len <= w.lookaheadSize) &&
        Windows.Searched(w.src, w.floor, w.lookaheadPos, w.dictSize, probes, found.dist, found.len) &&
        FirstTried(w.src, w.floor, w.lookaheadPos, w.dictSize, probes, len0, found.len)
    }

    /** The first half of the state machine: look for a match at the lookahead. */
    method Search() returns (curDist: nat, curLen: nat, ghost found: Found)
      requires Valid()
      ensures curDist == 0 ==> curLen <= if savedLen != 0 then savedLen else MIN_MATCH - 1
      ensures curDist != 0 ==> Genuine(win.src, win.lookaheadPos, curLen, curDist) && curDist <= win.dictSize &&
                               MIN_MATCH <= curLen <= win.lookaheadSize
      ensures LookedFor(found)
      ensures Found(curDist, curLen) == if NotWorth(flags.filter, win.lookaheadPos, found) then Found(0, 0) else found
    {
      hide TokenBuffer.Valid, Expand, Genuine, Window.Held, Window.Chained, Windows.Searched, FirstTried;
      curDist, curLen := 0, if savedLen != 0 then savedLen else MIN_MATCH - 1;
      WordPlace(win.lookaheadPos);
      var curPos := win.pos32 % DICT_SIZE;
      if flags.rle || flags.raw {
        if win.dictSize != 0 && !flags.raw {
          curLen := win.RunLength();
          assert Run(curLen);
          if curLen < MIN_MATCH { curLen := 0; } else { curDist := 1; }
        }
      } else {
        curDist, curLen := win.FindMatch(flags.maxProbes, flags.maxProbesLong, curLen);
      }
      found := Found(curDist, curLen);
      if (curLen == MIN_MATCH && curDist >= 8 * 1024) || curPos == curDist || (flags.filter && curLen <= 5) {
        curDist, curLen := 0, 0;
      }
    }

    ghost function PutOff(): Saved
      reads this`savedLen, this`savedDist, this`savedLit
    {
      Saved(savedLen, savedDist, savedLit)
    }

    lemma TwoTokens(ts: seq<Token>, a: Token, b: Token)
      ensures ts + [a] + [b] == ts + ([a] + [b])
    {
    }

    lemma SavedRoom()
      requires Valid() && savedLen != 0
      ensures savedLen - 1 <= win.lookaheadSize
    {
      hide TokenBuffer.Valid, Recorded, Window.Held, Window.Chained;
    }

    /** The second half: record tokens, or save the match in case the next one is longer. */
    method Decide(curDist: nat, curLen: nat) returns (move: nat)
      requires Valid() && win.lookaheadSize > 0 && tb.codePos <= CODE_BUF_SIZE - 8
      requires curDist == 0 ==> curLen <= if savedLen != 0 then savedLen else MIN_MATCH - 1
      requires curDist != 0 ==> Genuine(win.src, win.lookaheadPos, curLen, curDist) && curDist <= win.dictSize &&
                                MIN_MATCH <= curLen <= win.lookaheadSize
      modifies this`savedDist, this`savedLen, this`savedLit, tb, tb.buf, tb.litCount, tb.distCount
      ensures Shape() && win.Valid() && tb.Valid() && 1 <= move <= win.lookaheadSize
      ensures Recorded(win.lookaheadPos + move - Pending())
      ensures savedLen != 0 ==> move == 1 && 3 <= savedLen < 128 && savedDist <= DICT_SIZE && win.floor + savedDist <= win.lookaheadPos &&
                                savedLit == win.src[win.lookaheadPos] && Genuine(win.src, win.lookaheadPos, savedLen, savedDist)
      ensures var c := Choose(flags.greedy || flags.rle, old(PutOff()), Found(curDist, curLen), win.src[win.lookaheadPos]);
              tb.tokens == old(tb.tokens) + c.tokens && PutOff() == c.saved && move == c.move
    {
      hide TokenBuffer.Valid, Expand, Genuine, Window.Held, Window.Chained, Recorded;
      WordPlace(win.lookaheadPos);
      var curPos := win.pos32 % DICT_SIZE;
      win.HeldHere(win.lookaheadPos);
      move := 1;
      if savedLen != 0 {
        if curLen > savedLen {
          PutLiteral(savedLit, win.lookaheadPos - 1);
          if curLen >= 128 {
            TwoTokens(old(tb.tokens), Literal(savedLit), Match(curLen, curDist));
            PutMatch(curLen, curDist, win.lookaheadPos);
            savedLen := 0;
            move := curLen;
          } else {
            savedLit, savedDist, savedLen := win.dict[curPos], curDist, curLen;
          }
        } else {
          SavedRoom();
          PutMatch(savedLen, savedDist, win.lookaheadPos - 1);
          move := savedLen - 1;
          savedLen := 0;
        }
      } else if curDist == 0 {
        PutLiteral(win.dict[Min(curPos, DICT_SIZE + MIRROR - 1)], win.lookaheadPos);
      } else if flags.greedy || flags.rle || curLen >= 128 {
        PutMatch(curLen, curDist, win.lookaheadPos);
        move := curLen;
      } else {
        savedLit, savedDist, savedLen := win.dict[Min(curPos, DICT_SIZE + MIRROR - 1)], curDist, curLen;
      }
    }

    /** Fill the lookahead from the input. */
    method Fill(input: seq<byte>, from: nat) returns (to: nat)
      requires Valid() && from <= |input|
      modifies win, win.dict, win.next, win.hash
      ensures Valid() && from <= to <= |input| && win.src == old(win.src) + input[from..to]
      ensures to == |input| || win.lookaheadSize == 258
      ensures win.lookaheadSize == old(win.lookaheadSize) + (to - from) && win.lookaheadPos == old(win.lookaheadPos)
      ensures win.floor == old(win.floor)
    {
      hide TokenBuffer.Valid, Window.Valid;
      ghost var src, q := win.src, win.lookaheadPos - Pending();
      to := win.Fill(input, from);
      assert win.src[win.floor..start] == src[win.floor..start] && win.src[win.floor..q] == src[win.floor..q];
    }

    /** Start over with an empty token buffer once its tokens have been written. */
    method Restart()
      requires Shape() && win.Valid() && tb.Shape() && SavedOk() && Recorded(win.lookaheadPos - Pending())
      modifies this`start, this`start32, tb, tb.buf, tb.litCount, tb.distCount
      ensures Valid() && tb.tokens == [] && tb.totalBytes == 0 && start == old(start + tb.totalBytes)
    {
      hide TokenBuffer.Valid, Genuine, Window.Held, Window.Chained;
      ghost var q := win.lookaheadPos - Pending();
      var total := tb.totalBytes;
      tb.Reset();
      WordNext(start, total);
      start32 := (start32 + total) % WORD;
      start := start + total;
      assert Recorded(q);
    }

    /** The block under way starts less than 4 GB back. */
    lemma Reach()
      requires Valid()
      ensures start32 == start % WORD && win.lookaheadPos - start < WORD
    {
      hide TokenBuffer.Valid, Genuine, Window.Held, Window.Chained;
      TotalFits(tb);
    }

    /** Once the lookahead is empty, every byte has a token. */
    lemma NothingPending()
      requires Valid() && win.lookaheadSize == 0
      ensures savedLen == 0 && start + tb.totalBytes == |win.src|
    {
    }

    /** What becomes of a match that was found. */
    ghost function Chosen(found: Found): Choice
      requires win.lookaheadPos < |win.src|
      reads this, win
    {
      var cur := if NotWorth(flags.filter, win.lookaheadPos, found) then Found(0, 0) else found;
      Choose(flags.greedy || flags.rle, PutOff(), cur, win.src[win.lookaheadPos])
    }

    /** One round of the parser after the lookahead has been filled. */
    method Round() returns (ghost found: Found)
      requires Valid() && win.lookaheadSize > 0 && tb.codePos <= CODE_BUF_SIZE - 8
      modifies this`savedDist, this`savedLen, this`savedLit, tb, tb.buf, tb.litCount, tb.distCount
      modifies win`pos32, win`lookaheadPos, win`lookaheadSize, win`dictSize
      ensures Valid() && win.lookaheadPos > old(win.lookaheadPos) && old(LookedFor(found))
      ensures tb.tokens == old(tb.tokens + Chosen(found).tokens) && PutOff() == old(Chosen(found)).saved
      ensures win.lookaheadPos == old(win.lookaheadPos + Chosen(found).move)
    {
      hide TokenBuffer.Valid, Genuine, Window.Held, Window.Chained, Recorded, LookedFor, Choose, NotWorth;
      var curDist, curLen;
      curDist, curLen, found := Search();
      var move := Decide(curDist, curLen);
      ghost var q := win.lookaheadPos + move - Pending();
      win.Advance(move);
      assert Recorded(q);
    }
  }
}
