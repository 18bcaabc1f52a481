/** The buffer of LZ77 tokens: groups of eight tokens behind a flag byte, filled by
    `tdefl_record_literal` and `tdefl_record_match`. */
module TokenBuffers {
  import opened Bits
  import opened Deflate

  const CODE_BUF_SIZE := 65536   // TDEFL_LZ_CODE_BUF_SIZE

  // ---------------------------------------------------------------- layout

  function Size(t: Token): nat {
    if t.Match? then 3 else 1
  }

  /** Where token `k` starts; every eighth token is followed by a new flag byte. */
  function Off(ts: seq<Token>, k: nat): nat
    requires k <= |ts|
  {
    if k == 0 then 1 else Off(ts, k - 1) + Size(ts[k - 1]) + (if k % 8 == 0 then 1 else 0)
  }

  /** The flag byte of the group that token `k` belongs to. */
  function FlagPos(ts: seq<Token>, k: nat): nat
    requires k <= |ts|
  {
    Off(ts, 8 * (k / 8)) - 1
  }

  /** Which bit of its flag byte tells of token `i` when `n` tokens have been recorded. */
  function FlagBit(i: nat, n: nat): nat
    requires i < n
  {
    if i / 8 == n / 8 then 8 - n % 8 + i % 8 else i % 8
  }

  predicate TokenAt(b: seq<byte>, o: nat, t: Token) {
    o + Size(t) <= |b| && ValidToken(t) &&
    match t
    case Literal(c) => b[o] == c
    case Match(len, dist) => b[o] == len - 3 && b[o + 1] == (dist - 1) % 256 && b[o + 2] == (dist - 1) / 256
  }

  predicate FlagAt(b: seq<byte>, f: nat, k: nat, t: Token) {
    f < |b| && k < 8 && ToBits(b[f], 8)[k] == t.Match?
  }

  /** The buffer holds the tokens `ts`, the flags of an unfinished group at the top of their byte. */
  ghost predicate Layout(b: seq<byte>, ts: seq<Token>) {
    forall i :: 0 <= i < |ts| ==>
      TokenAt(b, Off(ts, i), ts[i]) && FlagAt(b, FlagPos(ts, i), FlagBit(i, |ts|), ts[i])
  }

  /** The same with every flag in its final place, as the reader expects them. */
  ghost predicate Readable(b: seq<byte>, ts: seq<Token>) {
    forall i :: 0 <= i < |ts| ==>
      TokenAt(b, Off(ts, i), ts[i]) && FlagAt(b, FlagPos(ts, i), i % 8, ts[i])
  }

  lemma {:induction false} OffPrefix(ts: seq<Token>, us: seq<Token>, k: nat)
    requires k <= |ts| && ts <= us
    ensures Off(us, k) == Off(ts, k)
  {
    if k > 0 { OffPrefix(ts, us, k - 1); }
  }

  lemma {:induction false} OffMono(ts: seq<Token>, i: nat, k: nat)
    requires i < k <= |ts|
    ensures Off(ts, i) + Size(ts[i]) + (if k % 8 == 0 then 1 else 0) <= Off(ts, k)
  {
    if i < k - 1 { OffMono(ts, i, k - 1); }
  }

  lemma OffWeak(ts: seq<Token>, i: nat, k: nat)
    requires i <= k <= |ts|
    ensures Off(ts, i) <= Off(ts, k)
  {
    if i < k { OffMono(ts, i, k); }
  }

  lemma FromOneBit(m: bool)
    ensures FromBits([m]) == if m then 1 else 0
  {
    assert [m][1..] == [];
  }

  lemma ShiftFlag(f: nat, m: bool)
    requires f < 256
    ensures var g := Shr(f, 1) + (if m then 128 else 0);
            g < 256 && ToBits(g, 8) == ToBits(f, 8)[1..] + [m]
  {
    hide ToBits, FromBits, Shr;
    Pow2Values();
    var t := ToBits(f, 8);
    FromToBits(f, 8);
    SplitBits(t, 1);
    FromBitsConcat(t[1..], [m]);
    ToFromBits(t[1..] + [m]);
    FromOneBit(m);
  }

  lemma TokenKept(b: seq<byte>, ts: seq<Token>, c: seq<byte>, t: Token, i: nat)
    requires i <= |ts| && Layout(b, ts) && |c| == |b|
    requires TokenAt(c, Off(ts, |ts|), t)
    requires FlagPos(ts, |ts|) < |b|
    requires forall j :: 0 <= j < Off(ts, |ts|) && j < |b| && j != FlagPos(ts, |ts|) ==> c[j] == b[j]
    ensures TokenAt(c, Off(ts + [t], i), (ts + [t])[i])
  {
    hide ToBits, Off;
    var n := |ts|;
    OffPrefix(ts, ts + [t], i);
    if i < n {
      assert TokenAt(b, Off(ts, i), ts[i]);
      OffMono(ts, i, n);
      var g := 8 * (n / 8);
      if i < g {
        OffMono(ts, i, g);
      } else {
        OffWeak(ts, g, i);
      }
    }
  }

  lemma FlagPosOrder(ts: seq<Token>, i: nat)
    requires i < |ts|
    ensures FlagPos(ts, i) < Off(ts, |ts|) && FlagPos(ts, |ts|) < Off(ts, |ts|)
    ensures i / 8 < |ts| / 8 ==> FlagPos(ts, i) < FlagPos(ts, |ts|)
  {
    hide Off;
    var n := |ts|;
    var gi, gn := 8 * (i / 8), 8 * (n / 8);
    OffWeak(ts, gn, n);
    if gi < gn { OffMono(ts, gi, gn); }
  }

  lemma FlagBitStep(i: nat, n: nat)
    requires i <= n
    ensures i < n ==> FlagBit(i, n + 1) == (if i / 8 == n / 8 then FlagBit(i, n) - 1 else FlagBit(i, n))
    ensures i < n && i / 8 == n / 8 ==> 1 <= FlagBit(i, n) < 8
    ensures FlagBit(n, n + 1) == 7
  {
  }

  lemma FlagKept(b: seq<byte>, ts: seq<Token>, c: seq<byte>, t: Token, i: nat)
    requires i <= |ts| && |c| == |b| && FlagPos(ts, |ts|) < |b|
    requires i < |ts| ==> FlagAt(b, FlagPos(ts, i), FlagBit(i, |ts|), ts[i])
    requires ToBits(c[FlagPos(ts, |ts|)], 8) == ToBits(b[FlagPos(ts, |ts|)], 8)[1..] + [t.Match?]
    requires i / 8 < |ts| / 8 ==> c[FlagPos(ts, i)] == b[FlagPos(ts, i)]
    ensures FlagAt(c, FlagPos(ts + [t], i), FlagBit(i, |ts| + 1), (ts + [t])[i])
  {
    hide ToBits, Off, FlagBit;
    var n, us := |ts|, ts + [t];
    OffPrefix(ts, us, 8 * (i / 8));
    FlagBitStep(i, n);
  }

  /** Recording one more token of a group: its bytes, then its flag. */
  lemma LayoutSnoc(b: seq<byte>, ts: seq<Token>, c: seq<byte>, t: Token)
    requires Layout(b, ts) && |c| == |b|
    requires TokenAt(c, Off(ts, |ts|), t)
    requires FlagPos(ts, |ts|) < |b|
    requires ToBits(c[FlagPos(ts, |ts|)], 8) == ToBits(b[FlagPos(ts, |ts|)], 8)[1..] + [t.Match?]
    requires forall j :: 0 <= j < Off(ts, |ts|) && j < |b| && j != FlagPos(ts, |ts|) ==> c[j] == b[j]
    ensures Layout(c, ts + [t])
  {
    hide Off, FlagPos, FlagBit, ToBits;
    var us, n := ts + [t], |ts|;
    forall i | 0 <= i < n + 1
      ensures TokenAt(c, Off(us, i), us[i]) && FlagAt(c, FlagPos(us, i), FlagBit(i, n + 1), us[i])
    {
      TokenKept(b, ts, c, t, i);
      if i < n { FlagPosOrder(ts, i); }
      FlagKept(b, ts, c, t, i);
    }
  }

  /** Shifting the flags of the unfinished group down makes the buffer readable. */
  lemma ShiftDown(f: nat, m: nat)
    requires f < 256 && m <= 8
    ensures Shr(f, m) < 256 && forall k :: 0 <= k < 8 - m ==> ToBits(Shr(f, m), 8)[k] == ToBits(f, 8)[m + k]
  {
    hide ToBits, FromBits, Shr;
    var t := ToBits(f, 8);
    Pow2Values();
    FromToBits(f, 8);
    SplitBits(t, m);
    var u := t[m..] + Zeros(m);
    FromBitsConcat(t[m..], Zeros(m));
    FromZeros(m);
    ToFromBits(u);
  }

  lemma LayoutReadable(b: seq<byte>, ts: seq<Token>, c: seq<byte>)
    requires Layout(b, ts) && FlagPos(ts, |ts|) < |b|
    requires |c| == |b| && c[FlagPos(ts, |ts|)] == Shr(b[FlagPos(ts, |ts|)], 8 - |ts| % 8)
    requires forall j :: 0 <= j < |b| && j != FlagPos(ts, |ts|) ==> c[j] == b[j]
    ensures Readable(c, ts)
  {
    hide ToBits, Off;
    var n := |ts|;
    var gn := 8 * (n / 8);
    ShiftDown(b[FlagPos(ts, n)], 8 - n % 8);
    forall i | 0 <= i < n
      ensures TokenAt(c, Off(ts, i), ts[i]) && FlagAt(c, FlagPos(ts, i), i % 8, ts[i])
    {
      assert TokenAt(b, Off(ts, i), ts[i]) && FlagAt(b, FlagPos(ts, i), FlagBit(i, n), ts[i]);
      var gi := 8 * (i / 8);
      if i < gn {
        OffMono(ts, i, gn);
        OffMono(ts, gi, gn);
      } else {
        OffWeak(ts, gn, i);
      }
    }
  }

  // ---------------------------------------------------------------- counts

  function LitSym(t: Token): nat
    requires ValidToken(t)
  {
    if t.Match? then LenSym(t.len - 3) else t.b
  }

  predicate AllTokens(ts: seq<Token>) {
    forall i :: 0 <= i < |ts| ==> ValidToken(ts[i])
  }

  /** How many tokens use literal/length symbol `s`. */
  function LitUses(ts: seq<Token>, s: nat): (c: nat)
    requires AllTokens(ts)
    ensures c <= |ts|
  {
    if ts == [] then 0
    else LitUses(ts[..|ts| - 1], s) + (if LitSym(ts[|ts| - 1]) == s then 1 else 0)
  }

  /** How many tokens use distance symbol `s`. */
  function DistUses(ts: seq<Token>, s: nat): (c: nat)
    requires AllTokens(ts)
    ensures c <= |ts|
  {
    if ts == [] then 0
    else
      var t := ts[|ts| - 1];
      DistUses(ts[..|ts| - 1], s) + (if t.Match? && DistSym(t.dist - 1) == s then 1 else 0)
  }

  /** How many bytes the tokens stand for. */
  function Covers(ts: seq<Token>): nat {
    if ts == [] then 0
    else Covers(ts[..|ts| - 1]) + (if ts[|ts| - 1].Match? then ts[|ts| - 1].len else 1)
  }

  lemma {:induction false} TokensFit(ts: seq<Token>, k: nat)
    requires k <= |ts|
    ensures Off(ts, k) >= 1 + k + k / 8
  {
    if k > 0 { TokensFit(ts, k - 1); }
  }

  // ---------------------------------------------------------------- the buffer

  /** Where the reader stands before token `k`: at the flag byte when a group starts. */
  function ReadPos(ts: seq<Token>, k: nat): nat
    requires k <= |ts|
  {
    if k % 8 == 0 then Off(ts, k) - 1 else Off(ts, k)
  }

  lemma EndPointers(b: seq<byte>, ts: seq<Token>)
    requires Layout(b, ts) && FlagPos(ts, |ts|) < |b|
    ensures if |ts| % 8 == 0 then FlagPos(ts, |ts|) == Off(ts, |ts|) - 1 else Off(ts, |ts|) <= |b|
  {
    var n := |ts|;
    if n % 8 != 0 {
      assert TokenAt(b, Off(ts, n - 1), ts[n - 1]);
    }
  }

  /** The counts after one more token; 16 bits are enough for them. */
  lemma UsesSnoc(ts: seq<Token>, t: Token)
    requires AllTokens(ts) && ValidToken(t)
    ensures AllTokens(ts + [t])
    ensures forall s :: LitUses(ts + [t], s) == LitUses(ts, s) + (if LitSym(t) == s then 1 else 0)
    ensures forall s :: DistUses(ts + [t], s) ==
                        DistUses(ts, s) + (if t.Match? && DistSym(t.dist - 1) == s then 1 else 0)
    ensures Covers(ts + [t]) == Covers(ts) + (if t.Match? then t.len else 1)
  {
    assert (ts + [t])[..|ts|] == ts;
  }

  lemma TokenAtUpdate(b: seq<byte>, c: seq<byte>, f: nat, o: nat, t: Token)
    requires TokenAt(b, o, t) && |b| == |c| && f < o
    requires forall j :: 0 <= j < |b| && j != f ==> c[j] == b[j]
    ensures TokenAt(c, o, t)
  {
  }

  lemma NextPointers(ts: seq<Token>, t: Token)
    ensures var us, n := ts + [t], |ts|;
            var o := Off(ts, n) + Size(t);
            if (n + 1) % 8 == 0 then Off(us, n + 1) == o + 1 && FlagPos(us, n + 1) == o
            else Off(us, n + 1) == o && FlagPos(us, n + 1) == FlagPos(ts, n)
  {
    var us, n := ts + [t], |ts|;
    OffPrefix(ts, us, n);
    OffPrefix(ts, us, 8 * (n / 8));
    assert us[n] == t;
  }

  lemma FlagBeforeToken(ts: seq<Token>)
    ensures FlagPos(ts, |ts|) < Off(ts, |ts|)
  {
    OffWeak(ts, 8 * (|ts| / 8), |ts|);
  }

  class TokenBuffer {
    const buf: array<byte>         // m_lz_code_buf
    const litCount: array<nat>     // m_huff_count[0]
    const distCount: array<nat>    // m_huff_count[1]
    var codePos: nat               // m_pLZ_code_buf, as an index
    var flagPos: nat               // m_pLZ_flags, as an index
    var flagsLeft: nat             // m_num_flags_left
    var totalBytes: nat            // m_total_lz_bytes
    ghost var tokens: seq<Token>   // what has been recorded since the last flush

    ghost predicate Shape() {
      buf.Length == CODE_BUF_SIZE && litCount.Length == 288 && distCount.Length == 32 &&
      litCount != distCount && buf as object != litCount && buf as object != distCount
    }

    ghost predicate Pointers()
      reads this
    {
      codePos == Off(tokens, |tokens|) && flagPos == FlagPos(tokens, |tokens|) < CODE_BUF_SIZE &&
      flagsLeft == 8 - |tokens| % 8 && totalBytes == Covers(tokens)
    }

    ghost predicate Counted()
      requires Shape() && AllTokens(tokens)
      reads this, litCount, distCount
    {
      (forall s :: 0 <= s < 288 ==> litCount[s] == LitUses(tokens, s)) &&
      (forall s :: 0 <= s < 32 ==> distCount[s] == DistUses(tokens, s))
    }

    ghost predicate Valid()
      reads this, buf, litCount, distCount
    {
      Shape() && AllTokens(tokens) && Counted() && Pointers() && Layout(buf[..], tokens)
    }

    /** What `Finish` leaves for the encoder. */
    ghost predicate Finished()
      reads this, buf
    {
      Shape() && AllTokens(tokens) && Readable(buf[..], tokens) && codePos == ReadPos(tokens, |tokens|) <= CODE_BUF_SIZE
    }

    constructor ()
      ensures Shape() && Valid() && fresh(this) && fresh(buf) && fresh(litCount) && fresh(distCount) && tokens == []
    {
      buf := new byte[CODE_BUF_SIZE];
      litCount := new nat[288](_ => 0);
      distCount := new nat[32](_ => 0);
      codePos, flagPos, flagsLeft, totalBytes, tokens := 1, 0, 8, 0, [];
    }

    /** Shift the flag of one more token in, and start a new group after eight. */
    method PushFlag(ghost b0: seq<byte>, m: bool, ghost t: Token)
      requires Shape() && |b0| == CODE_BUF_SIZE && Layout(b0, tokens) && m == t.Match?
      requires flagPos == FlagPos(tokens, |tokens|) < CODE_BUF_SIZE && flagsLeft == 8 - |tokens| % 8
      requires codePos == Off(tokens, |tokens|) + Size(t) && codePos + 1 <= CODE_BUF_SIZE
      requires TokenAt(buf[..], Off(tokens, |tokens|), t) && buf[flagPos] == b0[flagPos]
      requires forall j :: 0 <= j < Off(tokens, |tokens|) && j < |b0| ==> buf[j] == b0[j]
      modifies this`codePos, this`flagPos, this`flagsLeft, buf
      ensures Layout(buf[..], tokens + [t])
      ensures codePos <= old(codePos) + 1
      ensures codePos == Off(tokens + [t], |tokens| + 1) && flagsLeft == 8 - (|tokens| + 1) % 8
      ensures flagPos == FlagPos(tokens + [t], |tokens| + 1) < CODE_BUF_SIZE
    {
      hide Off, FlagPos, Layout, ToBits, TokenAt, Shr;
      ShiftFlag(buf[flagPos], t.Match?);
      FlagBeforeToken(tokens);
      NextPointers(tokens, t);
      buf[flagPos] := Shr(buf[flagPos], 1) + (if m then 128 else 0);
      TokenAtUpdate(old(buf[..]), buf[..], flagPos, Off(tokens, |tokens|), t);
      LayoutSnoc(b0, tokens, buf[..], t);
      flagsLeft := flagsLeft - 1;
      if flagsLeft == 0 {
        flagsLeft, flagPos, codePos := 8, codePos, codePos + 1;
      }
    }

    method CountLit(s: nat)
      requires litCount.Length == 288 && s < 288 && litCount[s] < 65535
      modifies litCount
      ensures forall i :: 0 <= i < 288 ==> litCount[i] == old(litCount[i]) + (if i == s then 1 else 0)
    {
      litCount[s] := (litCount[s] + 1) % 65536;
    }

    method CountDist(d: nat)
      requires distCount.Length == 32 && d < 32768 && distCount[DistSym(d)] < 65535
      modifies distCount
      ensures forall i :: 0 <= i < 32 ==> distCount[i] == old(distCount[i]) + (if i == DistSym(d) then 1 else 0)
    {
      hide SmallDistSym, LargeDistSym;
      var s0, s1 := SmallDistSym(d % 512), LargeDistSym((d / 256) % 128);
      var s := if d < 512 then s0 else s1;
      distCount[s] := (distCount[s] + 1) % 65536;
    }

    /** `tdefl_record_literal`. */
    method RecordLiteral(lit: byte)
      requires Valid() && codePos + 2 <= CODE_BUF_SIZE
      modifies this, buf, litCount
      ensures Valid() && tokens == old(tokens) + [Literal(lit)] && codePos <= old(codePos) + 2
    {
      hide Off, FlagPos, Layout, ToBits, LitUses, DistUses, Covers;
      ghost var b0 := buf[..];
      ghost var t := Literal(lit);
      FlagBeforeToken(tokens);
      TokensFit(tokens, |tokens|);
      UsesSnoc(tokens, t);
      totalBytes := totalBytes + 1;
      buf[codePos] := lit;
      codePos := codePos + 1;
      PushFlag(b0, false, t);
      CountLit(lit);
      tokens := tokens + [t];
    }

    /** `tdefl_record_match`. */
    method RecordMatch(len: nat, dist: nat)
      requires Valid() && codePos + 4 <= CODE_BUF_SIZE && ValidToken(Match(len, dist))
      modifies this, buf, litCount, distCount
      ensures Valid() && tokens == old(tokens) + [Match(len, dist)] && codePos <= old(codePos) + 4
    {
      hide Off, FlagPos, Layout, ToBits, LitUses, DistUses, Covers, LenSym, DistSym;
      ghost var b0 := buf[..];
      ghost var t := Match(len, dist);
      FlagBeforeToken(tokens);
      TokensFit(tokens, |tokens|);
      UsesSnoc(tokens, t);
      totalBytes := totalBytes + len;
      buf[codePos] := len - 3;
      var d := dist - 1;
      buf[codePos + 1] := d % 256;
      buf[codePos + 2] := d / 256;
      codePos := codePos + 3;
      PushFlag(b0, true, t);
      CountDist(d);
      CountLit(LenSym(len - 3));
      tokens := tokens + [t];
    }

    /** The start of `tdefl_flush_block`: put the flags in place and drop an unused flag byte. */
    method Finish()
      requires Valid()
      modifies this`codePos, buf
      ensures Finished() && Counted()
    {
      hide Off, FlagPos, Layout, Readable, LitUses, DistUses;
      ghost var b0 := buf[..];
      ShiftDown(buf[flagPos], flagsLeft);
      buf[flagPos] := Shr(buf[flagPos], flagsLeft);
      LayoutReadable(b0, tokens, buf[..]);
      EndPointers(b0, tokens);
      if flagsLeft == 8 { codePos := codePos - 1; }
    }

    /** The end of `tdefl_flush_block`: empty the buffer and clear the counts. */
    method Reset()
      requires Shape()
      modifies this, buf, litCount, distCount
      ensures Valid() && tokens == [] && totalBytes == 0
    {
      forall i | 0 <= i < 288 { litCount[i] := 0; }
      forall i | 0 <= i < 32 { distCount[i] := 0; }
      codePos, flagPos, flagsLeft, totalBytes, tokens := 1, 0, 8, 0, [];
    }
  }
}
