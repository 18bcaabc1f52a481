/** The decompressor's bit buffer (`TINFL_GET_BYTE`, `TINFL_NEED_BITS`, `TINFL_GET_BITS`,
    `TINFL_SKIP_BITS`), on an input that comes in pieces, one for each call. A call that runs
    out of input while more is to come returns `TINFL_STATUS_NEEDS_MORE_INPUT`, and the next
    one goes on at the same place; without more to come, bytes past the end read as zero. */
module BitInput {
  import opened Bits
  import opened Inflate
  import opened RoundTrip

  lemma PeekConcat(s: seq<bool>, p: nat, a: nat, b: nat)
    ensures Peek(s, p, a + b) == Peek(s, p, a) + Peek(s, p + a, b)
  {
  }

  lemma PeekSplit(s: seq<bool>, p: nat, n: nat, m: nat)
    requires m <= n
    ensures Peek(s, p, n)[..m] == Peek(s, p, m) && Peek(s, p, n)[m..] == Peek(s, p + m, n - m)
  {
  }

  lemma {:induction false} ZeroBitsAre(n: nat)
    ensures forall i :: 0 <= i < n ==> !ToBits(0, n)[i]
  {
    if n > 0 { ZeroBitsAre(n - 1); }
  }

  lemma PeekByte(input: seq<byte>, k: nat)
    ensures Peek(BytesToBits(input), 8 * k, 8) == ToBits(if k < |input| then input[k] else 0, 8)
  {
    hide ToBits, BytesToBits;
    var s := BytesToBits(input);
    if k < |input| {
      BytesToBitsAt(input, k);
      PeekSlice(s, 8 * k, 8);
    } else {
      ZeroBitsAre(8);
      var w := Peek(s, 8 * k, 8);
      forall i | 0 <= i < 8 ensures w[i] == ToBits(0, 8)[i] {
        assert !BitAt(s, 8 * k + i);
      }
    }
  }

  /** Or-ing the next byte in above the bits held. */
  lemma MoreBits(s: seq<bool>, p: nat, n: nat, v: nat, c: byte)
    requires v == FromBits(Peek(s, p, n)) && Peek(s, p + n, 8) == ToBits(c, 8)
    ensures BitOr(v, c * Pow2(n)) == FromBits(Peek(s, p, n + 8))
  {
    hide FromBits, ToBits, Peek, BitOr, Pow2;
    Pow2Values();
    PeekConcat(s, p, n, 8);
    FromBitsConcat(Peek(s, p, n), Peek(s, p + n, 8));
    FromToBits(c, 8);
    BitOrDisjoint(v, c, n);
    assert c * Pow2(n) == Pow2(n) * c;
  }

  /** Taking the low bits off. */
  lemma FewerBits(s: seq<bool>, p: nat, n: nat, v: nat, m: nat)
    requires v == FromBits(Peek(s, p, n)) && m <= n
    ensures Low(v, m) == Num(s, p, m) && Shr(v, m) == FromBits(Peek(s, p + m, n - m))
  {
    hide FromBits, Peek, Low, Shr;
    PeekSplit(s, p, n, m);
    SplitBits(Peek(s, p, n), m);
  }

  lemma EmptyPeek(s: seq<bool>, p: nat, q: nat)
    ensures FromBits(Peek(s, p, 0)) == FromBits(Peek(s, q, 0))
  {
    assert Peek(s, p, 0) == [] == Peek(s, q, 0);
  }

  lemma AlignBack(m: nat, r: nat)
    requires r < 8 && r <= 8 * m
    ensures Align(8 * m - r) == 8 * m
  {
    if r > 0 {
      assert 8 * m - r == 8 * (m - 1) + (8 - r);
    }
  }

  lemma AlignIs(k: nat, n: nat)
    requires n <= 8 * k
    ensures Align(8 * k - n) == 8 * k - n + n % 8
  {
    var q, r := n / 8, n % 8;
    assert 8 * k - n == 8 * (k - q) - r;
    AlignBack(k - q, r);
  }

  /** The pieces one after another. */
  function Flat(pieces: seq<seq<byte>>): seq<byte> {
    if pieces == [] then [] else pieces[0] + Flat(pieces[1..])
  }

  lemma OnePiece(bs: seq<byte>)
    ensures Flat([bs]) == bs
  {
    assert bs + [] == bs;
  }

  /** The bytes cut into pieces of the given sizes, and what is left. */
  function Pieces(bs: seq<byte>, sizes: seq<nat>): seq<seq<byte>>
    decreases sizes
  {
    if sizes == [] then [bs]
    else
      var n := Min(sizes[0], |bs|);
      [bs[..n]] + Pieces(bs[n..], sizes[1..])
  }

  lemma {:induction false} PiecesFlat(bs: seq<byte>, sizes: seq<nat>)
    ensures Flat(Pieces(bs, sizes)) == bs
    decreases sizes
  {
    if sizes == [] {
      OnePiece(bs);
    } else {
      var n := Min(sizes[0], |bs|);
      var rest := Pieces(bs[n..], sizes[1..]);
      PiecesFlat(bs[n..], sizes[1..]);
      assert ([bs[..n]] + rest)[1..] == rest;
    }
  }

  class BitReader {
    const input: seq<byte>        // the input of all calls
    var later: seq<seq<byte>>     // what the calls to come will bring
    var end: nat                  // pIn_buf_end, as an index
    var cur: nat                  // pIn_buf_cur, as an index
    var bitBuf: nat               // bit_buf
    var numBits: nat              // num_bits
    ghost var pads: nat           // zero bytes read past the end

    /** The stream position of the next bit to be used. */
    ghost function Pos(): nat
      reads this
    {
      if numBits <= 8 * (cur + pads) then 8 * (cur + pads) - numBits else 0
    }

    ghost function S(): seq<bool> {
      BytesToBits(input)
    }

    ghost predicate InPieces()
      reads this
    {
      cur <= end <= |input| && input[end..] == Flat(later) && (pads > 0 ==> cur == end && later == [])
    }

    ghost predicate Holds()
      reads this
    {
      InPieces() && numBits <= 8 * (cur + pads) &&
      bitBuf == FromBits(Peek(S(), Pos(), numBits))
    }

    /** Between two reads: less than a byte is held once padding has begun, and the buffer
        of 32 bits is never full. */
    ghost predicate Valid()
      reads this
    {
      Holds() && numBits <= 30 && (pads > 0 ==> numBits < 8)
    }

    constructor (pieces: seq<seq<byte>>)
      ensures Valid() && Pos() == 0 && input == Flat(pieces) && numBits == 0 && pads == 0
    {
      input := Flat(pieces);
      later, end := pieces, 0;
      cur, bitBuf, numBits, pads := 0, 0, 0, 0;
    }

    /** The call returns `TINFL_STATUS_NEEDS_MORE_INPUT`, and the next one begins. */
    method NextCall()
      requires InPieces() && cur == end && later != []
      modifies this`end, this`later
      ensures InPieces() && |later| < |old(later)| && old(end) <= end
    {
      var piece := later[0];
      assert input[end..][..|piece|] == piece;
      assert input[end + |piece|..] == input[end..][|piece|..] == Flat(later[1..]);
      end := end + |piece|;
      later := later[1..];
    }

    /** On to a call that has input, if there is one. */
    method AwaitInput()
      requires InPieces()
      modifies this`end, this`later
      ensures InPieces() && old(end) <= end && (cur == end ==> later == [] && end == |input|)
    {
      while cur >= end && later != []
        invariant InPieces() && old(end) <= end
        decreases |later|
      {
        NextCall();
      }
      if cur == end { assert Flat(later) == []; }
    }

    /** The same between two reads. */
    method NeedInput() returns (some: bool)
      requires Valid()
      modifies this`end, this`later
      ensures Valid() && Pos() == old(Pos()) && (some ==> cur < end)
      ensures !some && numBits == 0 ==> Pos() >= |S()|
    {
      hide ToBits, BytesToBits, FromBits, Peek, Flat;
      AwaitInput();
      some := cur < end;
    }

    /** `TINFL_GET_BYTE`. */
    method GetByte() returns (c: byte)
      requires Holds()
      modifies this`cur, this`pads, this`end, this`later
      ensures InPieces() && cur + pads == old(cur + pads) + 1
      ensures old(pads) <= pads && (old(cur) < |input| ==> pads == 0)
      ensures Peek(S(), old(Pos()) + numBits, 8) == ToBits(c, 8)
    {
      hide ToBits, BytesToBits, FromBits, Peek;
      PeekByte(input, cur + pads);
      AwaitInput();
      if cur >= end {
        c := 0;
        pads := pads + 1;
      } else {
        c := input[cur];
        cur := cur + 1;
      }
    }

    /** The body of `TINFL_NEED_BITS`. */
    method MoreInput()
      requires Holds() && numBits <= 23
      modifies this
      ensures Holds() && numBits == old(numBits) + 8 && Pos() == old(Pos())
      ensures old(pads) <= pads && (old(cur) < |input| ==> pads == 0)
    {
      hide ToBits, BytesToBits, FromBits, Peek, BitOr;
      ghost var p := Pos();
      var c := GetByte();
      MoreBits(S(), p, numBits, bitBuf, c);
      bitBuf := BitOr(bitBuf, c * Pow2(numBits));
      numBits := numBits + 8;
    }

    /** Two bytes at once, when there are two. */
    method Prefetch()
      requires Valid() && numBits < 15 && end - cur >= 2
      modifies this
      ensures Valid() && numBits == old(numBits) + 16 && Pos() == old(Pos()) && pads == 0 && cur == old(cur) + 2 && end == old(end)
    {
      hide ToBits, BytesToBits, FromBits, Peek, BitOr;
      ghost var p, n, v := Pos(), numBits, bitBuf;
      PeekByte(input, cur);
      PeekByte(input, cur + 1);
      MoreBits(S(), p, n, v, input[cur]);
      MoreBits(S(), p, n + 8, BitOr(v, input[cur] * Pow2(n)), input[cur + 1]);
      bitBuf := BitOr(BitOr(bitBuf, input[cur] * Pow2(numBits)), input[cur + 1] * Pow2(numBits + 8));
      cur := cur + 2;
      numBits := numBits + 16;
    }

    method NeedBits(n: nat)
      requires Valid() && numBits < n <= 16
      modifies this
      ensures Holds() && n <= numBits < n + 8 && Pos() == old(Pos())
    {
      hide FromBits, Peek, BytesToBits;
      MoreInput();
      while numBits < n
        invariant Holds() && Pos() == old(Pos()) && numBits < n + 8
        decreases n + 8 - numBits
      {
        MoreInput();
      }
    }

    /** Drop `n` bits that are held. */
    method Drop(n: nat)
      requires Holds() && n <= numBits <= 30 && (pads > 0 ==> numBits < n + 8)
      modifies this`bitBuf, this`numBits
      ensures Valid() && Pos() == old(Pos()) + n && numBits == old(numBits) - n
    {
      hide FromBits, Peek, BytesToBits, Shr;
      FewerBits(S(), Pos(), numBits, bitBuf, n);
      bitBuf := Shr(bitBuf, n);
      numBits := numBits - n;
    }

    /** `TINFL_GET_BITS`. */
    method GetBits(n: nat) returns (b: nat)
      requires Valid() && n <= 16
      modifies this
      ensures Valid() && Pos() == old(Pos()) + n && b == Num(S(), old(Pos()), n)
      ensures numBits == if n <= old(numBits) then old(numBits) - n else numBits
    {
      hide FromBits, Peek, BytesToBits, Low, Num;
      if numBits < n { NeedBits(n); }
      FewerBits(S(), Pos(), numBits, bitBuf, n);
      b := Low(bitBuf, n);
      Drop(n);
    }

    /** `TINFL_SKIP_BITS(num_bits & 7)`: on to the next byte boundary. */
    method SkipToByte()
      requires Valid()
      modifies this
      ensures Valid() && Pos() == Align(old(Pos())) && numBits % 8 == 0 && (pads > 0 ==> numBits == 0)
    {
      hide FromBits, Peek, BytesToBits;
      var n := numBits % 8;
      AlignIs(cur + pads, numBits);
      Drop(n);
    }

    lemma FewHeld()
      requires Valid() && numBits % 8 == 0
      ensures numBits <= 24
    {
    }

    /** How far the input has been read: past its end exactly if the stream goes on there. */
    lemma Consumed()
      requires Valid()
      ensures pads > 0 <==> Pos() > 8 * |input|
      ensures Min((Pos() + 7) / 8, |input|) <= cur <= (Pos() + 30) / 8
      ensures numBits == 0 ==> cur == Min(Pos() / 8, |input|) && Pos() % 8 == 0
    {
    }

    /** A byte on a byte boundary that is held. */
    method HeldByte() returns (c: nat)
      requires Valid() && numBits > 0 && numBits % 8 == 0
      modifies this
      ensures Valid() && numBits == old(numBits) - 8 && (pads > 0 ==> numBits == 0)
      ensures Pos() == old(Pos()) + 8 <= |S()| && c == Num(S(), old(Pos()), 8) < 256
    {
      hide FromBits, Peek, BytesToBits, ToBits;
      Pow2Values();
      c := GetBits(8);
    }

    /** A byte on a byte boundary, from the bit buffer while it lasts. */
    method GetAligned() returns (c: nat)
      requires Valid() && numBits % 8 == 0 && (pads > 0 ==> numBits == 0)
      modifies this
      ensures Valid() && numBits == Max(0, old(numBits) - 8) && (pads > 0 ==> numBits == 0)
      ensures Pos() == old(Pos()) + 8 && c == Num(S(), old(Pos()), 8) < 256
    {
      hide FromBits, Peek, BytesToBits, ToBits;
      if numBits != 0 {
        c := HeldByte();
      } else {
        Pow2Values();
        ghost var p := Pos();
        c := GetByte();
        FromToBits(c, 8);
        EmptyPeek(S(), p, p + 8);
      }
    }

    /** On over whole bytes, taken from the input directly. */
    method SkipBytes(n: nat)
      requires Valid() && numBits == 0 && n <= end - cur && (n > 0 ==> pads == 0)
      modifies this`cur
      ensures Valid() && Pos() == old(Pos()) + 8 * n && cur == old(cur) + n
    {
      hide FromBits, Peek, BytesToBits;
      EmptyPeek(S(), Pos(), Pos() + 8 * n);
      cur := cur + n;
    }
  }
}
