/** The compressor's bit buffer and output buffer (`TDEFL_PUT_BITS`). */
module BitOutput {
  import opened Bits

  const OUT_BUF_SIZE := 85196       // TDEFL_OUT_BUF_SIZE
  const OUT_BUF_END := 85180        // m_pOutput_buf_end, 16 bytes short of the end

  lemma AppendBits(v: nat, n: nat, b: nat, l: nat)
    requires v < Pow2(n) && b < Pow2(l)
    ensures BitOr(v, b * Pow2(n)) < Pow2(n + l)
    ensures ToBits(BitOr(v, b * Pow2(n)), n + l) == ToBits(v, n) + ToBits(b, l)
  {
    hide ToBits, FromBits, BitOr, Pow2;
    var a := ToBits(v, n) + ToBits(b, l);
    FromBitsConcat(ToBits(v, n), ToBits(b, l));
    FromToBits(v, n);
    FromToBits(b, l);
    BitOrDisjoint(v, b, n);
    ToFromBits(a);
  }

  lemma EmitByte(bs: seq<byte>, put: seq<bool>, v: nat, n: nat)
    requires 8 <= n <= |put| && v < Pow2(n) && |put| - n == 8 * |bs|
    requires BytesToBits(bs) == put[..8 * |bs|] && put[|put| - n..] == ToBits(v, n)
    ensures Low(v, 8) < 256 && BytesToBits(bs + [Low(v, 8)]) == put[..8 * |bs| + 8]
  {
    hide ToBits, BytesToBits, Low;
    Pow2Values();
    SplitToBits(v, 8, n - 8);
    BytesToBitsConcat(bs, [Low(v, 8)]);
    BytesToBitsOne(Low(v, 8));
    assert put[8 * |bs|..8 * |bs| + 8] == put[8 * |bs|..][..8];
    assert put[..8 * |bs| + 8] == put[..8 * |bs|] + put[8 * |bs|..8 * |bs| + 8];
  }

  lemma ShrBelow(v: nat, n: nat, m: nat)
    requires v < Pow2(n + m)
    ensures Shr(v, n) < Pow2(m)
  {
    Pow2Add(n, m);
    DivBound(v, Pow2(n));
    if Shr(v, n) >= Pow2(m) {
      MulMono(Pow2(m), Shr(v, n), Pow2(n));
    }
  }

  lemma DropByte(put: seq<bool>, v: nat, n: nat)
    requires 8 <= n <= |put| && v < Pow2(n) && put[|put| - n..] == ToBits(v, n)
    ensures Shr(v, 8) < Pow2(n - 8) && put[|put| - (n - 8)..] == ToBits(Shr(v, 8), n - 8)
  {
    SplitToBits(v, 8, n - 8);
    assert put[|put| - (n - 8)..] == put[|put| - n..][8..];
    Pow2Add(8, n - 8);
    ShrBelow(v, 8, n - 8);
  }

  /** The bits in the bit buffer are the last of `put`; the others have gone to the
      output buffer, as far as there was room. */
  ghost predicate IsState(pos: nat, bitBuffer: nat, bitsIn: nat, put: seq<bool>) {
    bitBuffer < Pow2(bitsIn) && bitsIn <= |put| && (|put| - bitsIn) % 8 == 0 &&
    put[|put| - bitsIn..] == ToBits(bitBuffer, bitsIn) &&
    pos == Min((|put| - bitsIn) / 8, OUT_BUF_END)
  }

  lemma StateBound(pos: nat, v: nat, n: nat, put: seq<bool>)
    requires IsState(pos, v, n, put)
    ensures v < Pow2(n) && 8 * pos + n <= |put| && pos <= OUT_BUF_END
    ensures pos < OUT_BUF_END ==> |put| - n == 8 * pos
    ensures put[|put| - n..] == ToBits(v, n)
  {
    hide ToBits, Pow2;
  }

  lemma CutConcat(p: seq<bool>, x: seq<bool>, i: nat)
    requires i <= |p|
    ensures (p + x)[i..] == p[i..] + x && (p + x)[..i] == p[..i]
  {
  }

  lemma StateIs(pos: nat, v: nat, n: nat, put: seq<bool>)
    ensures IsState(pos, v, n, put) <==>
            v < Pow2(n) && n <= |put| && (|put| - n) % 8 == 0 && put[|put| - n..] == ToBits(v, n) &&
            pos == Min((|put| - n) / 8, OUT_BUF_END)
  {
  }

  lemma AppendState(pos: nat, v: nat, n: nat, put: seq<bool>, b: nat, l: nat)
    requires IsState(pos, v, n, put) && b < Pow2(l)
    ensures IsState(pos, BitOr(v, b * Pow2(n)), n + l, put + ToBits(b, l))
    ensures 8 * pos <= |put| && (put + ToBits(b, l))[..8 * pos] == put[..8 * pos]
  {
    hide *;
    StateBound(pos, v, n, put);
    AppendBits(v, n, b, l);
    CutConcat(put, ToBits(b, l), |put| - n);
    CutConcat(put, ToBits(b, l), 8 * pos);
    StateIs(pos, v, n, put);
    StateIs(pos, BitOr(v, b * Pow2(n)), n + l, put + ToBits(b, l));
  }

  lemma ShiftState(pos: nat, v: nat, n: nat, put: seq<bool>)
    requires IsState(pos, v, n, put) && 8 <= n
    ensures IsState(if pos < OUT_BUF_END then pos + 1 else pos, Shr(v, 8), n - 8, put)
  {
    hide ToBits, Shr, Pow2;
    DropByte(put, v, n);
  }

  class BitWriter {
    const buf: array<byte>   // m_output_buf
    var pos: nat             // m_pOutput_buf, as an index
    var bitBuffer: nat       // m_bit_buffer
    var bitsIn: nat          // m_bits_in
    ghost var put: seq<bool> // the bits carried over when this buffer was begun, and all put since

    ghost predicate Holds()
      reads this, buf
    {
      IsState(pos, bitBuffer, bitsIn, put) && pos <= buf.Length && BytesToBits(buf[..pos]) == put[..8 * pos]
    }

    /** The bits in the bit buffer are the last of `put`, and the bytes in the output
        buffer the first; bytes that came when the buffer was full were dropped. */
    ghost predicate Valid()
      reads this, buf
    {
      buf.Length == OUT_BUF_SIZE && bitsIn < 8 && Holds()
    }

    constructor ()
      ensures Valid() && fresh(this) && fresh(buf) && put == [] && bitsIn == 0
    {
      buf := new byte[OUT_BUF_SIZE];
      pos, bitBuffer, bitsIn, put := 0, 0, 0, [];
    }

    method Append(b: nat, l: nat)
      requires Valid() && b < Pow2(l)
      modifies this
      ensures Holds() && buf.Length == OUT_BUF_SIZE
      ensures bitsIn == old(bitsIn) + l && put == old(put) + ToBits(b, l)
    {
      hide ToBits, BytesToBits, BitOr, IsState, Pow2;
      AppendState(pos, bitBuffer, bitsIn, put, b, l);
      put := put + ToBits(b, l);
      bitBuffer := BitOr(bitBuffer, b * Pow2(bitsIn));
      bitsIn := bitsIn + l;
    }

    /** The body of the loop in `TDEFL_PUT_BITS`. */
    method Shift()
      requires buf.Length == OUT_BUF_SIZE && 8 <= bitsIn && Holds()
      modifies this, buf
      ensures Holds() && bitsIn == old(bitsIn) - 8 && put == old(put)
    {
      hide ToBits, BytesToBits, Low, Shr, IsState, Pow2;
      ShiftState(pos, bitBuffer, bitsIn, put);
      StateBound(pos, bitBuffer, bitsIn, put);
      if pos < OUT_BUF_END {
        EmitByte(buf[..pos], put, bitBuffer, bitsIn);
        ghost var bs := buf[..pos];
        buf[pos] := Low(bitBuffer, 8);
        assert buf[..pos + 1] == bs + [Low(bitBuffer, 8)];
        pos := pos + 1;
      }
      bitBuffer := Shr(bitBuffer, 8);
      bitsIn := bitsIn - 8;
    }

    /** `TDEFL_PUT_BITS(b, l)`; the 32-bit buffer never holds more than 23 bits. */
    method PutBits(b: nat, l: nat)
      requires Valid() && b < Pow2(l) && l <= 16
      modifies this, buf
      ensures Valid() && put == old(put) + ToBits(b, l)
    {
      hide ToBits, BytesToBits, IsState, Pow2;
      Append(b, l);
      while bitsIn >= 8
        invariant bitsIn <= 23 && Holds() && buf.Length == OUT_BUF_SIZE
        invariant put == old(put) + ToBits(b, l)
      {
        Shift();
      }
    }

    /** Roll back to a state saved after `put0` had been put. */
    method Restore(pos0: nat, bitBuffer0: nat, bitsIn0: nat, ghost put0: seq<bool>)
      requires Valid() && put0 <= put && bitsIn0 < 8 && IsState(pos0, bitBuffer0, bitsIn0, put0)
      modifies this
      ensures Valid() && put == put0
    {
      hide BytesToBits, ToBits, Pow2;
      assert pos0 <= pos;
      assert buf[..pos][..pos0] == buf[..pos0];
      BytesToBitsTake(buf[..pos], pos0);
      assert put[..8 * pos][..8 * pos0] == put0[..8 * pos0];
      pos, bitBuffer, bitsIn, put := pos0, bitBuffer0, bitsIn0, put0;
    }

    /** Start filling the output buffer again, keeping the bits not yet written out. */
    method Begin()
      requires Valid()
      modifies this
      ensures Valid() && put == ToBits(old(bitBuffer), old(bitsIn))
    {
      pos, put := 0, put[|put| - bitsIn..];
      assert buf[..0] == [];
    }

    /** While the buffer is not full nothing has been dropped. */
    lemma NothingDropped()
      requires Valid() && pos < OUT_BUF_END
      ensures buf.Length == OUT_BUF_SIZE && put == BytesToBits(buf[..pos]) + ToBits(bitBuffer, bitsIn)
      ensures |put| == 8 * pos + bitsIn
    {
    }
  }
}
