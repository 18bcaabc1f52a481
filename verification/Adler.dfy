/** `mz_adler32` and the copy of it in `tinfl_decompress`: the checksum of section 2.2
    of RFC 1950, with the divisions put off for up to 5552 bytes. */
module Adler {
  import opened Bits

  const BASE := 65521
  const NMAX := 5552

  /** The sum of the bytes, reduced at every byte. */
  function S1(a: nat, bs: seq<byte>): nat {
    if bs == [] then a else (S1(a, bs[..|bs| - 1]) + bs[|bs| - 1]) % BASE
  }

  /** The sum of those sums, reduced at every byte. */
  function S2(a: nat, b: nat, bs: seq<byte>): nat {
    if bs == [] then b else (S2(a, b, bs[..|bs| - 1]) + S1(a, bs)) % BASE
  }

  /** The checksum `adler` continued over the bytes. */
  function Adler32(adler: nat, bs: seq<byte>): nat {
    var a, b := adler % 65536, adler / 65536;
    S2(a, b, bs) * 65536 + S1(a, bs)
  }

  lemma {:induction false} SumsConcat(a: nat, b: nat, x: seq<byte>, y: seq<byte>)
    ensures S1(a, x + y) == S1(S1(a, x), y)
    ensures S2(a, b, x + y) == S2(S1(a, x), S2(a, b, x), y)
  {
    if y == [] {
      assert x + y == x;
    } else {
      assert (x + y)[..|x + y| - 1] == x + y[..|y| - 1];
      SumsConcat(a, b, x, y[..|y| - 1]);
    }
  }

  lemma SumsSmall(a: nat, b: nat, bs: seq<byte>)
    requires bs != []
    ensures S1(a, bs) < BASE && S2(a, b, bs) < BASE
  {
  }

  lemma SumsEmpty(a: nat, b: nat)
    ensures S1(a, []) == a && S2(a, b, []) == b
  {
  }

  /** A checksum of a concatenation can be computed piece by piece. */
  lemma AdlerConcat(adler: nat, x: seq<byte>, y: seq<byte>)
    requires adler < 0x1_0000_0000
    ensures Adler32(adler, x) < 0x1_0000_0000
    ensures Adler32(Adler32(adler, x), y) == Adler32(adler, x + y)
  {
    hide S1, S2;
    var a, b := adler % 65536, adler / 65536;
    SumsConcat(a, b, x, y);
    if x != [] {
      SumsSmall(a, b, x);
    } else {
      SumsEmpty(a, b);
    }
  }

  // ---------------------------------------------------------------- without reductions

  function R1(a: nat, bs: seq<byte>): nat {
    if bs == [] then a else R1(a, bs[..|bs| - 1]) + bs[|bs| - 1]
  }

  function R2(a: nat, b: nat, bs: seq<byte>): nat {
    if bs == [] then b else R2(a, b, bs[..|bs| - 1]) + R1(a, bs)
  }

  lemma ModAdd(x: nat, y: nat, u: nat, v: nat)
    requires x % BASE == u % BASE && y % BASE == v % BASE
    ensures (x + y) % BASE == ((u + v) % BASE) % BASE
  {
  }

  /** Reducing at the end gives the same as reducing at every byte. */
  lemma {:induction false} Deferred(a: nat, b: nat, c: nat, d: nat, bs: seq<byte>)
    requires a % BASE == c % BASE && b % BASE == d % BASE
    ensures R1(a, bs) % BASE == S1(c, bs) % BASE && R2(a, b, bs) % BASE == S2(c, d, bs) % BASE
  {
    if bs != [] {
      var t, x := bs[..|bs| - 1], bs[|bs| - 1];
      Deferred(a, b, c, d, t);
      ModAdd(R1(a, t), x, S1(c, t), x);
      ModAdd(R2(a, b, t), R1(a, bs), S2(c, d, t), S1(c, bs));
    }
  }

  lemma {:induction false} RawBound(a: nat, b: nat, bs: seq<byte>)
    ensures R1(a, bs) <= a + 255 * |bs|
    ensures 2 * R2(a, b, bs) <= 2 * b + |bs| * (2 * a + 255 * (|bs| + 1))
  {
    if bs != [] {
      var n := |bs|;
      RawBound(a, b, bs[..n - 1]);
      MulDistrib(n - 1, 1, 2 * a + 255 * n);
      MulDistrib(2 * a + 255 * n, 255, n);
    }
  }

  /** Neither sum leaves 32 bits within a block, even when the block begins unreduced. */
  lemma NoOverflow(a: nat, b: nat, bs: seq<byte>)
    requires (a <= 65535 && b <= 65535 && |bs| < NMAX) || (a < BASE && b < BASE && |bs| <= NMAX)
    ensures R1(a, bs) < 0x1_0000_0000 && R2(a, b, bs) < 0x1_0000_0000
  {
    var n := |bs|;
    RawBound(a, b, bs);
    if n < NMAX {
      MulMono(n, NMAX - 1, 2 * a + 255 * (n + 1));
    } else {
      assert n == NMAX;
    }
  }

  // ---------------------------------------------------------------- in closed form

  function ByteSum(bs: seq<byte>): nat {
    if bs == [] then 0 else bs[0] + ByteSum(bs[1..])
  }

  /** Every byte as often as there are bytes from it on. */
  function WeightedSum(bs: seq<byte>): nat {
    if bs == [] then 0 else |bs| * bs[0] + WeightedSum(bs[1..])
  }

  lemma {:induction false} SumsSnoc(bs: seq<byte>, x: byte)
    ensures ByteSum(bs + [x]) == ByteSum(bs) + x && WeightedSum(bs + [x]) == WeightedSum(bs) + ByteSum(bs) + x
  {
    if bs == [] {
      assert bs + [x] == [x];
    } else {
      assert (bs + [x])[1..] == bs[1..] + [x];
      SumsSnoc(bs[1..], x);
      MulDistrib(|bs|, 1, bs[0]);
    }
  }

  lemma {:induction false} RawClosed(a: nat, b: nat, bs: seq<byte>)
    ensures R1(a, bs) == a + ByteSum(bs) && R2(a, b, bs) == b + |bs| * a + WeightedSum(bs)
  {
    if bs != [] {
      var t, x := bs[..|bs| - 1], bs[|bs| - 1];
      assert bs == t + [x];
      RawClosed(a, b, t);
      SumsSnoc(t, x);
      MulDistrib(|t|, 1, a);
    }
  }

  /** Section 8.2 of RFC 1950: the checksum of some bytes is the sum of the bytes and the sum of
      those sums, modulo 65521. */
  lemma AdlerClosed(adler: nat, bs: seq<byte>)
    requires adler < 0x1_0000_0000 && (bs != [] || (adler % 65536 < 65521 && adler / 65536 < 65521))
    ensures var a, b := adler % 65536, adler / 65536;
            Adler32(adler, bs) == (b + |bs| * a + WeightedSum(bs)) % 65521 * 65536 + (a + ByteSum(bs)) % 65521
  {
    hide R1, R2, S1, S2, ByteSum, WeightedSum;
    var a, b := adler % 65536, adler / 65536;
    RawClosed(a, b, bs);
    Deferred(a, b, a, b, bs);
    if bs == [] { SumsEmpty(a, b); } else { SumsSmall(a, b, bs); }
  }

  /** From the start value one. */
  lemma AdlerOfAll(bs: seq<byte>)
    ensures Adler32(1, bs) == (|bs| + WeightedSum(bs)) % 65521 * 65536 + (1 + ByteSum(bs)) % 65521
  {
    hide Adler32, ByteSum, WeightedSum;
    AdlerClosed(1, bs);
  }

  // ---------------------------------------------------------------- the loops

  lemma RawSnoc(a: nat, b: nat, buf: seq<byte>, p: nat, i: nat)
    requires p + i < |buf|
    ensures R1(a, buf[p..p + i + 1]) == R1(a, buf[p..p + i]) + buf[p + i]
    ensures R2(a, b, buf[p..p + i + 1]) == R2(a, b, buf[p..p + i]) + R1(a, buf[p..p + i + 1])
  {
    assert buf[p..p + i + 1][..i] == buf[p..p + i];
  }

  /** Sums that fit 32 bits, over the first `i` bytes of a block. */
  ghost predicate Summed(s1: nat, s2: nat, a: nat, b: nat, buf: seq<byte>, p: nat, i: nat, len: nat) {
    i <= len && p + len <= |buf| &&
    ((a <= 65535 && b <= 65535 && len < NMAX) || (a < BASE && b < BASE && len <= NMAX)) &&
    s1 == R1(a, buf[p..p + i]) && s2 == R2(a, b, buf[p..p + i])
  }

  /** `s1 += c, s2 += s1` in 32-bit arithmetic. */
  method AddByte(s1: nat, s2: nat, buf: seq<byte>, i: nat, ghost a: nat, ghost b: nat, ghost p: nat, ghost len: nat)
    returns (t1: nat, t2: nat)
    requires i < |buf| && p <= i < p + len && Summed(s1, s2, a, b, buf, p, i - p, len)
    ensures Summed(t1, t2, a, b, buf, p, i + 1 - p, len)
  {
    RawSnoc(a, b, buf, p, i - p);
    NoOverflow(a, b, buf[p..p + (i - p) + 1]);
    t1 := (s1 + buf[i]) % 0x1_0000_0000;
    t2 := (s2 + t1) % 0x1_0000_0000;
  }

  lemma SumStart(a: nat, b: nat, buf: seq<byte>, p: nat)
    requires p <= |buf|
    ensures R1(a, buf[p..p + 0]) == a && R2(a, b, buf[p..p + 0]) == b
  {
    assert buf[p..p + 0] == [];
  }

  /** One block: eight bytes a round, then the rest. */
  method SumBlock(a: nat, b: nat, buf: seq<byte>, p: nat, len: nat) returns (s1: nat, s2: nat)
    requires p + len <= |buf|
    requires (a <= 65535 && b <= 65535 && len < NMAX) || (a < BASE && b < BASE && len <= NMAX)
    ensures s1 == R1(a, buf[p..p + len]) && s2 == R2(a, b, buf[p..p + len])
  {
    hide R1, R2;
    s1, s2 := a, b;
    SumStart(a, b, buf, p);
    var i := 0;
    while i + 7 < len
      invariant Summed(s1, s2, a, b, buf, p, i, len)
    {
      s1, s2 := AddByte(s1, s2, buf, p + i, a, b, p, len);
      s1, s2 := AddByte(s1, s2, buf, p + i + 1, a, b, p, len);
      s1, s2 := AddByte(s1, s2, buf, p + i + 2, a, b, p, len);
      s1, s2 := AddByte(s1, s2, buf, p + i + 3, a, b, p, len);
      s1, s2 := AddByte(s1, s2, buf, p + i + 4, a, b, p, len);
      s1, s2 := AddByte(s1, s2, buf, p + i + 5, a, b, p, len);
      s1, s2 := AddByte(s1, s2, buf, p + i + 6, a, b, p, len);
      s1, s2 := AddByte(s1, s2, buf, p + i + 7, a, b, p, len);
      i := i + 8;
    }
    while i < len
      invariant Summed(s1, s2, a, b, buf, p, i, len)
    {
      s1, s2 := AddByte(s1, s2, buf, p + i, a, b, p, len);
      i := i + 1;
    }
  }

  /** The reduced sums after the bytes before `p`, of which only the first may be unreduced. */
  ghost predicate Reduced(s1: nat, s2: nat, a: nat, b: nat, buf: seq<byte>, p: nat) {
    p <= |buf| && s1 % BASE == S1(a, buf[..p]) % BASE && s2 % BASE == S2(a, b, buf[..p]) % BASE
  }

  lemma BlockReduced(s1: nat, s2: nat, a: nat, b: nat, buf: seq<byte>, p: nat, len: nat)
    requires Reduced(s1, s2, a, b, buf, p) && p + len <= |buf|
    ensures Reduced(R1(s1, buf[p..p + len]) % BASE, R2(s1, s2, buf[p..p + len]) % BASE, a, b, buf, p + len)
  {
    hide R1, R2, S1, S2;
    assert buf[..p + len] == buf[..p] + buf[p..p + len];
    SumsConcat(a, b, buf[..p], buf[p..p + len]);
    Deferred(s1, s2, S1(a, buf[..p]), S2(a, b, buf[..p]), buf[p..p + len]);
  }

  lemma ReducedStart(a: nat, b: nat, buf: seq<byte>)
    ensures Reduced(a, b, a, b, buf, 0)
  {
  }

  lemma ReducedEnd(s1: nat, s2: nat, a: nat, b: nat, buf: seq<byte>)
    requires Reduced(s1, s2, a, b, buf, |buf|)
    requires if buf == [] then s1 == a && s2 == b else s1 < BASE && s2 < BASE
    ensures s1 == S1(a, buf) && s2 == S2(a, b, buf)
  {
    hide S1, S2;
    assert buf[..|buf|] == buf;
    if buf == [] {
      SumsEmpty(a, b);
    } else {
      SumsSmall(a, b, buf);
    }
  }

  /** After the first block the rest is a number of whole blocks. */
  lemma WholeBlocks(left: nat, len: nat)
    requires len <= left && left % NMAX == len % NMAX
    ensures (left - len) % NMAX == 0 && (left == len || left - len >= NMAX)
  {
    var q := left / NMAX - len / NMAX;
    assert left - len == 0 + NMAX * q;
    DivModUnique(0, q, NMAX);
  }

  /** `mz_adler32`. */
  method Update(adler: nat, buf: seq<byte>) returns (r: nat)
    requires adler < 0x1_0000_0000
    ensures r == Adler32(adler, buf) && r < 0x1_0000_0000
    ensures var a, b := adler % 65536, adler / 65536;
            buf != [] || (a < 65521 && b < 65521) ==>
              r == (b + |buf| * a + WeightedSum(buf)) % 65521 * 65536 + (a + ByteSum(buf)) % 65521
  {
    hide R1, R2, S1, S2, Reduced, ByteSum, WeightedSum;
    var s1: nat, s2: nat := adler % 65536, adler / 65536;
    ghost var a, b := s1, s2;
    var left: nat, p: nat, blockLen: nat := |buf|, 0, |buf| % NMAX;
    ReducedStart(a, b, buf);
    while left != 0
      invariant p + left == |buf| && (left != 0 ==> blockLen <= left && left % NMAX == blockLen % NMAX)
      invariant Reduced(s1, s2, a, b, buf, p) && s1 <= 65535 && s2 <= 65535
      invariant (blockLen < NMAX && p == 0) || (blockLen == NMAX && s1 < BASE && s2 < BASE) || left == 0
      invariant left == 0 ==> if buf == [] then s1 == a && s2 == b else s1 < BASE && s2 < BASE
      decreases left, blockLen < NMAX
    {
      WholeBlocks(left, blockLen);
      BlockReduced(s1, s2, a, b, buf, p, blockLen);
      s1, s2 := SumBlock(s1, s2, buf, p, blockLen);
      s1, s2 := s1 % BASE, s2 % BASE;
      p, left := p + blockLen, left - blockLen;
      blockLen := NMAX;
    }
    ReducedEnd(s1, s2, a, b, buf);
    r := s2 * 65536 + s1;
    if buf != [] || (a < 65521 && b < 65521) { AdlerClosed(adler, buf); }
  }
}
