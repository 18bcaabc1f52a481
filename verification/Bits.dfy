/** Bits, bytes and the powers of two that shifts and masks stand for.

    A bit stream is a `seq<bool>`, in the order of section 3.1.1 of RFC 1951: the
    least significant bit of a byte or of a number comes first. */
module Bits {

  type byte = x: int | 0 <= x < 256

  function Pow2(n: nat): (p: nat)
    ensures p >= 1
  {
    if n == 0 then 1 else 2 * Pow2(n - 1)
  }

  /** The low `n` bits of `v`, least significant first. */
  function ToBits(v: nat, n: nat): (b: seq<bool>)
    ensures |b| == n
  {
    if n == 0 then [] else [v % 2 == 1] + ToBits(v / 2, n - 1)
  }

  function FromBits(b: seq<bool>): (v: nat)
    ensures v < Pow2(|b|)
  {
    if b == [] then 0 else (if b[0] then 1 else 0) + 2 * FromBits(b[1..])
  }

  function BytesToBits(bs: seq<byte>): (b: seq<bool>)
    ensures |b| == 8 * |bs|
  {
    if bs == [] then [] else ToBits(bs[0], 8) + BytesToBits(bs[1..])
  }

  function Zeros(n: nat): (b: seq<bool>)
    ensures |b| == n
  {
    seq(n, (i: nat) => false)
  }

  /** The C operator `|` on unsigned numbers. */
  function BitOr(a: nat, b: nat): nat
    decreases a + b
  {
    if a == 0 && b == 0 then 0
    else (if a % 2 == 1 || b % 2 == 1 then 1 else 0) + 2 * BitOr(a / 2, b / 2)
  }

  /** The C operator `^` on unsigned numbers. */
  function BitXor(a: nat, b: nat): nat
    decreases a + b
  {
    if a == 0 && b == 0 then 0
    else (if a % 2 != b % 2 then 1 else 0) + 2 * BitXor(a / 2, b / 2)
  }

  lemma DivBound(a: nat, m: nat)
    requires m > 0
    ensures 0 <= (a / m) * m <= a < (a / m) * m + m
    ensures 0 <= a / m
  {
    assert a == m * (a / m) + a % m;
  }

  /** The C expressions `v >> n` and `v & ((1 << n) - 1)`. */
  function Shr(v: nat, n: nat): nat {
    DivBound(v, Pow2(n));
    v / Pow2(n)
  }

  function Low(v: nat, n: nat): (r: nat)
    ensures r < Pow2(n)
  {
    v % Pow2(n)
  }

  function Min(a: int, b: int): int {
    if a < b then a else b
  }

  function Max(a: int, b: int): int {
    if a < b then b else a
  }

  // ---------------------------------------------------------------- arithmetic

  lemma MulAssoc(a: int, b: int, c: int)
    ensures a * (b * c) == (a * b) * c
  {
  }

  lemma {:induction false} Pow2Add(a: nat, b: nat)
    ensures Pow2(a + b) == Pow2(a) * Pow2(b)
  {
    if a > 0 {
      Pow2Add(a - 1, b);
      MulAssoc(2, Pow2(a - 1), Pow2(b));
    }
  }

  lemma {:induction false} Pow2Mono(a: nat, b: nat)
    requires a <= b
    ensures Pow2(a) <= Pow2(b)
    decreases b - a
  {
    if a < b { Pow2Mono(a, b - 1); }
  }

  lemma Pow2Values()
    ensures Pow2(0) == 1 && Pow2(1) == 2 && Pow2(2) == 4 && Pow2(3) == 8 && Pow2(4) == 16
    ensures Pow2(5) == 32 && Pow2(6) == 64 && Pow2(7) == 128 && Pow2(8) == 256 && Pow2(9) == 512
    ensures Pow2(10) == 1024 && Pow2(11) == 2048 && Pow2(12) == 4096 && Pow2(13) == 8192
    ensures Pow2(14) == 16384 && Pow2(15) == 32768 && Pow2(16) == 65536
  {
    assert Pow2(4) == 16;
    assert Pow2(8) == 256;
    assert Pow2(12) == 4096;
  }

  lemma MulDistrib(a: int, b: int, c: int)
    ensures (a + b) * c == a * c + b * c
  {
  }

  lemma MulBelow(m: int, k: int, x: int)
    requires m * k == x && -m < x < m
    ensures k == 0
  {
  }

  lemma DivModUnique(x: int, q: int, m: int)
    requires 0 <= x < m
    ensures (x + m * q) / m == q && (x + m * q) % m == x
  {
    var y := x + m * q;
    var d, r := y / m, y % m;
    assert y == m * d + r;
    assert m * (d - q) == m * d - m * q;
    MulBelow(m, d - q, x - r);
  }

  lemma MulMono(a: int, b: int, c: int)
    requires a <= b && 0 <= c
    ensures a * c <= b * c
  {
  }

  lemma LowIs(v: nat, n: nat, q: nat)
    requires q * Pow2(n) <= v < q * Pow2(n) + Pow2(n)
    ensures Low(v, n) == v - q * Pow2(n) && Shr(v, n) == q
  {
    DivModUnique(v - q * Pow2(n), q, Pow2(n));
  }

  lemma DivDiv(v: nat, a: nat, b: nat)
    requires a > 0 && b > 0
    ensures (v / a) / b == v / (a * b)
  {
    var q := (v / a) / b;
    var r, s := v % a, (v / a) % b;
    assert v == a * (v / a) + r && v / a == b * q + s;
    MulDistrib(b * q, s, a);
    assert a * (b * q + s) == (a * b) * q + a * s by { MulAssoc(a, b, q); }
    assert v == (a * b) * q + (a * s + r);
    MulMono(s, b - 1, a);
    assert a * s + r < a * b;
    DivModUnique(a * s + r, q, a * b);
  }

  lemma ShrStep(v: nat, j: nat)
    ensures Shr(v / 2, j) == Shr(v, j + 1)
    ensures Shr(Shr(v, j), 1) == Shr(v, j + 1) == Shr(v, j) / 2
  {
    var m := Pow2(j);
    DivDiv(v, 2, m);
    DivDiv(v, m, 2);
    assert Pow2(j + 1) == 2 * m;
  }

  // ---------------------------------------------------------------- conversions

  lemma {:induction false} FromBitsConcat(a: seq<bool>, b: seq<bool>)
    ensures FromBits(a + b) == FromBits(a) + Pow2(|a|) * FromBits(b)
  {
    if a == [] {
      assert a + b == b;
    } else {
      assert (a + b)[1..] == a[1..] + b;
      FromBitsConcat(a[1..], b);
      MulAssoc(2, Pow2(|a| - 1), FromBits(b));
    }
  }

  lemma {:induction false} FromToBits(v: nat, n: nat)
    requires v < Pow2(n)
    ensures FromBits(ToBits(v, n)) == v
  {
    if n > 0 {
      FromToBits(v / 2, n - 1);
      assert ToBits(v, n)[1..] == ToBits(v / 2, n - 1);
    }
  }

  lemma {:induction false} ToFromBits(b: seq<bool>)
    ensures ToBits(FromBits(b), |b|) == b
  {
    if b != [] {
      ToFromBits(b[1..]);
      assert FromBits(b) / 2 == FromBits(b[1..]);
    }
  }

  lemma {:induction false} FromZeros(n: nat)
    ensures FromBits(Zeros(n)) == 0
  {
    if n > 0 {
      assert Zeros(n)[1..] == Zeros(n - 1);
      FromZeros(n - 1);
    }
  }

  lemma FromBitsInjective(a: seq<bool>, b: seq<bool>)
    requires |a| == |b| && FromBits(a) == FromBits(b)
    ensures a == b
  {
    ToFromBits(a);
    ToFromBits(b);
  }

  /** Masking keeps the first bits, shifting right drops them. */
  lemma SplitBits(b: seq<bool>, n: nat)
    requires n <= |b|
    ensures Low(FromBits(b), n) == FromBits(b[..n])
    ensures Shr(FromBits(b), n) == FromBits(b[n..])
  {
    hide FromBits, Pow2;
    assert b == b[..n] + b[n..];
    FromBitsConcat(b[..n], b[n..]);
    DivModUnique(FromBits(b[..n]), FromBits(b[n..]), Pow2(n));
  }

  lemma {:induction false} BitOfShr(v: nat, n: nat, j: nat)
    requires j < n
    ensures ToBits(v, n)[j] == (Shr(v, j) % 2 == 1)
  {
    if j > 0 {
      BitOfShr(v / 2, n - 1, j - 1);
      ShrStep(v, j - 1);
    }
  }

  lemma SplitToBits(v: nat, n: nat, m: nat)
    requires v < Pow2(n + m)
    ensures ToBits(v, n + m)[..n] == ToBits(Low(v, n), n)
    ensures ToBits(v, n + m)[n..] == ToBits(Shr(v, n), m)
  {
    var b := ToBits(v, n + m);
    FromToBits(v, n + m);
    SplitBits(b, n);
    ToFromBits(b[..n]);
    ToFromBits(b[n..]);
  }

  lemma {:induction false} BytesToBitsConcat(a: seq<byte>, b: seq<byte>)
    ensures BytesToBits(a + b) == BytesToBits(a) + BytesToBits(b)
  {
    if a == [] {
      assert a + b == b;
    } else {
      assert (a + b)[1..] == a[1..] + b;
      BytesToBitsConcat(a[1..], b);
    }
  }

  lemma BytesToBitsOne(c: byte)
    ensures BytesToBits([c]) == ToBits(c, 8)
  {
    assert [c][1..] == [];
    assert BytesToBits([]) == [];
  }

  lemma BytesToBitsTake(bs: seq<byte>, i: nat)
    requires i <= |bs|
    ensures BytesToBits(bs)[..8 * i] == BytesToBits(bs[..i])
    ensures BytesToBits(bs)[8 * i..] == BytesToBits(bs[i..])
  {
    assert bs == bs[..i] + bs[i..];
    BytesToBitsConcat(bs[..i], bs[i..]);
  }

  lemma BytesToBitsAt(bs: seq<byte>, i: nat)
    requires i < |bs|
    ensures BytesToBits(bs)[8 * i..8 * i + 8] == ToBits(bs[i], 8)
  {
    BytesToBitsTake(bs, i);
    assert bs[i..][0] == bs[i];
    assert BytesToBits(bs[i..])[..8] == ToBits(bs[i], 8);
    assert BytesToBits(bs)[8 * i..8 * i + 8] == BytesToBits(bs)[8 * i..][..8];
  }

  lemma {:induction false} BitOrZero(b: nat)
    ensures BitOr(0, b) == b
  {
    if b > 0 { BitOrZero(b / 2); }
  }

  /** Or-ing a shifted value into a buffer whose upper bits are clear adds it. */
  lemma {:induction false} BitOrDisjoint(a: nat, b: nat, n: nat)
    requires a < Pow2(n)
    ensures BitOr(a, b * Pow2(n)) == a + b * Pow2(n)
    decreases n, b
  {
    if n == 0 {
      BitOrZero(b);
    } else {
      var c := b * Pow2(n - 1);
      assert b * Pow2(n) == 2 * c;
      BitOrDisjoint(a / 2, b, n - 1);
    }
  }

  lemma {:induction false} XorOnes(v: nat, n: nat)
    requires v < Pow2(n)
    ensures BitXor(v, Pow2(n) - 1) == Pow2(n) - 1 - v
  {
    if n > 0 { XorOnes(v / 2, n - 1); }
  }
}
