/** Canonical Huffman codes, as section 3.2.2 of RFC 1951 defines them from a
    vector of code lengths: shorter codes come first, and among codes of one
    length the smaller symbol comes first. Both the compressor and the
    decompressor are proved against these definitions. */
module Canonical {
  import opened Bits

  datatype Option<+T> = None | Some(value: T)

  /** A vector of code lengths; length 0 means that the symbol has no code. */
  predicate ValidLens(lens: seq<nat>) {
    forall i :: 0 <= i < |lens| ==> lens[i] <= 15
  }

  /** The part of the code space, in units of 2^-15, that a code of length `l` takes. */
  function Weight(l: nat): nat
    requires l <= 15
  {
    if l == 0 then 0 else Pow2(15 - l)
  }

  function Kraft(lens: seq<nat>): nat
    requires ValidLens(lens)
  {
    if lens == [] then 0 else Kraft(lens[..|lens| - 1]) + Weight(lens[|lens| - 1])
  }

  /** The first code of length `l` (`next_code[l]`), counting only symbols below `n`. */
  function FirstCode(lens: seq<nat>, l: nat, n: nat): nat
    requires n <= |lens|
  {
    if n == 0 then 0
    else FirstCode(lens, l, n - 1) + (if 0 < lens[n - 1] < l then Pow2(l - lens[n - 1]) else 0)
  }

  /** How many of the symbols below `n` have a code of length `l`. */
  function CountLen(lens: seq<nat>, l: nat, n: nat): nat
    requires n <= |lens|
  {
    if n == 0 then 0 else CountLen(lens, l, n - 1) + (if lens[n - 1] == l then 1 else 0)
  }

  function CodeVal(lens: seq<nat>, s: nat): nat
    requires s < |lens|
  {
    FirstCode(lens, lens[s], |lens|) + CountLen(lens, lens[s], s)
  }

  function Rev(b: seq<bool>): (r: seq<bool>)
    ensures |r| == |b|
  {
    seq(|b|, (i: nat) requires i < |b| => b[|b| - 1 - i])
  }

  /** A code as it stands in the stream: its most significant bit first. */
  function CodeBits(lens: seq<nat>, s: nat): (b: seq<bool>)
    requires s < |lens|
    ensures |b| == lens[s]
  {
    Rev(ToBits(CodeVal(lens, s), lens[s]))
  }

  predicate Matches(lens: seq<nat>, s: nat, w: seq<bool>)
    requires s < |lens|
  {
    0 < lens[s] <= |w| && w[..lens[s]] == CodeBits(lens, s)
  }

  /** The symbol whose code starts `w`: the reference decoder for one symbol. */
  function FindSym(lens: seq<nat>, w: seq<bool>, n: nat): (r: Option<nat>)
    requires n <= |lens|
    ensures r.Some? ==> r.value < n && Matches(lens, r.value, w)
    ensures r.None? ==> forall s :: 0 <= s < n ==> !Matches(lens, s, w)
  {
    if n == 0 then None
    else if Matches(lens, n - 1, w) then Some(n - 1)
    else FindSym(lens, w, n - 1)
  }

  // ------------------------------------------------------------ the code space

  /** Code space taken by the codes shorter than `l` among the symbols below `n`. */
  ghost function Mass(lens: seq<nat>, l: nat, n: nat): nat
    requires n <= |lens| && ValidLens(lens)
  {
    if n == 0 then 0
    else Mass(lens, l, n - 1) + (if 0 < lens[n - 1] < l then Weight(lens[n - 1]) else 0)
  }

  lemma {:induction false} FirstCodeMass(lens: seq<nat>, l: nat, n: nat)
    requires n <= |lens| && ValidLens(lens) && l <= 15
    ensures FirstCode(lens, l, n) * Pow2(15 - l) == Mass(lens, l, n)
  {
    if n > 0 {
      hide Pow2;
      FirstCodeMass(lens, l, n - 1);
      var k := lens[n - 1];
      if 0 < k < l {
        Pow2Add(l - k, 15 - l);
        assert Pow2(15 - k) == Pow2(l - k) * Pow2(15 - l);
        MulDistrib(FirstCode(lens, l, n - 1), Pow2(l - k), Pow2(15 - l));
      }
    }
  }

  lemma {:induction false} MassStep(lens: seq<nat>, l: nat, m: nat, n: nat)
    requires n <= |lens| && ValidLens(lens) && 0 < l <= 15
    ensures l < m ==> Mass(lens, l, n) + CountLen(lens, l, n) * Weight(l) <= Mass(lens, m, n)
    ensures Mass(lens, l, n) + CountLen(lens, l, n) * Weight(l) <= Kraft(lens[..n])
  {
    if n > 0 {
      MassStep(lens, l, m, n - 1);
      assert lens[..n][..n - 1] == lens[..n - 1];
      if lens[n - 1] == l {
        MulDistrib(CountLen(lens, l, n - 1), 1, Weight(l));
      }
    }
  }

  lemma {:induction false} CountMono(lens: seq<nat>, l: nat, a: nat, b: nat)
    requires a <= b <= |lens|
    ensures CountLen(lens, l, a) <= CountLen(lens, l, b)
  {
    if a < b { CountMono(lens, l, a, b - 1); }
  }

  /** Where the code space of `s` begins; it is `Weight(lens[s])` wide. */
  function SpaceStart(lens: seq<nat>, s: nat): nat
    requires ValidLens(lens) && s < |lens|
  {
    CodeVal(lens, s) * Weight(lens[s])
  }

  /** In the code space, `t` comes before `s`. */
  predicate Precedes(lens: seq<nat>, t: nat, s: nat)
    requires t < |lens| && s < |lens|
  {
    0 < lens[t] && 0 < lens[s] && (lens[t] < lens[s] || (lens[t] == lens[s] && t < s))
  }

  /** The code space taken by an earlier symbol ends before the later one's begins. */
  lemma Disjoint(lens: seq<nat>, t: nat, s: nat)
    requires ValidLens(lens) && t < |lens| && s < |lens| && Precedes(lens, t, s)
    ensures SpaceStart(lens, t) + Weight(lens[t]) <= SpaceStart(lens, s)
  {
    hide FirstCode, Kraft;
    var n, l, m := |lens|, lens[t], lens[s];
    MulDistrib(CodeVal(lens, t), 1, Weight(l));
    if l == m {
      CountMono(lens, l, t + 1, s);
      MulMono(CodeVal(lens, t) + 1, CodeVal(lens, s), Weight(l));
    } else {
      FirstCodeMass(lens, l, n);
      FirstCodeMass(lens, m, n);
      MassStep(lens, l, m, n);
      CountMono(lens, l, t + 1, n);
      MulMono(CountLen(lens, l, t) + 1, CountLen(lens, l, n), Weight(l));
      MulDistrib(FirstCode(lens, l, n), CountLen(lens, l, t) + 1, Weight(l));
      MulMono(FirstCode(lens, m, n), CodeVal(lens, s), Weight(m));
    }
  }

  lemma WithinKraft(lens: seq<nat>, s: nat)
    requires ValidLens(lens) && s < |lens| && 0 < lens[s]
    ensures SpaceStart(lens, s) + Weight(lens[s]) <= Kraft(lens)
  {
    var n, l := |lens|, lens[s];
    FirstCodeMass(lens, l, n);
    MassStep(lens, l, 0, n);
    assert lens[..n] == lens;
    CountMono(lens, l, s + 1, n);
    MulDistrib(CodeVal(lens, s), 1, Weight(l));
    MulMono(CountLen(lens, l, s) + 1, CountLen(lens, l, n), Weight(l));
    MulDistrib(FirstCode(lens, l, n), CountLen(lens, l, s) + 1, Weight(l));
  }

  /** When the code space is not over-subscribed every code fits in its length. */
  lemma CodeFits(lens: seq<nat>, s: nat)
    requires ValidLens(lens) && s < |lens| && Kraft(lens) <= 32768
    ensures lens[s] > 0 ==> CodeVal(lens, s) < Pow2(lens[s])
  {
    if lens[s] > 0 {
      var l, v := lens[s], CodeVal(lens, s);
      WithinKraft(lens, s);
      Pow2Values();
      Pow2Add(l, 15 - l);
      if v >= Pow2(l) {
        MulMono(Pow2(l), v, Weight(l));
      }
    }
  }

  // ------------------------------------------------------------ prefix freeness

  lemma DivBelow(u: nat, n: nat, m: nat)
    requires u < Pow2(n + m)
    ensures Shr(u, n) < Pow2(m)
  {
    Pow2Add(n, m);
    DivBound(u, Pow2(n));
    if u / Pow2(n) >= Pow2(m) {
      MulMono(Pow2(m), u / Pow2(n), Pow2(n));
    }
  }

  lemma RevPrefix(x: seq<bool>, y: seq<bool>)
    requires |y| <= |x| && Rev(x)[..|y|] == Rev(y)
    ensures x[|x| - |y|..] == y
  {
    forall i | 0 <= i < |y| ensures x[|x| - |y|..][i] == y[i] {
      assert Rev(x)[..|y|][|y| - 1 - i] == x[|x| - |y| + i];
      assert Rev(y)[|y| - 1 - i] == y[i];
    }
  }

  lemma PrefixBits(u: nat, v: nat, a: nat, b: nat)
    requires a <= b && u < Pow2(b) && v < Pow2(a)
    requires Rev(ToBits(u, b))[..a] == Rev(ToBits(v, a))
    ensures v == Shr(u, b - a)
  {
    hide *;
    RevPrefix(ToBits(u, b), ToBits(v, a));
    assert b == (b - a) + a;
    SplitToBits(u, b - a, a);
    DivBelow(u, b - a, a);
    FromToBits(Shr(u, b - a), a);
    FromToBits(v, a);
  }

  lemma ScaledPrefix(u: nat, v: nat, m: nat, w: nat)
    requires m > 0 && w > 0 && v == u / m
    ensures v * (m * w) <= u * w < v * (m * w) + m * w
  {
    DivBound(u, m);
    MulDistrib(v, 1, m);
    MulMono(v * m, u, w);
    MulMono(u + 1, v * m + m, w);
    MulDistrib(u, 1, w);
    MulDistrib(v * m, m, w);
    MulAssoc(v, m, w);
  }

  /** A code that begins another one shares its code space. */
  lemma PrefixOverlap(lens: seq<nat>, s: nat, t: nat)
    requires ValidLens(lens) && Kraft(lens) <= 32768 && s < |lens| && t < |lens|
    requires 0 < lens[s] <= lens[t]
    requires CodeBits(lens, t)[..lens[s]] == CodeBits(lens, s)
    ensures SpaceStart(lens, s) <= SpaceStart(lens, t) < SpaceStart(lens, s) + Weight(lens[s])
  {
    hide FirstCode, CountLen, Rev, ToBits, Pow2, Kraft;
    var a, b := lens[s], lens[t];
    CodeFits(lens, s);
    CodeFits(lens, t);
    PrefixBits(CodeVal(lens, t), CodeVal(lens, s), a, b);
    Pow2Add(b - a, 15 - b);
    ScaledPrefix(CodeVal(lens, t), CodeVal(lens, s), Pow2(b - a), Weight(b));
  }

  lemma PrefixFree(lens: seq<nat>, s: nat, t: nat)
    requires ValidLens(lens) && Kraft(lens) <= 32768 && s < |lens| && t < |lens| && s != t
    requires 0 < lens[s] <= lens[t]
    ensures CodeBits(lens, t)[..lens[s]] != CodeBits(lens, s)
  {
    if CodeBits(lens, t)[..lens[s]] == CodeBits(lens, s) {
      PrefixOverlap(lens, s, t);
      if Precedes(lens, s, t) {
        Disjoint(lens, s, t);
      } else {
        Disjoint(lens, t, s);
      }
    }
  }

  /** At most one code starts a given bit string. */
  lemma MatchUnique(lens: seq<nat>, s: nat, t: nat, w: seq<bool>)
    requires ValidLens(lens) && Kraft(lens) <= 32768 && s < |lens| && t < |lens|
    requires Matches(lens, s, w) && Matches(lens, t, w)
    ensures s == t
  {
    if s != t {
      if lens[s] <= lens[t] {
        assert w[..lens[t]][..lens[s]] == w[..lens[s]];
        PrefixFree(lens, s, t);
      } else {
        assert w[..lens[s]][..lens[t]] == w[..lens[t]];
        PrefixFree(lens, t, s);
      }
    }
  }

  /** A bit string that starts with the code of `s` decodes to `s`. */
  lemma FindSymOf(lens: seq<nat>, s: nat, w: seq<bool>)
    requires ValidLens(lens) && Kraft(lens) <= 32768 && s < |lens| && Matches(lens, s, w)
    ensures FindSym(lens, w, |lens|) == Some(s)
  {
    var r := FindSym(lens, w, |lens|);
    MatchUnique(lens, s, r.value, w);
  }

  // ------------------------------------------------------------ how both sides compute codes

  lemma ReverseStep(b: seq<bool>, k: nat)
    requires k < |b|
    ensures FromBits(Rev(b[..k + 1])) == (if b[k] then 1 else 0) + 2 * FromBits(Rev(b[..k]))
  {
    assert Rev(b[..k + 1])[1..] == Rev(b[..k]);
  }

  /** The loop that turns a code around, common to both sides. */
  method ReverseCode(code: nat, size: nat) returns (rev: nat)
    ensures rev == FromBits(Rev(ToBits(code, size)))
  {
    ghost var b := ToBits(code, size);
    var c, l := code, size;
    rev := 0;
    assert Rev(b[..0]) == [];
    while l > 0
      invariant 0 <= l <= size && ToBits(c, l) == b[size - l..]
      invariant rev == FromBits(Rev(b[..size - l]))
    {
      ReverseStep(b, size - l);
      ghost var d := b[size - l..];
      assert d[1..] == b[size - (l - 1)..] && d[0] == b[size - l];
      assert ToBits(c, l)[1..] == ToBits(c / 2, l - 1) && d[0] == (c % 2 == 1);
      rev := 2 * rev + c % 2;
      c := c / 2;
      l := l - 1;
    }
    assert b[..size] == b;
  }

  /** `next_code` as both sides compute it, one length from the one before. */
  lemma {:induction false} FirstCodeStep(lens: seq<nat>, l: nat, n: nat)
    requires n <= |lens| && 0 < l
    ensures FirstCode(lens, l + 1, n) == 2 * (FirstCode(lens, l, n) + CountLen(lens, l, n))
  {
    if n > 0 {
      FirstCodeStep(lens, l, n - 1);
      if lens[n - 1] == l { assert Pow2(1) == 2; }
    }
  }

  lemma {:induction false} FirstCodeOne(lens: seq<nat>, n: nat)
    requires n <= |lens|
    ensures FirstCode(lens, 1, n) == 0
  {
    if n > 0 { FirstCodeOne(lens, n - 1); }
  }
}
