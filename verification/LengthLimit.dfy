/** `tdefl_huffman_enforce_max_code_size`: folding code lengths down to a limit while
    keeping the code space exactly full. */
module LengthLimit {
  import opened Bits

  const MAX_SUPPORTED := 32   // TDEFL_MAX_SUPPORTED_HUFF_CODESIZE

  /** How many codes have a length in `lo..hi`. */
  function Total(c: seq<int>, lo: nat, hi: nat): int
    requires lo <= hi <= |c|
    decreases hi - lo
  {
    if lo == hi then 0 else c[lo] + Total(c, lo + 1, hi)
  }

  /** The code space they take, in units of 2^-m. */
  function Space(c: seq<int>, m: nat, lo: nat, hi: nat): int
    requires lo <= hi <= |c| && hi <= m + 1
    decreases hi - lo
  {
    if lo == hi then 0 else c[lo] * Pow2(m - lo) + Space(c, m, lo + 1, hi)
  }

  predicate NonNeg(c: seq<int>) {
    forall i :: 1 <= i < |c| ==> 0 <= c[i]
  }

  lemma {:induction false} TotalUpdate(c: seq<int>, lo: nat, hi: nat, i: nat, v: int)
    requires lo <= hi <= |c| && i < |c|
    ensures Total(c[i := v], lo, hi) == Total(c, lo, hi) + (if lo <= i < hi then v - c[i] else 0)
    decreases hi - lo
  {
    if lo < hi { TotalUpdate(c, lo + 1, hi, i, v); }
  }

  lemma {:induction false} SpaceSame(c: seq<int>, d: seq<int>, m: nat, lo: nat, hi: nat)
    requires lo <= hi <= |c| && |c| == |d| && hi <= m + 1
    requires forall i :: lo <= i < hi ==> c[i] == d[i]
    ensures Space(c, m, lo, hi) == Space(d, m, lo, hi)
    decreases hi - lo
  {
    if lo < hi { SpaceSame(c, d, m, lo + 1, hi); }
  }

  lemma {:induction false} SpaceUpdate(c: seq<int>, m: nat, lo: nat, hi: nat, i: nat, v: int)
    requires lo <= hi <= |c| && hi <= m + 1 && lo <= i < hi
    ensures Space(c[i := v], m, lo, hi) == Space(c, m, lo, hi) + (v - c[i]) * Pow2(m - i)
    decreases hi - lo
  {
    if lo < i {
      SpaceUpdate(c, m, lo + 1, hi, i, v);
    } else {
      SpaceSame(c, c[i := v], m, lo + 1, hi);
      MulDistrib(v - c[i], c[i], Pow2(m - i));
    }
  }

  lemma {:induction false} TotalSplit(c: seq<int>, lo: nat, mid: nat, hi: nat)
    requires lo <= mid <= hi <= |c|
    ensures Total(c, lo, hi) == Total(c, lo, mid) + Total(c, mid, hi)
    decreases mid - lo
  {
    if lo < mid { TotalSplit(c, lo + 1, mid, hi); }
  }

  lemma {:induction false} SpaceSplit(c: seq<int>, m: nat, lo: nat, mid: nat, hi: nat)
    requires lo <= mid <= hi <= |c| && hi <= m + 1
    ensures Space(c, m, lo, hi) == Space(c, m, lo, mid) + Space(c, m, mid, hi)
    decreases mid - lo
  {
    if lo < mid { SpaceSplit(c, m, lo + 1, mid, hi); }
  }

  lemma {:induction false} SpaceScale(c: seq<int>, m: nat, k: nat, lo: nat, hi: nat)
    requires lo <= hi <= |c| && hi <= m + 1 && m <= k
    ensures Space(c, k, lo, hi) == Space(c, m, lo, hi) * Pow2(k - m)
    decreases hi - lo
  {
    if lo < hi {
      hide Pow2;
      SpaceScale(c, m, k, lo + 1, hi);
      Pow2Add(m - lo, k - m);
      MulAssoc(c[lo], Pow2(m - lo), Pow2(k - m));
      MulDistrib(c[lo] * Pow2(m - lo), Space(c, m, lo + 1, hi), Pow2(k - m));
    }
  }

  /** Codes longer than the limit take less space each than a code of the limit. */
  lemma {:induction false} SpaceBelow(c: seq<int>, k: nat, m: nat, lo: nat, hi: nat)
    requires NonNeg(c) && 1 <= lo <= hi <= |c| && hi <= k + 1 && m <= lo && m <= k
    ensures 0 <= Total(c, lo, hi) && 0 <= Space(c, k, lo, hi) <= Total(c, lo, hi) * Pow2(k - m)
    decreases hi - lo
  {
    if lo < hi {
      SpaceBelow(c, k, m, lo + 1, hi);
      Pow2Mono(k - lo, k - m);
      MulMono(Pow2(k - lo), Pow2(k - m), c[lo]);
      MulDistrib(c[lo], Total(c, lo + 1, hi), Pow2(k - m));
    }
  }

  /** The counts after the codes above the limit `m` have been counted at it. */
  function Fold(c: seq<int>, m: nat): seq<int>
    requires 1 <= m < |c|
  {
    c[m := c[m] + Total(c, m + 1, |c|)]
  }

  lemma UnitPow2()
    ensures Pow2(0) == 1
  {
  }

  lemma Cancel(s: int, f: int, t: int, p: int, q: int)
    requires p > 0 && 0 <= t <= f * p && s * p + t == q * p
    ensures q <= s + f <= q + f
  {
    MulDistrib(s, f, p);
    if s + f < q { MulMono(s + f + 1, q, p); MulDistrib(s + f, 1, p); }
    if s > q { MulMono(q + 1, s, p); MulDistrib(q, 1, p); }
  }

  /** Folding over-fills the code space, by no more codes than now have the limit's length. */
  lemma FoldExcess(c: seq<int>, m: nat)
    requires |c| == 33 && NonNeg(c) && 1 <= m <= 32 && Space(c, 32, 1, 33) == Pow2(32)
    ensures var d := Fold(c, m);
            NonNeg(d) && Total(d, 1, m + 1) == Total(c, 1, 33) &&
            Pow2(m) <= Space(d, m, 1, m + 1) <= Pow2(m) + d[m]
  {
    hide Pow2, Space, Total;
    var f := Total(c, m + 1, 33);
    var p, s, t := Pow2(32 - m), Space(c, m, 1, m + 1), Space(c, 32, m + 1, 33);
    SpaceSplit(c, 32, 1, m + 1, 33);
    SpaceScale(c, m, 32, 1, m + 1);
    SpaceBelow(c, 32, m, m + 1, 33);
    TotalSplit(c, 1, m + 1, 33);
    TotalUpdate(c, 1, m + 1, m, c[m] + f);
    SpaceUpdate(c, m, 1, m + 1, m, c[m] + f);
    assert f * Pow2(m - m) == f by { UnitPow2(); }
    Pow2Add(m, 32 - m);
    Cancel(s, f, t, p, Pow2(m));
  }

  // ---------------------------------------------------------------- the loop

  /** What the loop keeps: `n` codes, a code space over-filled to `total`, and enough
      codes of the limit's length to bring it down. */
  ghost predicate Limiting(c: seq<int>, n: int, m: nat, total: int) {
    1 <= m < |c| && (forall i :: 1 <= i <= m ==> 0 <= c[i]) &&
    Total(c, 1, m + 1) == n && Space(c, m, 1, m + 1) == total &&
    Pow2(m) <= total <= Pow2(m) + c[m]
  }

  lemma {:induction false} AllAtLimit(c: seq<int>, m: nat, lo: nat)
    requires 1 <= lo <= m < |c| && forall i :: lo <= i < m ==> c[i] == 0
    ensures Total(c, lo, m + 1) == c[m] && Space(c, m, lo, m + 1) == c[m]
    decreases m - lo
  {
    if lo < m {
      AllAtLimit(c, m, lo + 1);
    } else {
      assert Pow2(m - lo) == 1;
      assert Space(c, m, m + 1, m + 1) == 0;
    }
  }

  /** There is a shorter code to lengthen as long as the space is over-filled. */
  lemma DonorExists(c: seq<int>, n: int, m: nat, total: int)
    requires Limiting(c, n, m, total) && total != Pow2(m) && n <= Pow2(m)
    ensures exists i :: 1 <= i < m && c[i] != 0
  {
    if forall i :: 1 <= i < m ==> c[i] == 0 {
      AllAtLimit(c, m, 1);
    }
  }

  /** One code at the limit goes; one of length `i` becomes two of length `i + 1`. */
  function Swap(c: seq<int>, m: nat, i: nat): seq<int>
    requires 1 <= i < m < |c|
  {
    var d := c[m := c[m] - 1];
    var e := d[i := d[i] - 1];
    e[i + 1 := e[i + 1] + 2]
  }

  lemma SwapSpace(m: nat, i: nat)
    requires i < m
    ensures (-1) * Pow2(m - m) + (-1) * Pow2(m - i) + 2 * Pow2(m - (i + 1)) == -1
  {
  }

  lemma SwapKeeps(c: seq<int>, n: int, m: nat, total: int, i: nat)
    requires Limiting(c, n, m, total) && total != Pow2(m) && 1 <= i < m && c[i] != 0
    ensures Limiting(Swap(c, m, i), n, m, total - 1)
  {
    hide Space, Total, Pow2;
    var d := c[m := c[m] - 1];
    var e := d[i := d[i] - 1];
    TotalUpdate(c, 1, m + 1, m, c[m] - 1);
    TotalUpdate(d, 1, m + 1, i, d[i] - 1);
    TotalUpdate(e, 1, m + 1, i + 1, e[i + 1] + 2);
    SpaceUpdate(c, m, 1, m + 1, m, c[m] - 1);
    SpaceUpdate(d, m, 1, m + 1, i, d[i] - 1);
    SpaceUpdate(e, m, 1, m + 1, i + 1, e[i + 1] + 2);
    SwapSpace(m, i);
  }

  /** No code is longer than `m`. */
  ghost predicate NoneAbove(c: seq<int>, m: nat) {
    forall i :: m < i < |c| ==> c[i] == 0
  }

  lemma {:induction false} NoneAboveTotals(c: seq<int>, m: nat, lo: nat)
    requires NoneAbove(c, m) && |c| == 33 && m < lo <= 33
    ensures Total(c, lo, 33) == 0 && Space(c, 32, lo, 33) == 0
    decreases 33 - lo
  {
    if lo < 33 { NoneAboveTotals(c, m, lo + 1); }
  }

  lemma SameFactor(a: int, b: int, p: int)
    requires p > 0 && a * p == b * p
    ensures a == b
  {
    if a < b { MulMono(a + 1, b, p); MulDistrib(a, 1, p); }
    if a > b { MulMono(b + 1, a, p); MulDistrib(b, 1, p); }
  }

  /** Then folding changes nothing, and the code space is already exactly full. */
  lemma NothingFolded(c: seq<int>, m: nat)
    requires |c| == 33 && 1 <= m <= 32 && NoneAbove(c, m) && Space(c, 32, 1, 33) == Pow2(32)
    ensures Fold(c, m) == c && Space(c, m, 1, m + 1) == Pow2(m)
  {
    hide Pow2, Space, Total, NoneAbove;
    NoneAboveTotals(c, m, m + 1);
    SpaceSplit(c, 32, 1, m + 1, 33);
    SpaceScale(c, m, 32, 1, m + 1);
    Pow2Add(m, 32 - m);
    SameFactor(Space(c, m, 1, m + 1), Pow2(m), Pow2(32 - m));
  }

  // ---------------------------------------------------------------- which codes get longer

  /** How many rounds it takes to lengthen the codes of lengths `lo` to `m` to the limit. */
  function Rounds(c: seq<int>, m: nat, lo: nat): int
    requires lo <= m < |c|
  {
    Space(c, m, lo, m) - Total(c, lo, m)
  }

  /** The longest codes below the limit are lengthened first: codes shorter than `i` are as
      they were, and all that is left half lengthened is part of one code of length `i`. */
  ghost predicate Worked(c: seq<int>, num: seq<int>, m: nat, i: nat) {
    1 <= i <= m < |c| == |num| && (forall j :: 1 <= j < i ==> num[j] == c[j]) &&
    (i < m ==> 0 <= num[i] < c[i] && Rounds(num, m, i + 1) <= Pow2(m - i) - 2)
  }

  lemma {:induction false} ZerosBelow(c: seq<int>, m: nat, lo: nat, hi: nat)
    requires lo <= hi <= m < |c| && forall j :: lo <= j < hi ==> c[j] == 0
    ensures Space(c, m, lo, hi) == 0 && Total(c, lo, hi) == 0
    decreases hi - lo
  {
    if lo < hi { ZerosBelow(c, m, lo + 1, hi); }
  }

  /** Two codes of length `i + 1`, and none of the lengths up to the limit. */
  lemma OneOpened(c: seq<int>, m: nat, i: nat)
    requires i < m < |c| && (i + 1 < m ==> c[i + 1] == 2) && forall j :: i + 1 < j < m ==> c[j] == 0
    ensures Rounds(c, m, i + 1) == Pow2(m - i) - 2
  {
    if i + 1 < m { ZerosBelow(c, m, i + 2, m); }
  }

  lemma Doubled(m: nat, k: nat)
    requires k + 1 <= m
    ensures Pow2(m - k) == 2 * Pow2(m - (k + 1))
  {
  }

  /** A round at a greater length than `lo` leaves one round less. */
  lemma OneRoundLess(c: seq<int>, m: nat, k: nat, lo: nat)
    requires 1 <= lo <= k < m < |c|
    ensures Rounds(Swap(c, m, k), m, lo) == Rounds(c, m, lo) - 1
  {
    hide Space, Total, Pow2;
    var d := c[m := c[m] - 1];
    var e := d[k := d[k] - 1];
    TotalUpdate(c, lo, m, m, c[m] - 1);
    SpaceSame(c, d, m, lo, m);
    TotalUpdate(d, lo, m, k, d[k] - 1);
    SpaceUpdate(d, m, lo, m, k, d[k] - 1);
    Doubled(m, k);
    if k + 1 < m {
      TotalUpdate(e, lo, m, k + 1, e[k + 1] + 2);
      SpaceUpdate(e, m, lo, m, k + 1, e[k + 1] + 2);
    } else {
      TotalUpdate(e, lo, m, m, e[m] + 2);
      SpaceSame(e, e[m := e[m] + 2], m, lo, m);
      UnitPow2();
    }
  }

  /** A round with donor `k`, the longest below the limit. */
  lemma WorkOn(c: seq<int>, num: seq<int>, m: nat, i: nat, k: nat)
    requires Worked(c, num, m, i) && 1 <= k < m && num[k] > 0 && forall j :: k < j < m ==> num[j] == 0
    ensures Worked(c, Swap(num, m, k), m, if k < i then k else i)
  {
    hide Space, Total, Pow2;
    if k > i {
      OneRoundLess(num, m, k, i + 1);
    } else {
      OneOpened(Swap(num, m, k), m, k);
    }
  }

  lemma WorkStarts(c: seq<int>, m: nat)
    requires 1 <= m < |c|
    ensures Worked(c, Fold(c, m), m, m)
  {
  }

  /** The body of the loop, with its search for a donor. */
  method LengthenOne(num: array<int>, ghost n: int, m: nat, ghost total: int) returns (ghost donor: nat)
    requires num.Length == 33 && Limiting(num[..], n, m, total) && total != Pow2(m) && n <= Pow2(m)
    modifies num
    ensures Limiting(num[..], n, m, total - 1)
    ensures 1 <= donor < m && num[..] == Swap(old(num[..]), m, donor)
    ensures old(num[donor]) > 0 && forall j :: donor < j < m ==> old(num[j]) == 0
  {
    hide Space, Total, Pow2;
    ghost var d := num[..];
    DonorExists(d, n, m, total);
    ghost var k :| 1 <= k < m && d[k] != 0;
    num[m] := num[m] - 1;
    var i := m - 1;
    while num[i] == 0
      invariant k <= i < m && num[..] == d[m := d[m] - 1]
      invariant forall j :: i < j < m ==> d[j] == 0
      decreases i
    {
      i := i - 1;
    }
    SwapKeeps(d, n, m, total, i);
    num[i] := num[i] - 1;
    num[i + 1] := num[i + 1] + 2;
    assert num[..] == Swap(d, m, i);
    donor := i;
  }

  lemma LimitingStart(c: seq<int>, n: int, m: nat)
    requires 1 <= m < |c| && NonNeg(c) && Total(c, 1, m + 1) == n
    requires Pow2(m) <= Space(c, m, 1, m + 1) <= Pow2(m) + c[m]
    ensures Limiting(c, n, m, Space(c, m, 1, m + 1))
  {
  }

  lemma LimitingBound(c: seq<int>, n: int, m: nat, total: int)
    requires Limiting(c, n, m, total)
    ensures total >= Pow2(m)
  {
  }

  method FoldLoop(num: array<int>, m: nat)
    requires num.Length == 33 && 1 <= m <= 32
    modifies num
    ensures num[..] == Fold(old(num[..]), m)
  {
    ghost var c := num[..];
    var i := m + 1;
    assert c == c[m := c[m]];
    while i <= MAX_SUPPORTED
      invariant m + 1 <= i <= 33
      invariant num[..] == c[m := c[m] + Total(c, m + 1, 33) - Total(c, i, 33)]
    {
      num[m] := num[m] + num[i];
      i := i + 1;
    }
  }

  method SpaceLoop(num: array<int>, m: nat) returns (total: int)
    requires num.Length == 33 && 1 <= m <= 32
    ensures total == Space(num[..], m, 1, m + 1)
  {
    total := 0;
    var i := m;
    while i > 0
      invariant 0 <= i <= m && total == Space(num[..], m, i + 1, m + 1)
    {
      total := total + num[i] * Pow2(m - i);
      i := i - 1;
    }
  }

  /** `tdefl_huffman_enforce_max_code_size`. */
  method EnforceMaxCodeSize(num: array<int>, listLen: nat, m: nat) returns (ghost base: nat)
    requires num.Length == 33 && 1 <= m <= 32 && NonNeg(num[..]) && listLen <= Pow2(m)
    requires Total(num[..], 1, 33) == listLen
    requires listLen > 1 ==> Space(num[..], 32, 1, 33) == Pow2(32)
    modifies num
    ensures listLen <= 1 ==> num[..] == old(num[..])
    ensures listLen > 1 ==> Limiting(num[..], listLen, m, Pow2(m))
    ensures NoneAbove(old(num[..]), m) ==> num[..] == old(num[..])
    ensures Worked(old(num[..]), num[..], m, base)
  {
    base := m;
    if listLen <= 1 { return; }
    hide Space, Total, Limiting, Pow2, NoneAbove, Worked;
    ghost var c := num[..];
    FoldExcess(c, m);
    FoldLoop(num, m);
    WorkStarts(c, m);
    var total := SpaceLoop(num, m);
    LimitingStart(Fold(c, m), listLen, m);
    if NoneAbove(c, m) { NothingFolded(c, m); }
    while total != Pow2(m)
      invariant num.Length == 33 && Limiting(num[..], listLen, m, total)
      invariant total >= Pow2(m) && Worked(c, num[..], m, base)
      invariant NoneAbove(c, m) ==> num[..] == c && total == Pow2(m)
      decreases total - Pow2(m)
    {
      ghost var d := num[..];
      ghost var k := LengthenOne(num, listLen, m, total);
      WorkOn(c, d, m, base, k);
      base := if k < base then k else base;
      total := total - 1;
      LimitingBound(num[..], listLen, m, total);
    }
  }

  // ---------------------------------------------------------------- how much work there was

  lemma {:induction false} TotalBelow(c: seq<int>, d: seq<int>, lo: nat, hi: nat)
    requires lo <= hi <= |c| && |c| == |d| && forall i :: lo <= i < hi ==> c[i] == d[i]
    ensures Total(c, lo, hi) == Total(d, lo, hi)
    decreases hi - lo
  {
    if lo < hi { TotalBelow(c, d, lo + 1, hi); }
  }

  lemma {:induction false} TotalAtLeast(c: seq<int>, lo: nat, hi: nat, k: nat)
    requires lo <= hi <= |c| && (forall i :: lo <= i < hi ==> 0 <= c[i])
    ensures 0 <= Total(c, lo, hi) && (lo <= k < hi ==> c[k] <= Total(c, lo, hi))
    decreases hi - lo
  {
    if lo < hi { TotalAtLeast(c, lo + 1, hi, k); }
  }

  lemma LastOne(c: seq<int>, m: nat)
    requires m < |c|
    ensures Total(c, m, m + 1) == c[m] && Space(c, m, m, m + 1) == c[m]
  {
  }

  lemma Last(c: seq<int>, m: nat)
    requires 1 <= m < |c|
    ensures Total(c, 1, m + 1) == Total(c, 1, m) + c[m] && Space(c, m, 1, m + 1) == Space(c, m, 1, m) + c[m]
  {
    hide Total, Space;
    TotalSplit(c, 1, m, m + 1);
    SpaceSplit(c, m, 1, m, m + 1);
    LastOne(c, m);
  }

  /** From `i` on, the work is that on the codes of length `i` and that on the longer ones. */
  lemma RoundsSplit(c: seq<int>, m: nat, i: nat)
    requires 1 <= i < m < |c|
    ensures Rounds(c, m, 1) == Space(c, m, 1, i) - Total(c, 1, i) + c[i] * Pow2(m - i) - c[i] + Rounds(c, m, i + 1)
  {
    hide Pow2;
    TotalSplit(c, 1, i, m);
    SpaceSplit(c, m, 1, i, m);
  }

  /** The rounds done, in all: `e` of them, for an over-filling of `e`. */
  lemma RoundsDone(c: seq<int>, num: seq<int>, n: int, m: nat, i: nat)
    requires Worked(c, num, m, i) && i < m && |c| == 33 && NonNeg(c) && m <= 32 && Total(c, 1, 33) == n
    requires Limiting(num, n, m, Pow2(m))
    ensures var e := Space(Fold(c, m), m, 1, m + 1) - Pow2(m);
            (c[i] - num[i]) * Pow2(m - i) - (c[i] - num[i]) + Rounds(c, m, i + 1) - Rounds(num, m, i + 1) == e
  {
    hide Pow2, Space, Total;
    var f := Fold(c, m);
    TotalSplit(c, 1, m + 1, 33);
    TotalUpdate(c, 1, m + 1, m, f[m]);
    Last(f, m);
    Last(num, m);
    TotalBelow(c, f, 1, m);
    SpaceSame(c, f, m, 1, m);
    RoundsSplit(c, m, i);
    RoundsSplit(num, m, i);
    TotalBelow(c, num, 1, i);
    SpaceSame(c, num, m, 1, i);
    MulDistrib(c[i] - num[i], num[i], Pow2(m - i));
  }

  /** Codes up to length `i` take a multiple of the space of one code of that length. */
  lemma {:induction false} SpaceMultiple(c: seq<int>, m: nat, lo: nat, i: nat) returns (q: int)
    requires lo <= i + 1 <= |c| && i <= m
    ensures Space(c, m, lo, i + 1) == q * Pow2(m - i)
    decreases i + 1 - lo
  {
    hide Pow2;
    if lo == i + 1 {
      q := 0;
    } else {
      q := SpaceMultiple(c, m, lo + 1, i);
      Pow2Add(i - lo, m - i);
      MulAssoc(c[lo], Pow2(i - lo), Pow2(m - i));
      MulDistrib(c[lo] * Pow2(i - lo), q, Pow2(m - i));
      q := c[lo] * Pow2(i - lo) + q;
    }
  }

  lemma {:induction false} SpacePositive(c: seq<int>, m: nat, lo: nat, hi: nat)
    requires 1 <= lo <= hi <= |c| && hi <= m + 1 && NonNeg(c)
    ensures 0 <= Total(c, lo, hi) <= Space(c, m, lo, hi)
    decreases hi - lo
  {
    if lo < hi {
      hide Pow2;
      SpacePositive(c, m, lo + 1, hi);
      MulMono(1, Pow2(m - lo), c[lo]);
    }
  }

  lemma RoundsNonNeg(c: seq<int>, m: nat, lo: nat)
    requires 1 <= lo <= m < |c| && NonNeg(c)
    ensures 0 <= Rounds(c, m, lo)
  {
    hide Pow2, Space, Total;
    SpacePositive(c, m, lo, m);
  }

  lemma TotalParts(c: seq<int>, m: nat, i: nat)
    requires 1 <= i < m <= 32 && |c| == 33 && NonNeg(c)
    ensures Total(c, 1, 33) == Total(c, 1, i) + c[i] + Total(c, i + 1, m) + Total(c, m, 33)
    ensures 0 <= Total(c, 1, i) && 0 <= Total(c, i + 1, m)
  {
    hide Total;
    TotalSplit(c, 1, i, 33);
    TotalSplit(c, i, i + 1, 33);
    LastOne(c, i);
    TotalSplit(c, i + 1, m, 33);
    TotalAtLeast(c, 1, i, 0);
    TotalAtLeast(c, i + 1, m, 0);
  }

  lemma LimitTotal(c: seq<int>, m: nat)
    requires m < |c| == 33
    ensures Total(c, m, 33) == c[m] + Total(c, m + 1, 33)
  {
  }

  lemma OneMore(s: int, u: int)
    ensures s * u - s == (s - 1) * (u - 1) + u - 1
  {
    assert (s - 1) * (u - 1) == s * u - s - u + 1;
  }

  lemma MulNonNeg(a: int, b: int)
    requires 0 <= a && 0 <= b
    ensures 0 <= a * b
  {
  }

  /** The over-filling, as long as a code has to be lengthened, and the codes at the limit. */
  lemma OverFilling(c: seq<int>, num: seq<int>, n: int, m: nat, i: nat)
    requires Worked(c, num, m, i) && i < m && |c| == 33 && NonNeg(c) && m <= 32 && Total(c, 1, 33) == n
    requires Limiting(num, n, m, Pow2(m)) && Space(c, 32, 1, 33) == Pow2(32)
    ensures var e := Space(Fold(c, m), m, 1, m + 1) - Pow2(m);
            1 <= e <= Total(c, m, 33) && Total(c, 1, 33) == Total(c, 1, i) + c[i] + Total(c, i + 1, m) + Total(c, m, 33) &&
            0 <= Total(c, 1, i) && 0 <= Total(c, i + 1, m)
    ensures var e := Space(Fold(c, m), m, 1, m + 1) - Pow2(m);
            (c[i] - num[i] - 1) * (Pow2(m - i) - 1) + Rounds(c, m, i + 1) <= e - 1
  {
    hide Pow2, Space, Total;
    hide Rounds;
    RoundsDone(c, num, n, m, i);
    RoundsNonNeg(c, m, i + 1);
    FoldExcess(c, m);
    TotalParts(c, m, i);
    LimitTotal(c, m);
    var s, u := c[i] - num[i], Pow2(m - i);
    OneMore(s, u);
    MulNonNeg(s - 1, u - 1);
  }

  lemma Smaller(a: int, b: int, p: int)
    requires p > 0 && a * p < b * p
    ensures a < b
  {
    if a >= b { MulMono(b, a, p); }
  }

  lemma NextMultiple(q: int, d: int, u: int)
    requires u > 0 && q * u < d * u
    ensures q * u + u <= d * u
  {
    Smaller(q, d, u);
    MulMono(q + 1, d, u);
    MulDistrib(q, 1, u);
  }

  /** Where longer codes go on, the codes up to length `i` leave room for one of that length. */
  lemma RoomAbove(c: seq<int>, m: nat, i: nat)
    requires 1 <= i < m <= 32 && |c| == 33 && NonNeg(c) && Space(c, 32, 1, 33) == Pow2(32) && Total(c, m, 33) > 0
    ensures Space(c, m, 1, i + 1) + Pow2(m - i) <= Pow2(m)
  {
    hide Pow2, Space, Total;
    var q := SpaceMultiple(c, m, 1, i);
    var u := Pow2(m - i);
    SpaceSplit(c, 32, 1, i + 1, 33);
    SpaceScale(c, m, 32, 1, i + 1);
    SpaceSplit(c, 32, i + 1, m, 33);
    SpacePositive(c, 32, i + 1, m);
    SpacePositive(c, 32, m, 33);
    Pow2Add(m, 32 - m);
    Smaller(Space(c, m, 1, i + 1), Pow2(m), Pow2(32 - m));
    Pow2Add(i, m - i);
    NextMultiple(q, Pow2(i), u);
  }

  /** Few codes are long enough to be lengthened, and little of the work is on any but one of them. */
  lemma WorkBound(c: seq<int>, num: seq<int>, n: int, m: nat, i: nat)
    requires Worked(c, num, m, i) && i < m && |c| == 33 && NonNeg(c) && m <= 32 && Total(c, 1, 33) == n
    requires Limiting(num, n, m, Pow2(m)) && Space(c, 32, 1, 33) == Pow2(32)
    ensures (c[i] - num[i] - 1) * (Pow2(m - i) - 1) + Rounds(c, m, i + 1) <= n - 2
    ensures Pow2(m - i) <= n - 2
  {
    hide Pow2, Space, Total;
    OverFilling(c, num, n, m, i);
    var f, u := Fold(c, m), Pow2(m - i);
    var e := Space(f, m, 1, m + 1) - Pow2(m);
    RoomAbove(c, m, i);
    SpaceSplit(f, m, 1, i + 1, m + 1);
    SpaceSame(c, f, m, 1, i + 1);
    SpaceSplit(f, m, i + 1, m, m + 1);
    SpaceSame(c, f, m, i + 1, m);
    LastOne(f, m);
    LimitTotal(c, m);
    MulNonNeg(c[i] - num[i] - 1, u - 1);
  }
}
