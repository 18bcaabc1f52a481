/** The dynamic branch of `tdefl_optimize_huffman_table`: from symbol counts to
    code lengths within a limit. */
module CodeLengths {
  import opened Bits
  import opened Canonical
  import opened Blocks
  import opened RadixSort
  import opened HuffmanForest
  import opened MinimumRedundancy
  import opened LengthLimit
  import opened UsedSymbols
  import opened CodeCosts
  import opened Shortening

  // ---------------------------------------------------------------- code space by lengths

  /** How often each length occurs. */
  function Lengths(lens: seq<nat>): (c: seq<int>)
    ensures |c| == 33
  {
    seq(33, (l: nat) => CountLen(lens, l, |lens|))
  }

  lemma {:induction false} CountLenPrefix(a: seq<nat>, b: seq<nat>, l: nat, n: nat)
    requires n <= |a| && n <= |b| && a[..n] == b[..n]
    ensures CountLen(a, l, n) == CountLen(b, l, n)
  {
    if n > 0 {
      assert a[..n][..n - 1] == a[..n - 1] && b[..n][..n - 1] == b[..n - 1];
      assert a[..n][n - 1] == a[n - 1];
      CountLenPrefix(a, b, l, n - 1);
    }
  }

  lemma LengthsSnoc(lens: seq<nat>)
    requires lens != [] && lens[|lens| - 1] < 33
    ensures var c := Lengths(lens[..|lens| - 1]);
            var k := lens[|lens| - 1];
            Lengths(lens) == c[k := c[k] + 1]
  {
    var m := |lens| - 1;
    var t := lens[..m];
    forall l | 0 <= l < 33 ensures CountLen(lens, l, m) == CountLen(t, l, m) {
      CountLenPrefix(lens, t, l, m);
    }
  }

  lemma LengthsStep(lens: seq<nat>)
    requires ValidLens(lens) && lens != []
    ensures var t := lens[..|lens| - 1];
            var k := lens[|lens| - 1];
            Space(Lengths(lens), 15, 1, 16) == Space(Lengths(t), 15, 1, 16) + Weight(k) &&
            Total(Lengths(lens), 1, 16) == Total(Lengths(t), 1, 16) + (if k > 0 then 1 else 0)
  {
    hide Pow2, Space, Total, Lengths;
    var t, k := lens[..|lens| - 1], lens[|lens| - 1];
    var c := Lengths(t);
    LengthsSnoc(lens);
    TotalUpdate(c, 1, 16, k, c[k] + 1);
    if k > 0 {
      SpaceUpdate(c, 15, 1, 16, k, c[k] + 1);
    } else {
      SpaceSame(c, Lengths(lens), 15, 1, 16);
    }
  }

  lemma {:induction false} ZeroSpace(c: seq<int>, lo: nat)
    requires |c| == 33 && lo <= 16 && forall i :: lo <= i < 33 ==> c[i] == 0
    ensures Space(c, 15, lo, 16) == 0 && Total(c, lo, 16) == 0
    decreases 16 - lo
  {
    if lo < 16 { ZeroSpace(c, lo + 1); }
  }

  /** The code space and the number of used symbols, from the counts of the lengths. */
  lemma {:induction false} LengthsSpace(lens: seq<nat>)
    requires ValidLens(lens)
    ensures Space(Lengths(lens), 15, 1, 16) == Kraft(lens)
    ensures Total(Lengths(lens), 1, 16) == UsedSyms(lens)
  {
    if lens == [] {
      ZeroSpace(Lengths([]), 1);
    } else {
      LengthsSpace(lens[..|lens| - 1]);
      LengthsStep(lens);
    }
  }

  // ---------------------------------------------------------------- counting the keys

  /** The counters hold how often each length occurs. */
  ghost predicate Counted(num: seq<int>, lens: seq<nat>, n: nat, limit: nat)
    requires n <= |lens|
  {
    limit < |num| && forall l :: 1 <= l <= limit ==> num[l] == CountLen(lens, l, n)
  }

  /** `num` counts the keys in `s`: as many codes, and the same code space. */
  ghost predicate Tallied(num: seq<int>, s: seq<SymFreq>) {
    |num| == 33 && NonNeg(num) && Total(num, 1, 33) == |s| && Space(num, 32, 1, 33) == LengthSpace(s)
  }

  lemma {:induction false} LengthSpaceSnoc(s: seq<SymFreq>, x: SymFreq)
    requires x.key <= 32
    ensures LengthSpace(s + [x]) == LengthSpace(s) + Pow2(32 - x.key)
  {
    if s == [] {
      assert s + [x] == [x] && [x][1..] == [];
    } else {
      assert (s + [x])[1..] == s[1..] + [x];
      LengthSpaceSnoc(s[1..], x);
    }
  }

  lemma TallySnoc(num: seq<int>, s: seq<SymFreq>, x: SymFreq)
    requires Tallied(num, s) && 1 <= x.key <= 32
    ensures Tallied(num[x.key := num[x.key] + 1], s + [x])
  {
    hide Total, Space, LengthSpace, Pow2;
    TotalUpdate(num, 1, 33, x.key, num[x.key] + 1);
    SpaceUpdate(num, 32, 1, 33, x.key, num[x.key] + 1);
    LengthSpaceSnoc(s, x);
  }

  lemma {:induction false} NothingTallied(num: seq<int>, lo: nat, hi: nat)
    requires |num| == 33 && lo <= hi <= 33 && forall i :: 0 <= i < 33 ==> num[i] == 0
    ensures Total(num, lo, hi) == 0 && Space(num, 32, lo, hi) == 0
    decreases hi - lo
  {
    if lo < hi { NothingTallied(num, lo + 1, hi); }
  }

  lemma KeysSnoc(s: seq<SymFreq>, x: SymFreq)
    ensures Keys(s + [x]) == Keys(s) + [x.key]
  {
  }

  lemma TallyStart(num: seq<int>, m: nat)
    requires |num| == 33 && m <= 32 && forall i :: 0 <= i < 33 ==> num[i] == 0
    ensures Tallied(num, []) && Total(num, 1, m + 1) == 0 && CountsKeys(num, Keys([]))
  {
    NothingTallied(num, 1, 33);
    NothingTallied(num, 1, m + 1);
  }

  method TallyKeys(a: array<SymFreq>, n: nat, ghost m: nat) returns (num: array<int>)
    requires n <= a.Length && m <= 32 && forall i :: 0 <= i < n ==> 1 <= a[i].key <= 32
    ensures fresh(num) && num.Length == 33 && Tallied(num[..], a[..n])
    ensures (forall i :: 0 <= i < n ==> a[i].key <= m) ==> Total(num[..], 1, m + 1) == n
    ensures CountsKeys(num[..], Keys(a[..n]))
  {
    hide Tallied, Total, CountsKeys;
    num := new int[33](_ => 0);
    TallyStart(num[..], m);
    assert a[..0] == [];
    for i := 0 to n
      invariant num.Length == 33 && fresh(num) && Tallied(num[..], a[..i])
      invariant (forall k :: 0 <= k < i ==> a[k].key <= m) ==> Total(num[..], 1, m + 1) == i
      invariant CountsKeys(num[..], Keys(a[..i]))
    {
      KeysSnoc(a[..i], a[i]);
      CountsKeysSnoc(num[..], Keys(a[..i]), a[i].key);
      TallySnoc(num[..], a[..i], a[i]);
      TotalUpdate(num[..], 1, m + 1, a[i].key, num[a[i].key] + 1);
      assert a[..i + 1] == a[..i] + [a[i]];
      num[a[i].key] := num[a[i].key] + 1;
    }
  }

  // ---------------------------------------------------------------- handing out the lengths

  /** `n` codes with lengths up to `m`, filling the code space if there is more than one. */
  ghost predicate Budget(num: seq<int>, n: nat, m: nat) {
    |num| == 33 && 1 <= m <= 15 && (forall i :: 1 <= i <= m ==> 0 <= num[i]) &&
    Total(num, 1, m + 1) == n && (n > 1 ==> Space(num, m, 1, m + 1) == Pow2(m))
  }

  /** Symbols `t[j..]` have their lengths, none above `i` and the rarest symbol the longest. */
  ghost predicate Given(sizes: seq<nat>, counts: seq<nat>, t: seq<SymFreq>, j: nat, i: nat) {
    |sizes| == |counts| && j <= |t| && DistinctSyms(t) &&
    (forall k :: 0 <= k < |t| ==> t[k].sym < |sizes| && counts[t[k].sym] > 0) &&
    (forall k :: 0 <= k < j ==> sizes[t[k].sym] == 0) &&
    (forall k :: j <= k < |t| ==> 1 <= sizes[t[k].sym] <= i) &&
    (forall k, l :: j <= k < l < |t| ==> sizes[t[k].sym] >= sizes[t[l].sym]) &&
    (forall s :: 0 <= s < |sizes| && counts[s] == 0 ==> sizes[s] == 0)
  }

  /** Lengths below `i` have been used up; `left` codes of length `i` are to be given. */
  ghost predicate Spent(sizes: seq<nat>, num: seq<int>, i: nat, left: int) {
    i < |num| && forall l :: 1 <= l < |num| ==>
      CountLen(sizes, l, |sizes|) == if l < i then num[l] else if l == i then num[i] - left else 0
  }

  lemma {:induction false} CountLenUpdate(lens: seq<nat>, s: nat, v: nat, l: nat, n: nat)
    requires s < |lens| && n <= |lens|
    ensures CountLen(lens[s := v], l, n) == CountLen(lens, l, n) +
            (if s < n && v == l then 1 else 0) - (if s < n && lens[s] == l then 1 else 0)
  {
    if n > 0 { CountLenUpdate(lens, s, v, l, n - 1); }
  }

  lemma GiveOne(sizes: seq<nat>, counts: seq<nat>, t: seq<SymFreq>, j: nat, i: nat, next: seq<nat>)
    requires Given(sizes, counts, t, j, i) && 0 < j && 1 <= i
    requires next == sizes[t[j - 1].sym := i]
    ensures Given(next, counts, t, j - 1, i)
  {
    forall k | 0 <= k < |t| && k != j - 1 ensures next[t[k].sym] == sizes[t[k].sym] {
      assert t[k].sym != t[j - 1].sym;
    }
  }

  lemma SpendOne(sizes: seq<nat>, num: seq<int>, i: nat, left: int, s: nat)
    requires Spent(sizes, num, i, left) && s < |sizes| && sizes[s] == 0 && 1 <= i
    ensures Spent(sizes[s := i], num, i, left - 1)
  {
    var next := sizes[s := i];
    forall l | 1 <= l < |num|
      ensures CountLen(next, l, |next|) == if l < i then num[l] else if l == i then num[i] - (left - 1) else 0
    {
      CountLenUpdate(sizes, s, i, l, |sizes|);
    }
  }

  lemma GivenMore(sizes: seq<nat>, counts: seq<nat>, t: seq<SymFreq>, j: nat, i: nat)
    requires Given(sizes, counts, t, j, i)
    ensures Given(sizes, counts, t, j, i + 1)
  {
  }

  lemma SpentNext(sizes: seq<nat>, num: seq<int>, i: nat)
    requires Spent(sizes, num, i, 0) && i + 1 < |num|
    ensures Spent(sizes, num, i + 1, num[i + 1])
  {
  }

  /** Symbols `t[j..]` have the lengths `keys` gives them; of the others, `rest` have a key of
      `i`, and `c` says how many have the greater ones. */
  ghost predicate Follows(sizes: seq<nat>, t: seq<SymFreq>, keys: seq<nat>, c: seq<int>, j: nat, i: nat, rest: int) {
    |keys| == |t| && LeftOver(keys, c, j, i, rest) &&
    forall k :: j <= k < |t| ==> t[k].sym < |sizes| && sizes[t[k].sym] == keys[k]
  }

  /** The next symbol to get a length is the one whose key is that length. */
  lemma FollowOne(sizes: seq<nat>, t: seq<SymFreq>, keys: seq<nat>, c: seq<int>, j: nat, i: nat, rest: int, next: seq<nat>)
    requires Follows(sizes, t, keys, c, j, i, rest) && rest > 0 && 1 <= i < 33 && 0 < j && DistinctSyms(t)
    requires t[j - 1].sym < |sizes| && next == sizes[t[j - 1].sym := i]
    ensures Follows(next, t, keys, c, j - 1, i, rest - 1)
  {
    LeftTop(keys, c, j, i, rest);
    forall k | j - 1 <= k < |t| ensures t[k].sym < |next| && next[t[k].sym] == keys[k] {
      assert k == j - 1 || t[k].sym != t[j - 1].sym;
    }
    var n, r := j - 1, rest - 1;
    forall v | 1 <= v < 33 ensures KeysLeft(keys, c, n, i, r, v) {
      assert KeysLeft(keys, c, j, i, rest, v);
      LastKey(keys, v, j);
    }
  }

  lemma FollowNext(sizes: seq<nat>, t: seq<SymFreq>, keys: seq<nat>, c: seq<int>, j: nat, i: nat)
    requires Follows(sizes, t, keys, c, j, i, 0) && i + 1 < 33
    ensures Follows(sizes, t, keys, c, j, i + 1, c[i + 1])
  {
    hide CountKey;
    var up, rest := i + 1, c[i + 1];
    forall v | 1 <= v < 33 ensures KeysLeft(keys, c, j, up, rest, v) {
      assert KeysLeft(keys, c, j, i, 0, v);
    }
  }

  /** The lengths of the symbols from `j` on are as they were. */
  ghost predicate Kept(old_: seq<nat>, sizes: seq<nat>, t: seq<SymFreq>, j: nat) {
    |sizes| == |old_| && forall k :: j <= k < |t| && t[k].sym < |old_| ==> sizes[t[k].sym] == old_[t[k].sym]
  }

  lemma FollowsOn(old_: seq<nat>, sizes: seq<nat>, t: seq<SymFreq>, keys: seq<nat>, c: seq<int>, j: nat, x: nat, i: nat, rest: int)
    requires Follows(old_, t, keys, c, x, i, rest) && Kept(old_, sizes, t, j) && j <= x
    ensures Follows(sizes, t, keys, c, x, i, rest)
  {
    hide LeftOver;
  }

  lemma {:induction false} TotalNonNeg(num: seq<int>, lo: nat, hi: nat)
    requires lo <= hi <= |num| && forall i :: lo <= i < hi ==> 0 <= num[i]
    ensures 0 <= Total(num, lo, hi)
    decreases hi - lo
  {
    if lo < hi { TotalNonNeg(num, lo + 1, hi); }
  }

  lemma GivenSize(sizes: seq<nat>, counts: seq<nat>, t: seq<SymFreq>, j: nat, i: nat)
    requires Given(sizes, counts, t, j, i)
    ensures j <= |t|
  {
  }

  lemma AllKept(sizes: seq<nat>, t: seq<SymFreq>, j: nat)
    ensures Kept(sizes, sizes, t, j)
  {
  }

  lemma KeptMore(old_: seq<nat>, sizes: seq<nat>, t: seq<SymFreq>, j: nat, k: nat, i: nat)
    requires Kept(old_, sizes, t, j) && k < j <= |t| && DistinctSyms(t) && t[k].sym < |sizes|
    ensures Kept(old_, sizes[t[k].sym := i], t, j)
  {
  }

  lemma NextSymbol(sizes: seq<nat>, counts: seq<nat>, t: seq<SymFreq>, j: nat, i: nat)
    requires Given(sizes, counts, t, j, i) && 0 < j
    ensures j <= |t| && DistinctSyms(t) && t[j - 1].sym < |sizes| && sizes[t[j - 1].sym] == 0
  {
  }

  /** The inner loop: `num[i]` symbols get length `i`. */
  method GiveLength(sizes: array<nat>, a: array<SymFreq>, num: array<int>, i: nat, j: nat, ghost counts: seq<nat>,
                    ghost t: seq<SymFreq>, ghost keys: seq<nat>, ghost c: seq<int>, ghost follow: bool) returns (j': nat)
    requires num.Length == 33 && 1 <= i < 33 && |t| <= a.Length && forall k :: 0 <= k < |t| ==> a[k].sym == t[k].sym
    requires follow ==> |c| == 33 && Follows(sizes[..], t, keys, c, j, i, c[i]) && num[i] <= c[i]
    requires Given(sizes[..], counts, t, j, i) && Spent(sizes[..], num[..], i, num[i]) && 0 <= num[i] <= j
    modifies sizes
    ensures j' == j - num[i] && Given(sizes[..], counts, t, j', i) && Spent(sizes[..], num[..], i, 0)
    ensures follow ==> Follows(sizes[..], t, keys, c, j', i, c[i] - num[i])
    ensures Kept(old(sizes[..]), sizes[..], t, j)
  {
    hide Spent, CountLen, Follows, Given, Kept;
    var l := num[i];
    j' := j;
    ghost var s0 := sizes[..];
    AllKept(s0, t, j);
    GivenSize(s0, counts, t, j, i);
    while l > 0
      invariant 0 <= l <= num[i] && j' == j - num[i] + l
      invariant Given(sizes[..], counts, t, j', i) && Spent(sizes[..], num[..], i, l)
      invariant follow ==> Follows(sizes[..], t, keys, c, j', i, c[i] - num[i] + l)
      invariant Kept(s0, sizes[..], t, j)
    {
      NextSymbol(sizes[..], counts, t, j', i);
      ghost var s := t[j' - 1].sym;
      if follow { FollowOne(sizes[..], t, keys, c, j', i, c[i] - num[i] + l, sizes[..][s := i]); }
      GiveOne(sizes[..], counts, t, j', i, sizes[..][s := i]);
      SpendOne(sizes[..], num[..], i, l, s);
      KeptMore(s0, sizes[..], t, j, j' - 1, i);
      j' := j' - 1;
      sizes[a[j'].sym] := i;
      l := l - 1;
    }
  }

  lemma {:induction false} NoneOfLength(lens: seq<nat>, l: nat, n: nat)
    requires n <= |lens| && forall s :: 0 <= s < n ==> lens[s] != l
    ensures CountLen(lens, l, n) == 0
  {
    if n > 0 { NoneOfLength(lens, l, n - 1); }
  }

  lemma GivingStarts(sizes: seq<nat>, counts: seq<nat>, t: seq<SymFreq>, num: seq<int>)
    requires |sizes| == |counts| && (forall s :: 0 <= s < |sizes| ==> sizes[s] == 0) && |num| == 33
    requires DistinctSyms(t) && forall k :: 0 <= k < |t| ==> t[k].sym < |sizes| && counts[t[k].sym] > 0
    ensures Given(sizes, counts, t, |t|, 0) && Spent(sizes, num, 0, 0)
  {
    forall l | 1 <= l < |num| ensures CountLen(sizes, l, |sizes|) == 0 {
      NoneOfLength(sizes, l, |sizes|);
    }
  }

  /** Every length in turn, the most frequent symbol first; as far as the lengths have not been
      changed by the limit, they are the keys. */
  method GiveLengths(sizes: array<nat>, a: array<SymFreq>, num: array<int>, n: nat, limit: nat, ghost counts: seq<nat>,
                     ghost t: seq<SymFreq>, ghost keys: seq<nat>, ghost c: seq<int>, ghost base: nat) returns (ghost x: nat)
    requires num.Length == 33 && |t| == n <= a.Length && forall k :: 0 <= k < n ==> a[k].sym == t[k].sym
    requires Budget(num[..], n, limit) && |c| == 33 && Worked(c, num[..], limit, base)
    requires Given(sizes[..], counts, t, n, 0) && Spent(sizes[..], num[..], 0, 0) && Follows(sizes[..], t, keys, c, n, 0, 0)
    modifies sizes
    ensures Given(sizes[..], counts, t, 0, limit) && Spent(sizes[..], num[..], limit, 0)
    ensures Follows(sizes[..], t, keys, c, x, base, Changed(c, num[..], limit, base))
  {
    hide Given, Spent, Space, Follows, Kept, Rounds;
    var i, j: nat := 1, n;
    x := n;
    while i <= limit
      invariant 1 <= i <= limit + 1 && j == Total(num[..], i, limit + 1) && j <= n
      invariant Given(sizes[..], counts, t, j, i - 1) && Spent(sizes[..], num[..], i - 1, 0)
      invariant i <= base ==> Follows(sizes[..], t, keys, c, j, i - 1, 0)
      invariant i > base ==> j <= x && Follows(sizes[..], t, keys, c, x, base, Changed(c, num[..], limit, base))
    {
      ghost var s0, j0 := sizes[..], j;
      if i <= base { FollowNext(s0, t, keys, c, j, i - 1); }
      if i == base { x := j; }
      ghost var follow := i < base || (i == base && base < limit);
      GivenMore(sizes[..], counts, t, j, i - 1);
      SpentNext(sizes[..], num[..], i - 1);
      TotalNonNeg(num[..], i + 1, limit + 1);
      j := GiveLength(sizes, a, num, i, j, counts, t, keys, c, follow);
      if i == base && base < limit { x := j; }
      if i >= base && !follow { FollowsOn(s0, sizes[..], t, keys, c, j0, x, base, Changed(c, num[..], limit, base)); }
      i := i + 1;
    }
  }

  lemma {:induction false} TotalSame(c: seq<int>, d: seq<int>, lo: nat, hi: nat)
    requires lo <= hi <= |c| && |c| == |d| && forall i :: lo <= i < hi ==> c[i] == d[i]
    ensures Total(c, lo, hi) == Total(d, lo, hi)
    decreases hi - lo
  {
    if lo < hi { TotalSame(c, d, lo + 1, hi); }
  }

  /** Lengths handed out within the budget fill the code space. */
  lemma LengthsFill(sizes: seq<nat>, num: seq<int>, n: nat, m: nat)
    requires Budget(num, n, m) && Spent(sizes, num, m, 0) && forall s :: 0 <= s < |sizes| ==> sizes[s] <= m
    ensures Acceptable(sizes)
  {
    hide Pow2, Space, Total, Kraft, UsedSyms;
    var c := Lengths(sizes);
    LengthsSpace(sizes);
    SpaceSplit(c, 15, 1, m + 1, 16);
    TotalSplit(c, 1, m + 1, 16);
    ZeroSpace(c, m + 1);
    SpaceScale(c, m, 15, 1, m + 1);
    SpaceSame(c, num, m, 1, m + 1);
    TotalSame(c, num, 1, m + 1);
    Pow2Add(m, 15 - m);
    Pow2Values();
  }

  lemma LimitedBudget(num: seq<int>, n: nat, m: nat)
    requires |num| == 33 && 1 <= m <= 15 && Limiting(num, n, m, Pow2(m))
    ensures Budget(num, n, m)
  {
  }

  lemma {:induction false} CountBelowSum(counts: seq<nat>, s: nat)
    requires s < |counts|
    ensures counts[s] <= SumCounts(counts)
  {
    if s < |counts| - 1 { CountBelowSum(counts[..|counts| - 1], s); }
  }

  method GatherSyms(counts: array<nat>) returns (syms: array<SymFreq>, n: nat)
    requires counts.Length <= 288
    ensures fresh(syms) && syms.Length == 288 && n <= counts.Length && syms[..n] == Used(counts[..])
  {
    syms := new SymFreq[288];
    n := 0;
    for i := 0 to counts.Length
      invariant n <= i && syms[..n] == Used(counts[..i]) && fresh(syms) && syms.Length == 288
    {
      assert counts[..i + 1][..i] == counts[..i];
      if counts[i] != 0 {
        syms[n] := SymFreq(counts[i], i);
        n := n + 1;
      }
    }
    assert counts[..counts.Length] == counts[..];
  }

  ghost predicate Frugal(counts: seq<nat>, sizes: seq<nat>, limit: nat) {
    Cheapest(counts, sizes) || Shortened(counts, limit)
  }

  /** Lengths the decompressor accepts, for exactly the symbols in use, and the more
      frequent of two symbols never has the longer code. No lengths would code the symbols
      in fewer bits, unless a code had to be shortened. */
  ghost predicate GoodLengths(counts: seq<nat>, sizes: seq<nat>, limit: nat) {
    |sizes| == |counts| && Acceptable(sizes) &&
    (forall s :: 0 <= s < |sizes| ==> sizes[s] <= limit && (sizes[s] > 0 <==> counts[s] > 0)) &&
    (forall s, t :: 0 <= s < |sizes| && 0 <= t < |sizes| && 0 < counts[t] < counts[s] ==> sizes[s] <= sizes[t]) &&
    Frugal(counts, sizes, limit) && (limit == 15 ==> Thrifty(counts, sizes))
  }

  lemma GivenGood(sizes: seq<nat>, counts: seq<nat>, t: seq<SymFreq>, num: seq<int>, m: nat)
    requires Given(sizes, counts, t, 0, m) && Budget(num, |t|, m) && Spent(sizes, num, m, 0)
    requires forall i :: 0 <= i < |t| ==> t[i].sym < |counts| && counts[t[i].sym] == t[i].key
    requires forall i, j :: 0 <= i < j < |t| ==> t[i].key <= t[j].key
    requires forall s :: 0 <= s < |counts| && counts[s] > 0 ==> exists i :: 0 <= i < |t| && t[i].sym == s
    requires Frugal(counts, sizes, m) && (m == 15 ==> Thrifty(counts, sizes))
    ensures GoodLengths(counts, sizes, m)
  {
    hide Budget, Spent, Acceptable, Frugal, Thrifty;
    forall s | 0 <= s < |sizes| ensures sizes[s] <= m && (sizes[s] > 0 <==> counts[s] > 0) {
      if counts[s] > 0 {
        var i :| 0 <= i < |t| && t[i].sym == s;
      }
    }
    forall s, r | 0 <= s < |sizes| && 0 <= r < |sizes| && 0 < counts[r] < counts[s] ensures sizes[s] <= sizes[r] {
      var i :| 0 <= i < |t| && t[i].sym == s;
      var k :| 0 <= k < |t| && t[k].sym == r;
      assert k < i;
    }
    LengthsFill(sizes, num, |t|, m);
  }

  lemma UsedKeys16(counts: seq<nat>)
    requires SumCounts(counts) <= 65535
    ensures Keys16(Used(counts))
  {
    UsedContents(counts);
    var u := Used(counts);
    forall i | 0 <= i < |u| ensures u[i].key < 65536 {
      assert u[i] in u;
      CountBelowSum(counts, u[i].sym);
    }
  }

  lemma SortPermutes(s: seq<SymFreq>, t: seq<SymFreq>)
    requires StableSort(s, t)
    ensures multiset(t) == multiset(s)
  {
  }

  /** The used symbols sorted by frequency. */
  method SortUsed(counts: array<nat>) returns (a: array<SymFreq>, n: nat)
    requires counts.Length <= 288 && SumCounts(counts[..]) <= 65535
    ensures fresh(a) && n <= a.Length && n <= counts.Length && RarestFirst(counts[..], a[..n])
    ensures SortedWeights(Keys(a[..n])) && Sum(Keys(a[..n])) <= 65535 && multiset(a[..n]) == multiset(Used(counts[..]))
  {
    hide StableSort, SumCounts, Used, Sum;
    var syms0;
    syms0, n := GatherSyms(counts);
    var syms1 := new SymFreq[288];
    UsedKeys16(counts[..]);
    a := RadixSortSyms(n, syms0, syms1);
    ghost var t := a[..n];
    SortedUsed(counts[..], t);
    SortPermutes(Used(counts[..]), t);
    forall i, j | 0 <= i < j < |t| ensures t[i].key <= t[j].key {
      assert Keys(t)[i] <= Keys(t)[j];
    }
    forall i | 0 <= i < |t| ensures t[i].key > 0 {
      assert Keys(t)[i] >= 1;
    }
  }

  lemma CodeKeys(s: seq<SymFreq>)
    requires |s| >= 2 ==> IsCode(s)
    requires |s| == 1 ==> s[0].key == 1
    ensures forall i :: 0 <= i < |s| ==> 1 <= s[i].key <= 32
    ensures |s| >= 2 ==> LengthSpace(s) == Pow2(32)
  {
  }

  lemma TalliedParts(num: seq<int>, s: seq<SymFreq>)
    requires Tallied(num, s)
    ensures |num| == 33 && NonNeg(num) && Total(num, 1, 33) == |s| && Space(num, 32, 1, 33) == LengthSpace(s)
  {
  }

  lemma SmallBudget(num: seq<int>, n: nat, m: nat)
    requires |num| == 33 && 1 <= m <= 15 && n <= 1 && NonNeg(num) && Total(num, 1, m + 1) == n
    ensures Budget(num, n, m)
  {
  }

  lemma KeysCode(w0: seq<nat>, s: seq<SymFreq>, f: Forest)
    requires |s| == |w0|
    requires |s| >= 2 ==> IsCode(s) && MinimumRedundant(w0, Keys(s)) && Complete(f, w0) && LeavesShown(s, f, -1)
    requires |s| == 1 ==> s[0].key == 1
    ensures LeastCode(w0, Keys(s))
  {
    hide Complete, MinimumRedundant, Parents, LeafDepth;
    if |s| >= 2 {
      CompleteFacts(f, w0);
      assert DepthsOf(f, w0, Keys(s));
    }
  }

  lemma NoKeysAbove(num: seq<int>, keys: seq<nat>, limit: nat)
    requires CountsKeys(num, keys) && WithinLimit(keys, limit)
    ensures NoneAbove(num, limit)
  {
    forall v | limit < v < 33 ensures num[v] == 0 {
      if num[v] > 0 { var k := KeyAmong(keys, v, |keys|); }
    }
  }

  lemma NowStretched(c: seq<int>, num: seq<int>, n: int, m: nat, base: nat)
    requires |c| == 33 && NonNeg(c) && m <= 32 && Total(c, 1, 33) == n && Worked(c, num, m, base)
    requires if n <= 1 then num == c else Limiting(num, n, m, Pow2(m)) && Space(c, 32, 1, 33) == Pow2(32)
    ensures Stretched(c, num, n, m, base)
  {
    hide Space, Total, Rounds, Pow2, Limiting;
    if base < m && n > 1 { WorkBound(c, num, n, m, base); }
  }

  lemma Unchanged(c: seq<int>, m: nat, base: nat)
    requires Worked(c, c, m, base)
    ensures base == m
  {
  }

  /** How many codes of each length: a minimum-redundancy code, limited to `limit`. */
  method LengthCounts(a: array<SymFreq>, n: nat, limit: nat)
    returns (num: array<int>, ghost keys: seq<nat>, ghost c: seq<int>, ghost base: nat)
    requires n <= a.Length && SortedWeights(Keys(a[..n])) && Sum(Keys(a[..n])) <= 65535
    requires 1 <= limit <= 15 && n <= Pow2(limit)
    modifies a
    ensures fresh(num) && num.Length == 33 && Budget(num[..], n, limit)
    ensures LeastCode(old(Keys(a[..n])), keys) && CountsKeys(c, keys) && Stretched(c, num[..], n, limit, base)
    ensures WithinLimit(keys, limit) ==> base == limit
    ensures forall i :: 0 <= i < a.Length ==> a[i].sym == old(a[i].sym)
  {
    hide *;
    ghost var w0 := Keys(a[..n]);
    ghost var f := CalculateMinimumRedundancy(a, n);
    keys := Keys(a[..n]);
    KeysCode(w0, a[..n], f);
    CodeKeys(a[..n]);
    num := TallyKeys(a, n, limit);
    c := num[..];
    if WithinLimit(keys, limit) { NoKeysAbove(c, keys, limit); }
    TalliedParts(c, a[..n]);
    base := EnforceMaxCodeSize(num, n, limit);
    if n <= 1 {
      SmallBudget(num[..], n, limit);
    } else {
      LimitedBudget(num[..], n, limit);
    }
    NowStretched(c, num[..], n, limit, base);
    if NoneAbove(c, limit) { Unchanged(c, limit, base); }
  }

  lemma SpentCounted(sizes: seq<nat>, num: seq<int>, limit: nat)
    requires Spent(sizes, num, limit, 0)
    ensures Counted(num, sizes, |sizes|, limit)
  {
  }

  lemma StretchedParts(c: seq<int>, num: seq<int>, n: int, m: nat, base: nat)
    requires Stretched(c, num, n, m, base)
    ensures Worked(c, num, m, base)
  {
  }

  lemma SortedStart(sizes: seq<nat>, counts: seq<nat>, t: seq<SymFreq>, num: seq<int>)
    requires |sizes| == |counts| && (forall s :: 0 <= s < |sizes| ==> sizes[s] == 0) && |num| == 33 && RarestFirst(counts, t)
    ensures Given(sizes, counts, t, |t|, 0) && Spent(sizes, num, 0, 0)
  {
    hide Given, Spent;
    GivingStarts(sizes, counts, t, num);
  }

  lemma SortedGood(sizes: seq<nat>, counts: seq<nat>, t: seq<SymFreq>, num: seq<int>, m: nat)
    requires RarestFirst(counts, t) && Given(sizes, counts, t, 0, m) && Budget(num, |t|, m) && Spent(sizes, num, m, 0)
    requires Frugal(counts, sizes, m) && (m == 15 ==> Thrifty(counts, sizes))
    ensures GoodLengths(counts, sizes, m)
  {
    hide Given, Budget, Spent, Frugal, Thrifty, GoodLengths;
    GivenGood(sizes, counts, t, num, m);
  }

  lemma FollowStart(sizes: seq<nat>, t: seq<SymFreq>, keys: seq<nat>, c: seq<int>, w0: seq<nat>)
    requires LeastCode(w0, keys) && |w0| == |t| && CountsKeys(c, keys)
    ensures |c| == 33 && Follows(sizes, t, keys, c, |t|, 0, 0)
  {
    hide MinimumRedundant, DepthsOf, CountKey;
    forall v | 1 <= v < 33 ensures KeysLeft(keys, c, |t|, 0, 0, v) {
    }
  }

  /** The lengths given, symbol by symbol, against the keys. */
  lemma GivenLengthened(
    counts: seq<nat>, t: seq<SymFreq>, keys: seq<nat>, c: seq<int>, sizes: seq<nat>, limit: nat, x: nat, base: nat, rest: int)
    requires Given(sizes, counts, t, 0, limit) && Follows(sizes, t, keys, c, x, base, rest)
    ensures x <= |keys| && Lengthened(keys, LengthsOf(t, sizes), x, limit)
  {
    hide LeftOver;
    LeftRange(keys, c, x, base, rest);
  }

  lemma NowFrugal(counts: seq<nat>, t: seq<SymFreq>, keys: seq<nat>, c: seq<int>, num: seq<int>, sizes: seq<nat>, limit: nat,
                  base: nat, x: nat)
    requires RarestFirst(counts, t) && multiset(t) == multiset(Used(counts)) && LeastCode(Keys(t), keys) && |sizes| == |counts|
    requires 1 <= limit < 33 && |c| == |num| == 33 && base <= limit && (WithinLimit(keys, limit) ==> base == limit)
    requires Given(sizes, counts, t, 0, limit) && Follows(sizes, t, keys, c, x, base, Changed(c, num, limit, base))
    ensures Frugal(counts, sizes, limit)
  {
    hide Cheapest, MinimumRedundant, DepthsOf, Used, CountKey, RarestFirst, Given;
    if WithinLimit(keys, limit) {
      var rest := Changed(c, num, limit, base);
      GivenLengthened(counts, t, keys, c, sizes, limit, x, base, rest);
      forall k | 0 <= k < |t| ensures LengthsOf(t, sizes)[k] <= keys[k] {
        if k < x { LeftAtLeast(keys, c, x, base, rest, k); }
      }
      LeastIsCheapest(counts, t, keys, sizes);
    } else {
      assert |t| >= 2;
      var f :| DepthsOf(f, Keys(t), keys);
    }
  }

  /** `ShorteningCost`, for the lengths given. */
  lemma NowThrifty(counts: seq<nat>, t: seq<SymFreq>, keys: seq<nat>, c: seq<int>, num: seq<int>, sizes: seq<nat>, base: nat, x: nat)
    requires RarestFirst(counts, t) && multiset(t) == multiset(Used(counts)) && LeastCode(Keys(t), keys) && |sizes| == |counts|
    requires |c| == 33 && Stretched(c, num, |t|, 15, base)
    requires Given(sizes, counts, t, 0, 15) && Follows(sizes, t, keys, c, x, base, Changed(c, num, 15, base))
    ensures Thrifty(counts, sizes)
  {
    hide MinimumRedundant, DepthsOf, Used, CountKey, RarestFirst, Given, Rounds, Thrifty, LeftOver;
    GivenLengthened(counts, t, keys, c, sizes, 15, x, base, Changed(c, num, 15, base));
    ShorteningCost(counts, t, keys, c, num, sizes, base, x);
  }

  /** The dynamic branch of `tdefl_optimize_huffman_table`. */
  method ChooseLengths(counts: array<nat>, sizes: array<nat>, limit: nat) returns (num: array<int>)
    requires counts.Length == sizes.Length <= 288 && counts != sizes
    requires SumCounts(counts[..]) <= 65535 && 1 <= limit <= 15 && sizes.Length <= Pow2(limit)
    modifies sizes
    ensures fresh(num) && num.Length == 33 && GoodLengths(counts[..], sizes[..], limit)
    ensures Counted(num[..], sizes[..], sizes.Length, limit)
  {
    hide *;
    ghost var c := counts[..];
    var a, n := SortUsed(counts);
    ghost var t, keys, k, base := a[..n], [], [], 0;
    num, keys, k, base := LengthCounts(a, n, limit);
    ghost var b := num[..];
    forall i | 0 <= i < sizes.Length { sizes[i] := 0; }
    assert num[..] == b;
    SortedStart(sizes[..], c, t, b);
    FollowStart(sizes[..], t, keys, k, Keys(t));
    StretchedParts(k, b, n, limit, base);
    ghost var x := GiveLengths(sizes, a, num, n, limit, c, t, keys, k, base);
    assert num[..] == b && counts[..] == c;
    SpentCounted(sizes[..], num[..], limit);
    NowFrugal(c, t, keys, k, b, sizes[..], limit, base, x);
    if limit == 15 { NowThrifty(c, t, keys, k, b, sizes[..], base, x); }
    SortedGood(sizes[..], c, t, num[..], limit);
  }
}
