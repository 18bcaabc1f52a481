/** What it costs to shorten the codes that are longer than the limit. */
module Shortening {
  import opened Bits
  import opened HuffmanOptimal
  import opened HuffmanForest
  import opened MinimumRedundancy
  import L = LengthLimit
  import opened RadixSort
  import opened UsedSymbols
  import opened CodeCosts

  // ---------------------------------------------------------------- counting keys

  /** How many of the first `n` keys are `v`. */
  function CountKey(keys: seq<nat>, v: nat, n: nat): nat
    requires n <= |keys|
  {
    if n == 0 then 0 else CountKey(keys, v, n - 1) + (if keys[n - 1] == v then 1 else 0)
  }

  ghost predicate CountsKeys(num: seq<int>, keys: seq<nat>) {
    |num| == 33 && forall v :: 0 <= v < 33 ==> num[v] == CountKey(keys, v, |keys|)
  }

  lemma {:induction false} CountKeyPrefix(keys: seq<nat>, more: seq<nat>, v: nat, n: nat)
    requires n <= |keys| && keys <= more
    ensures CountKey(more, v, n) == CountKey(keys, v, n)
  {
    if n > 0 { CountKeyPrefix(keys, more, v, n - 1); }
  }

  lemma CountsKeysSnoc(num: seq<int>, keys: seq<nat>, k: nat)
    requires CountsKeys(num, keys) && k < 33
    ensures CountsKeys(num[k := num[k] + 1], keys + [k])
  {
    var next, more, n := num[k := num[k] + 1], keys + [k], |keys| + 1;
    forall v | 0 <= v < 33 ensures next[v] == CountKey(more, v, n) {
      CountKeyPrefix(keys, more, v, |keys|);
    }
  }

  lemma {:induction false} KeyAmong(keys: seq<nat>, v: nat, n: nat) returns (k: nat)
    requires n <= |keys| && CountKey(keys, v, n) > 0
    ensures k < n && keys[k] == v
  {
    if keys[n - 1] == v { k := n - 1; } else { k := KeyAmong(keys, v, n - 1); }
  }

  // ---------------------------------------------------------------- rounds by keys

  /** The rounds it takes to lengthen a code of length `v` to the limit `m`. */
  function Work(v: nat, m: nat): nat {
    if v < m then Pow2(m - v) - 1 else 0
  }

  function WorkSum(keys: seq<nat>, m: nat, n: nat): nat
    requires n <= |keys|
  {
    if n == 0 then 0 else WorkSum(keys, m, n - 1) + Work(keys[n - 1], m)
  }

  /** Counts of the first `n` keys, one for each length. */
  ghost predicate CountsFirst(c: seq<int>, keys: seq<nat>, n: nat) {
    |c| == 33 && n <= |keys| && forall v :: 1 <= v < 33 ==> c[v] == CountKey(keys, v, n)
  }

  lemma NoRounds(c: seq<int>, m: nat, lo: nat)
    requires lo <= m < |c| && forall v :: lo <= v < m ==> c[v] == 0
    ensures L.Rounds(c, m, lo) == 0
  {
    L.ZerosBelow(c, m, lo, m);
  }

  lemma RoundsUpdate(c: seq<int>, m: nat, v: nat)
    requires 1 <= v < |c| && 1 <= m < |c|
    ensures L.Rounds(c[v := c[v] - 1], m, 1) == L.Rounds(c, m, 1) - Work(v, m)
  {
    hide Pow2, L.Space, L.Total;
    L.TotalUpdate(c, 1, m, v, c[v] - 1);
    if v < m {
      L.SpaceUpdate(c, m, 1, m, v, c[v] - 1);
    } else {
      L.SpaceSame(c, c[v := c[v] - 1], m, 1, m);
    }
  }

  /** The rounds counted by lengths and by keys are the same. */
  lemma {:induction false} WorkByKeys(c: seq<int>, keys: seq<nat>, m: nat, n: nat)
    requires CountsFirst(c, keys, n) && 1 <= m < 33 && forall k :: 0 <= k < n ==> 1 <= keys[k] < 33
    ensures WorkSum(keys, m, n) == L.Rounds(c, m, 1)
    decreases n
  {
    hide Work, L.Rounds;
    if n == 0 {
      NoRounds(c, m, 1);
    } else {
      var v := keys[n - 1];
      var d := c[v := c[v] - 1];
      forall u | 1 <= u < 33 ensures d[u] == CountKey(keys, u, n - 1) {
        assert c[u] == CountKey(keys, u, n);
      }
      WorkByKeys(d, keys, m, n - 1);
      RoundsUpdate(c, m, v);
    }
  }

  // ---------------------------------------------------------------- what lengthening costs

  function Below(v: nat, m: nat): nat {
    if v < m then m - v else 0
  }

  /** What it costs to lengthen the first `n` symbols to the limit. */
  function Slack(w0: seq<nat>, keys: seq<nat>, m: nat, n: nat): nat
    requires n <= |keys| && n <= |w0|
  {
    if n == 0 then 0 else Slack(w0, keys, m, n - 1) + w0[n - 1] * Below(keys[n - 1], m)
  }

  lemma FibValues()
    ensures Fib(8) == 21 && Fib(9) == 34 && Fib(10) == 55 && Fib(11) == 89 && Fib(12) == 144
    ensures Fib(13) == 233 && Fib(14) == 377 && Fib(15) == 610
  {
  }

  lemma Regroup(w: int, b: int, f: int, g: int)
    ensures (540 * b) * w == 540 * (w * b) && (f * g) * w == (w * f) * g
  {
  }

  lemma Pow2Small()
    ensures Pow2(1) == 2 && Pow2(2) == 4 && Pow2(3) == 8 && Pow2(4) == 16 && Pow2(5) == 32 && Pow2(6) == 64
    ensures Pow2(7) == 128 && Pow2(8) == 256 && Pow2(9) == 512
  {
  }

  lemma ChargeRatio(v: nat)
    requires 7 <= v < 15
    ensures 540 * (15 - v) <= Fib(v + 1) * Work(v, 15)
  {
    hide Fib;
    FibValues();
    Pow2Small();
    if v == 7 {
    } else if v == 8 {
    } else if v == 9 {
    } else if v == 10 {
    } else if v == 11 {
    } else if v == 12 {
    } else if v == 13 {
    }
  }

  /** Lengthening a code of 7 bits or more costs at most a 540th of all for each round it takes. */
  lemma Charge(v: nat, w: nat, total: nat)
    requires 7 <= v && w * Fib(v + 1) <= total
    ensures 540 * (w * Below(v, 15)) <= total * Work(v, 15)
  {
    hide Fib;
    FibValues();
    Pow2Values();
    if v < 15 {
      var f, g := Fib(v + 1), Work(v, 15);
      assert 540 * (15 - v) <= f * g by { ChargeRatio(v); }
      MulMono(w * f, total, g);
      MulMono(540 * (15 - v), f * g, w);
      Regroup(w, 15 - v, f, g);
    }
  }

  lemma Distribute(t: int, a: int, b: int)
    ensures t * (a + b) == t * a + t * b
  {
  }

  lemma {:induction false} SlackCharged(w0: seq<nat>, keys: seq<nat>, n: nat, total: nat)
    requires n <= |keys| && n <= |w0| && forall k :: 0 <= k < n ==> 7 <= keys[k] && w0[k] * Fib(keys[k] + 1) <= total
    ensures 540 * Slack(w0, keys, 15, n) <= total * WorkSum(keys, 15, n)
  {
    hide Fib, Work, Below;
    if n > 0 {
      SlackCharged(w0, keys, n - 1, total);
      Charge(keys[n - 1], w0[n - 1], total);
      Distribute(total, WorkSum(keys, 15, n - 1), Work(keys[n - 1], 15));
    }
  }

  /** How many of the first `n` keys are `v`. */
  ghost predicate KeysLeft(keys: seq<nat>, c: seq<int>, n: nat, i: nat, rest: int, v: nat)
    requires n <= |keys| && v < |c|
  {
    CountKey(keys, v, n) == if v < i then 0 else if v == i then rest else c[v]
  }

  /** The keys that are left when all shorter ones have been handed out: `rest` of length `base`,
      and all longer ones. */
  ghost predicate LeftOver(keys: seq<nat>, c: seq<int>, x: nat, base: nat, rest: int) {
    |c| == 33 && x <= |keys| && (forall k :: 0 <= k < |keys| ==> 1 <= keys[k] < 33) &&
    (forall k, l :: 0 <= k < l < |keys| ==> keys[k] >= keys[l]) &&
    forall v :: 1 <= v < 33 ==> KeysLeft(keys, c, x, base, rest, v)
  }

  lemma {:induction false} KeyCounted(keys: seq<nat>, k: nat, n: nat)
    requires k < n <= |keys|
    ensures CountKey(keys, keys[k], n) > 0
  {
    if k < n - 1 { KeyCounted(keys, k, n - 1); }
  }

  lemma LeftAtLeast(keys: seq<nat>, c: seq<int>, x: nat, base: nat, rest: int, k: nat)
    requires LeftOver(keys, c, x, base, rest) && k < x
    ensures keys[k] >= base
  {
    assert KeysLeft(keys, c, x, base, rest, keys[k]);
    KeyCounted(keys, k, x);
  }

  /** The most frequent of them has the shortest code. */
  lemma LeftTop(keys: seq<nat>, c: seq<int>, x: nat, base: nat, rest: int)
    requires LeftOver(keys, c, x, base, rest) && rest > 0 && 1 <= base < 33
    ensures 0 < x && keys[x - 1] == base
  {
    assert KeysLeft(keys, c, x, base, rest, base);
    var k := KeyAmong(keys, base, x);
    LeftAtLeast(keys, c, x, base, rest, x - 1);
  }

  lemma LastKey(keys: seq<nat>, v: nat, n: nat)
    requires 0 < n <= |keys|
    ensures CountKey(keys, v, n) == CountKey(keys, v, n - 1) + (if keys[n - 1] == v then 1 else 0)
  {
  }

  lemma LessOne(r: int, p: int)
    ensures r * (p - 1) == r * p - r
  {
  }

  lemma LeftRounds(c: seq<int>, d: seq<int>, m: nat, base: nat, r: int)
    requires 1 <= base < m < |c| == |d| && d[base] == r
    requires forall v :: 1 <= v < m ==> v == base || d[v] == if v < base then 0 else c[v]
    ensures L.Rounds(d, m, 1) == r * (Pow2(m - base) - 1) + L.Rounds(c, m, base + 1)
  {
    hide Pow2, L.Space, L.Total;
    L.RoundsSplit(d, m, base);
    L.ZerosBelow(d, m, 1, base);
    L.SpaceSame(c, d, m, base + 1, m);
    L.TotalBelow(c, d, base + 1, m);
    LessOne(r, Pow2(m - base));
  }

  /** The rounds for all of them but that one. */
  lemma LeftWork(keys: seq<nat>, c: seq<int>, x: nat, base: nat, rest: int, m: nat)
    requires LeftOver(keys, c, x, base, rest) && rest > 0 && 1 <= base < m < 33
    ensures 0 < x && WorkSum(keys, m, x - 1) == (rest - 1) * (Pow2(m - base) - 1) + L.Rounds(c, m, base + 1)
  {
    hide Pow2, L.Rounds, WorkSum, CountKey;
    LeftTop(keys, c, x, base, rest);
    var d := seq(33, (v: nat) => CountKey(keys, v, x - 1));
    forall v | 1 <= v < 33 ensures d[v] == if v < base then 0 else if v == base then rest - 1 else c[v] {
      assert KeysLeft(keys, c, x, base, rest, v);
      LastKey(keys, v, x);
    }
    WorkByKeys(d, keys, m, x - 1);
    LeftRounds(c, d, m, base, rest - 1);
  }

  // ---------------------------------------------------------------- the bound

  /** How far the loop went: down to codes of length `base`, with less work than codes. */
  ghost predicate Stretched(c: seq<int>, num: seq<int>, n: int, m: nat, base: nat) {
    L.Worked(c, num, m, base) &&
    (base < m ==> (c[base] - num[base] - 1) * (Pow2(m - base) - 1) + L.Rounds(c, m, base + 1) <= n - 2 && Pow2(m - base) <= n - 2)
  }

  /** How many codes of length `base` were not left as they were. */
  function Changed(c: seq<int>, num: seq<int>, m: nat, base: nat): int
    requires base < |c| == |num|
  {
    if base < m then c[base] - num[base] else c[base]
  }

  ghost predicate WeighLittle(w0: seq<nat>, keys: seq<nat>, total: nat) {
    |w0| == |keys| && forall k :: 0 <= k < |keys| ==> w0[k] * Fib(keys[k] + 1) <= total
  }

  lemma {:induction false} NoSlack(w0: seq<nat>, keys: seq<nat>, m: nat, n: nat)
    requires n <= |keys| && n <= |w0| && forall k :: 0 <= k < n ==> m <= keys[k]
    ensures Slack(w0, keys, m, n) == 0
  {
    if n > 0 { NoSlack(w0, keys, m, n - 1); }
  }

  /** All symbols to be lengthened but the one with the shortest code. */
  lemma SlackButOne(w0: seq<nat>, keys: seq<nat>, c: seq<int>, num: seq<int>, base: nat, x: nat, total: nat)
    requires Stretched(c, num, |keys|, 15, base) && LeftOver(keys, c, x, base, Changed(c, num, 15, base))
    requires WeighLittle(w0, keys, total) && 7 <= base < 15
    ensures 0 < x && keys[x - 1] == base && 540 * Slack(w0, keys, 15, x - 1) <= total * (|keys| - 2)
  {
    hide Slack, WorkSum, Fib, Pow2, L.Rounds, CountKey;
    var r := Changed(c, num, 15, base);
    LeftTop(keys, c, x, base, r);
    LeftWork(keys, c, x, base, r, 15);
    forall k | 0 <= k < x - 1 ensures 7 <= keys[k] && w0[k] * Fib(keys[k] + 1) <= total {
      LeftAtLeast(keys, c, x, base, r, k);
    }
    SlackCharged(w0, keys, x - 1, total);
    MulMono(WorkSum(keys, 15, x - 1), |keys| - 2, total);
  }

  lemma BaseBound(base: nat, n: int)
    requires base < 15 && Pow2(15 - base) <= n - 2
    ensures n <= 286 ==> 7 <= base
    ensures n <= 30 ==> 11 <= base
  {
    hide Pow2;
    Pow2Small();
    if base < 7 { Pow2Mono(9, 15 - base); }
    if base < 11 { Pow2Mono(5, 15 - base); }
  }

  lemma Times(w: int, b: int, f: int, k: int)
    ensures (k * b) * w == k * (w * b) && (8 * f) * w == 8 * (w * f) && f * w == w * f
  {
  }

  lemma TopRatio(base: nat)
    requires 7 <= base < 15
    ensures 21 * (15 - base) <= 8 * Fib(base + 1) && (11 <= base ==> 36 * (15 - base) <= Fib(base + 1))
  {
    hide Fib;
    FibValues();
    if base == 7 {
    } else if base == 8 {
    } else if base == 9 {
    } else if base == 10 {
    } else if base == 11 {
    } else if base == 12 {
    } else if base == 13 {
    }
  }

  /** The one with the shortest code. */
  lemma TopBound(base: nat, w: nat, total: nat)
    requires 7 <= base < 15 && w * Fib(base + 1) <= total
    ensures 21 * (w * (15 - base)) <= 8 * total
    ensures 11 <= base ==> 36 * (w * (15 - base)) <= total
  {
    hide Fib;
    FibValues();
    var f := Fib(base + 1);
    assert 21 * (15 - base) <= 8 * f && (11 <= base ==> 36 * (15 - base) <= f) by { TopRatio(base); }
    MulMono(21 * (15 - base), 8 * f, w);
    Regroup(w, 15 - base, f, 8);
    Times(w, 15 - base, f, 21);
    if 11 <= base {
      MulMono(36 * (15 - base), f, w);
      Times(w, 15 - base, f, 36);
    }
  }

  lemma NoneLengthened(w0: seq<nat>, keys: seq<nat>, c: seq<int>, rest: int, x: nat)
    requires LeftOver(keys, c, x, 15, rest) && |w0| == |keys|
    ensures x <= |keys| && Slack(w0, keys, 15, x) == 0
  {
    hide Slack, CountKey;
    forall k | 0 <= k < x ensures 15 <= keys[k] { LeftAtLeast(keys, c, x, 15, rest, k); }
    NoSlack(w0, keys, 15, x);
  }

  lemma SlackStep(w0: seq<nat>, keys: seq<nat>, x: nat)
    requires 0 < x <= |keys| == |w0|
    ensures Slack(w0, keys, 15, x) == Slack(w0, keys, 15, x - 1) + w0[x - 1] * Below(keys[x - 1], 15)
  {
  }

  lemma LeftRange(keys: seq<nat>, c: seq<int>, x: nat, base: nat, rest: int)
    requires LeftOver(keys, c, x, base, rest)
    ensures x <= |keys|
  {
  }

  lemma InAll(a: nat, b: nat, total: nat, n: int)
    requires 540 * a <= total * (n - 2) && 21 * b <= 8 * total && n <= 286
    ensures a + b <= total
    ensures n <= 30 && 36 * b <= total ==> 10 * (a + b) <= total
  {
    MulMono(n - 2, 284, total);
    if n <= 30 { MulMono(n - 2, 28, total); }
  }

  lemma SomeLengthened(w0: seq<nat>, keys: seq<nat>, c: seq<int>, num: seq<int>, base: nat, x: nat, total: nat)
    requires Stretched(c, num, |keys|, 15, base) && LeftOver(keys, c, x, base, Changed(c, num, 15, base))
    requires WeighLittle(w0, keys, total) && base < 15 && |keys| <= 286
    ensures x <= |keys| && Slack(w0, keys, 15, x) <= total && (|keys| <= 30 ==> 10 * Slack(w0, keys, 15, x) <= total)
  {
    hide Fib, Pow2, L.Rounds, Slack, LeftOver;
    BaseBound(base, |keys|);
    SlackButOne(w0, keys, c, num, base, x, total);
    LeftRange(keys, c, x, base, Changed(c, num, 15, base));
    TopBound(base, w0[x - 1], total);
    SlackStep(w0, keys, x);
    InAll(Slack(w0, keys, 15, x - 1), w0[x - 1] * (15 - base), total, |keys|);
  }

  /** Lengthening costs at most one bit for each use of a symbol among up to 286 symbols, and
      one for each ten uses among up to 30. */
  lemma SlackBound(w0: seq<nat>, keys: seq<nat>, c: seq<int>, num: seq<int>, base: nat, x: nat, total: nat)
    requires Stretched(c, num, |keys|, 15, base) && LeftOver(keys, c, x, base, Changed(c, num, 15, base))
    requires WeighLittle(w0, keys, total) && |keys| <= 286
    ensures x <= |keys| && Slack(w0, keys, 15, x) <= total && (|keys| <= 30 ==> 10 * Slack(w0, keys, 15, x) <= total)
  {
    hide Slack, LeftOver, L.Rounds, Pow2;
    if base == 15 {
      NoneLengthened(w0, keys, c, Changed(c, num, 15, base), x);
    } else {
      SomeLengthened(w0, keys, c, num, base, x, total);
    }
  }

  // ---------------------------------------------------------------- cost of the lengths given

  /** Lengths that are the keys from symbol `x` on, and before it at most the limit. */
  ghost predicate Lengthened(keys: seq<nat>, l: seq<nat>, x: nat, m: nat) {
    |l| == |keys| && forall k :: 0 <= k < |l| ==> l[k] <= if k < x then m else keys[k]
  }

  lemma OneLengthened(w: nat, l: nat, key: nat, m: nat, longer: bool)
    requires l <= if longer then m else key
    ensures w * l <= w * key + if longer then w * Below(key, m) else 0
  {
    if longer {
      MulMono(l, key + Below(key, m), w);
      Distribute(w, key, Below(key, m));
    } else {
      MulMono(l, key, w);
    }
  }

  lemma {:induction false} CostPrefix(w0: seq<nat>, keys: seq<nat>, l: seq<nat>, x: nat, m: nat, n: nat)
    requires |w0| == |keys| && Lengthened(keys, l, x, m) && x <= |keys| && n <= |keys|
    ensures Cost(Items(w0, l)[..n]) <= Cost(Items(w0, keys)[..n]) + Slack(w0, keys, m, if n < x then n else x)
  {
    hide Cost, Below;
    if n == 0 {
      assert Items(w0, l)[..0] == [] && Items(w0, keys)[..0] == [];
    } else {
      CostPrefix(w0, keys, l, x, m, n - 1);
      var k, w := n - 1, w0[n - 1];
      assert Items(w0, l)[..n] == Items(w0, l)[..k] + [Item(w, l[k])];
      assert Items(w0, keys)[..n] == Items(w0, keys)[..k] + [Item(w, keys[k])];
      CostSnoc(Items(w0, l)[..k], Item(w, l[k]));
      CostSnoc(Items(w0, keys)[..k], Item(w, keys[k]));
      OneLengthened(w, l[k], keys[k], m, k < x);
    }
  }

  lemma LengthenedCost(w0: seq<nat>, keys: seq<nat>, l: seq<nat>, x: nat, m: nat)
    requires |w0| == |keys| && Lengthened(keys, l, x, m) && x <= |keys|
    ensures Cost(Items(w0, l)) <= Cost(Items(w0, keys)) + Slack(w0, keys, m, x)
  {
    hide Cost, Slack, Items;
    var n := |keys|;
    CostPrefix(w0, keys, l, x, m, n);
    assert Items(w0, l)[..n] == Items(w0, l) && Items(w0, keys)[..n] == Items(w0, keys);
  }

  /** Any lengths that serve cost up to 286 symbols at most one bit for each use less, and up to
      30 symbols at most one for each ten uses less. */
  ghost predicate Thrifty(counts: seq<nat>, sizes: seq<nat>) {
    |sizes| == |counts| &&
    forall ls: seq<nat>, m: nat :: Serves(counts, ls, m) ==>
      (|Used(counts)| <= 286 ==> SymCost(counts, sizes, |counts|) <= SymCost(counts, ls, |counts|) + SumCounts(counts)) &&
      (|Used(counts)| <= 30 ==> 10 * SymCost(counts, sizes, |counts|) <= 10 * SymCost(counts, ls, |counts|) + SumCounts(counts))
  }

  lemma OneWeight(w0: seq<nat>)
    requires |w0| == 1
    ensures w0[0] * Fib(2) <= Sum(w0)
  {
  }

  /** No frequency is too great for its key. */
  lemma KeysWeigh(w0: seq<nat>, keys: seq<nat>)
    requires LeastCode(w0, keys)
    ensures WeighLittle(w0, keys, Sum(w0))
  {
    hide MinimumRedundant, Complete, Parents, LeafDepth, Fib, Sum;
    if |w0| >= 2 {
      var f :| DepthsOf(f, w0, keys);
      forall k | 0 <= k < |keys| ensures w0[k] * Fib(keys[k] + 1) <= Sum(w0) {
        LeafWeight(f, w0, k);
      }
    } else if |w0| == 1 {
      OneWeight(w0);
    }
  }

  /** The least code, as it costs the symbols, is beaten by no lengths that serve. */
  lemma LeastCost(counts: seq<nat>, t: seq<SymFreq>, keys: seq<nat>, ls: seq<nat>, m: nat)
    requires RarestFirst(counts, t) && multiset(t) == multiset(Used(counts)) && LeastCode(Keys(t), keys)
    requires Serves(counts, ls, m)
    ensures Cost(Items(Keys(t), keys)) <= SymCost(counts, ls, |counts|)
  {
    hide Cost, Space, WeightsOf, Fits, Used, SymCost, UsedSpace, Items, DepthsOf;
    ListedCost(counts, t, ls, m);
    ServesFits(counts, t, ls, m);
    if |t| <= 1 { FewSymbols(Keys(t), keys, LengthsOf(t, ls)); }
  }

  lemma LeastSize(w0: seq<nat>, keys: seq<nat>)
    requires LeastCode(w0, keys)
    ensures |keys| == |w0|
  {
  }

  lemma ServesSize(counts: seq<nat>, ls: seq<nat>, m: nat)
    requires Serves(counts, ls, m)
    ensures |ls| == |counts|
  {
  }

  /** The frequencies listed sum to the counts. */
  lemma SumListed(counts: seq<nat>, t: seq<SymFreq>)
    requires multiset(t) == multiset(Used(counts))
    ensures Sum(Keys(t)) == SumCounts(counts)
  {
    hide Used, SumCounts, SumKeys, Sum;
    UsedSum(counts);
    SumKeysPermuted(Used(counts), t);
    SumOfKeys(t);
  }

  /** What shortening costs. */
  lemma ShorteningCost(counts: seq<nat>, t: seq<SymFreq>, keys: seq<nat>, c: seq<int>, num: seq<int>, sizes: seq<nat>, base: nat, x: nat)
    requires RarestFirst(counts, t) && multiset(t) == multiset(Used(counts)) && LeastCode(Keys(t), keys) && |sizes| == |counts|
    requires Stretched(c, num, |t|, 15, base) && LeftOver(keys, c, x, base, Changed(c, num, 15, base))
    requires Lengthened(keys, LengthsOf(t, sizes), x, 15)
    ensures Thrifty(counts, sizes)
  {
    hide RarestFirst, Used, LeastCode, Cost, SymCost, Slack, Serves, Stretched, LeftOver, Lengthened, Items, Fib, WeighLittle;
    var w0 := Keys(t);
    LeastSize(w0, keys);
    SumListed(counts, t);
    assert |t| == |Used(counts)| by { assert |multiset(t)| == |multiset(Used(counts))|; }
    KeysWeigh(w0, keys);
    if |t| <= 286 {
      SlackBound(w0, keys, c, num, base, x, Sum(w0));
      LengthenedCost(w0, keys, LengthsOf(t, sizes), x, 15);
      ListedCost(counts, t, sizes, 15);
      forall ls: seq<nat>, m: nat | Serves(counts, ls, m)
        ensures |ls| == |counts| && Cost(Items(w0, keys)) <= SymCost(counts, ls, |counts|)
      {
        ServesSize(counts, ls, m);
        LeastCost(counts, t, keys, ls, m);
      }
    }
  }
}
