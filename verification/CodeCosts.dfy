/** What code lengths cost the symbols of a block, and when they cost least. */
module CodeCosts {
  import opened Bits
  import opened RadixSort
  import opened HuffmanOptimal
  import opened HuffmanForest
  import opened MinimumRedundancy
  import opened UsedSymbols

  // ---------------------------------------------------------------- cost and code space

  /** The bits that the first `n` symbols take, each as often as counted. */
  function SymCost(counts: seq<nat>, ls: seq<nat>, n: nat): nat
    requires n <= |counts| && n <= |ls|
  {
    if n == 0 then 0 else SymCost(counts, ls, n - 1) + counts[n - 1] * ls[n - 1]
  }

  /** The code space that the used ones among the first `n` symbols take, in units of 2^-m. */
  function UsedSpace(counts: seq<nat>, ls: seq<nat>, m: nat, n: nat): nat
    requires n <= |counts| && n <= |ls|
  {
    if n == 0 then 0
    else UsedSpace(counts, ls, m, n - 1) + (if counts[n - 1] > 0 && ls[n - 1] <= m then Pow2(m - ls[n - 1]) else 0)
  }

  /** Lengths with which the used symbols can be coded. */
  ghost predicate Serves(counts: seq<nat>, ls: seq<nat>, m: nat) {
    |ls| == |counts| && (forall s :: 0 <= s < |counts| && counts[s] > 0 ==> 1 <= ls[s] <= m) &&
    UsedSpace(counts, ls, m, |counts|) <= Pow2(m)
  }

  /** No lengths code the symbols in fewer bits. */
  ghost predicate Cheapest(counts: seq<nat>, sizes: seq<nat>) {
    |sizes| == |counts| &&
    forall ls: seq<nat>, m: nat :: Serves(counts, ls, m) ==> SymCost(counts, sizes, |counts|) <= SymCost(counts, ls, |counts|)
  }

  ghost predicate DepthsOf(f: Forest, w0: seq<nat>, keys: seq<nat>) {
    Complete(f, w0) && |keys| == |w0| == |f.up| && Parents(f.parent, |f.parent| + 1) && Within(f.up, |f.parent|) &&
    forall j :: 0 <= j < |keys| ==> keys[j] == LeafDepth(f.parent, f.up, j)
  }

  /** Keys after the minimum-redundancy step: for two weights or more the depths of the
      leaves of a tree for them, and of least cost. */
  ghost predicate LeastCode(w0: seq<nat>, keys: seq<nat>) {
    |keys| == |w0| && (forall k, l :: 0 <= k < l < |keys| ==> keys[k] >= keys[l]) &&
    (forall k :: 0 <= k < |keys| ==> 1 <= keys[k] <= 32) && (|w0| == 1 ==> keys == [1]) &&
    (|w0| >= 2 ==> MinimumRedundant(w0, keys) && exists f :: DepthsOf(f, w0, keys))
  }

  predicate WithinLimit(keys: seq<nat>, limit: nat) {
    forall k :: 0 <= k < |keys| ==> keys[k] <= limit
  }

  /** A minimum-redundancy code for the counts has a length above the limit. */
  ghost predicate Shortened(counts: seq<nat>, limit: nat) {
    exists t: seq<SymFreq>, keys: seq<nat>, f: Forest ::
      RarestFirst(counts, t) && DepthsOf(f, Keys(t), keys) && !WithinLimit(keys, limit)
  }

  // ---------------------------------------------------------------- sums over symbols

  ghost function SumBy(t: seq<SymFreq>, g: SymFreq -> nat): nat {
    if t == [] then 0 else SumBy(t[..|t| - 1], g) + g(t[|t| - 1])
  }

  lemma {:induction false} SumByConcat(a: seq<SymFreq>, b: seq<SymFreq>, g: SymFreq -> nat)
    ensures SumBy(a + b, g) == SumBy(a, g) + SumBy(b, g)
  {
    if b == [] {
      assert a + b == a;
    } else {
      assert (a + b)[..|a + b| - 1] == a + b[..|b| - 1];
      SumByConcat(a, b[..|b| - 1], g);
    }
  }

  /** The order does not matter. */
  lemma {:induction false} SumByPermuted(s: seq<SymFreq>, t: seq<SymFreq>, g: SymFreq -> nat)
    requires multiset(s) == multiset(t)
    ensures SumBy(s, g) == SumBy(t, g)
    decreases |t|
  {
    if t == [] {
      assert |multiset(s)| == 0;
    } else {
      var u, x := t[..|t| - 1], t[|t| - 1];
      assert t == u + [x];
      var a, b := RemoveOne(s, u, x);
      SumByPermuted(a + b, u, g);
      SumByConcat(a, b, g);
      SumByConcat(a + [x], b, g);
      assert (a + [x])[..|a|] == a;
    }
  }

  function LengthOf(ls: seq<nat>, s: nat): nat {
    if s < |ls| then ls[s] else 0
  }

  ghost function CostOf(ls: seq<nat>): SymFreq -> nat {
    (x: SymFreq) => x.key * LengthOf(ls, x.sym)
  }

  ghost function SpaceOf(ls: seq<nat>, m: nat): SymFreq -> nat {
    (x: SymFreq) => if LengthOf(ls, x.sym) <= m then Pow2(m - LengthOf(ls, x.sym)) else 0
  }

  lemma UsedSnoc(counts: seq<nat>, n: nat)
    requires 0 < n <= |counts|
    ensures Used(counts[..n]) ==
            if counts[n - 1] > 0 then Used(counts[..n - 1]) + [SymFreq(counts[n - 1], n - 1)] else Used(counts[..n - 1])
  {
    assert counts[..n][..n - 1] == counts[..n - 1];
    assert Used(counts[..n - 1]) + [] == Used(counts[..n - 1]);
  }

  lemma SumBySnoc(u: seq<SymFreq>, x: SymFreq, g: SymFreq -> nat)
    ensures SumBy(u + [x], g) == SumBy(u, g) + g(x)
  {
    assert (u + [x])[..|u|] == u;
  }

  lemma NoneUsed(counts: seq<nat>, g: SymFreq -> nat)
    ensures SumBy(Used(counts[..0]), g) == 0
  {
    assert counts[..0] == [];
  }

  lemma {:induction false} UsedCost(counts: seq<nat>, ls: seq<nat>, n: nat)
    requires n <= |counts| == |ls|
    ensures SumBy(Used(counts[..n]), CostOf(ls)) == SymCost(counts, ls, n)
  {
    hide Used, SumBy;
    NoneUsed(counts, CostOf(ls));
    if n > 0 {
      UsedCost(counts, ls, n - 1);
      UsedSnoc(counts, n);
      if counts[n - 1] > 0 { SumBySnoc(Used(counts[..n - 1]), SymFreq(counts[n - 1], n - 1), CostOf(ls)); }
    }
  }

  lemma {:induction false} UsedSpaceIs(counts: seq<nat>, ls: seq<nat>, m: nat, n: nat)
    requires n <= |counts| == |ls|
    ensures SumBy(Used(counts[..n]), SpaceOf(ls, m)) == UsedSpace(counts, ls, m, n)
  {
    hide Used, SumBy, Pow2;
    NoneUsed(counts, SpaceOf(ls, m));
    if n > 0 {
      UsedSpaceIs(counts, ls, m, n - 1);
      UsedSnoc(counts, n);
      if counts[n - 1] > 0 { SumBySnoc(Used(counts[..n - 1]), SymFreq(counts[n - 1], n - 1), SpaceOf(ls, m)); }
    }
  }

  // ---------------------------------------------------------------- symbols as items

  function LengthsOf(t: seq<SymFreq>, ls: seq<nat>): (r: seq<nat>)
    ensures |r| == |t|
  {
    seq(|t|, (k: nat) requires k < |t| => LengthOf(ls, t[k].sym))
  }

  lemma {:induction false} SpaceSnoc(p: seq<Item>, x: Item, m: nat)
    ensures Space(p + [x], m) == Space(p, m) + (if x.length <= m then Pow2(m - x.length) else 0)
  {
    hide Pow2;
    if p == [] {
      assert p + [x] == [x];
    } else {
      assert (p + [x])[1..] == p[1..] + [x];
      SpaceSnoc(p[1..], x, m);
    }
  }

  lemma {:induction false} WeightsSnoc(p: seq<Item>, x: Item)
    ensures WeightsOf(p + [x]) == WeightsOf(p) + multiset{x.weight}
  {
    if p == [] {
      assert p + [x] == [x];
    } else {
      assert (p + [x])[1..] == p[1..] + [x];
      WeightsSnoc(p[1..], x);
    }
  }

  lemma NoItems(m: nat)
    ensures Cost([]) == 0 && Space([], m) == 0 && WeightsOf([]) == multiset{}
  {
  }

  lemma {:induction false} ItemsAre(t: seq<SymFreq>, ls: seq<nat>, m: nat)
    ensures var p := Items(Keys(t), LengthsOf(t, ls));
            Cost(p) == SumBy(t, CostOf(ls)) && Space(p, m) == SumBy(t, SpaceOf(ls, m)) && WeightsOf(p) == multiset(Keys(t))
  {
    hide Cost, Space, WeightsOf, Pow2;
    if t == [] {
      assert Items(Keys(t), LengthsOf(t, ls)) == [];
      NoItems(m);
    } else {
      var u, x := t[..|t| - 1], t[|t| - 1];
      ItemsAre(u, ls, m);
      var q, y := Items(Keys(u), LengthsOf(u, ls)), Item(x.key, LengthOf(ls, x.sym));
      assert Items(Keys(t), LengthsOf(t, ls)) == q + [y];
      assert Keys(t) == Keys(u) + [x.key];
      CostSnoc(q, y);
      SpaceSnoc(q, y, m);
      WeightsSnoc(q, y);
    }
  }

  /** The cost and the code space of the used symbols, whichever way they are listed. */
  lemma ListedCost(counts: seq<nat>, t: seq<SymFreq>, ls: seq<nat>, m: nat)
    requires |ls| == |counts| && multiset(t) == multiset(Used(counts))
    ensures var p := Items(Keys(t), LengthsOf(t, ls));
            Cost(p) == SymCost(counts, ls, |counts|) && Space(p, m) == UsedSpace(counts, ls, m, |counts|) &&
            WeightsOf(p) == multiset(Keys(t))
  {
    hide Cost, Space, WeightsOf, SumBy, Used, SymCost, UsedSpace, Items, Keys, LengthsOf, CostOf, SpaceOf;
    ItemsAre(t, ls, m);
    SumByPermuted(t, Used(counts), CostOf(ls));
    SumByPermuted(t, Used(counts), SpaceOf(ls, m));
    UsedCost(counts, ls, |counts|);
    UsedSpaceIs(counts, ls, m, |counts|);
    assert counts[..|counts|] == counts;
  }

  // ---------------------------------------------------------------- the cheapest lengths

  /** A single symbol is coded in one bit, and none in no bits. */
  lemma FewSymbols(w0: seq<nat>, keys: seq<nat>, l: seq<nat>)
    requires |keys| == |l| == |w0| <= 1 && (|w0| == 1 ==> keys == [1] && l[0] >= 1)
    ensures Cost(Items(w0, keys)) <= Cost(Items(w0, l))
  {
    if |w0| == 1 {
      assert Items(w0, keys) == [Item(w0[0], 1)] && Items(w0, l) == [Item(w0[0], l[0])];
      MulMono(1, l[0], w0[0]);
    } else {
      assert Items(w0, keys) == [] && Items(w0, l) == [];
    }
  }

  lemma ServesFits(counts: seq<nat>, t: seq<SymFreq>, ls: seq<nat>, m: nat)
    requires RarestFirst(counts, t) && Serves(counts, ls, m)
    requires Space(Items(Keys(t), LengthsOf(t, ls)), m) == UsedSpace(counts, ls, m, |counts|)
    ensures Fits(Items(Keys(t), LengthsOf(t, ls)), m) && forall k :: 0 <= k < |t| ==> LengthsOf(t, ls)[k] >= 1
  {
    hide Space, UsedSpace, Pow2;
  }

  lemma {:induction false} NoLongerPrefix(w0: seq<nat>, l: seq<nat>, keys: seq<nat>, n: nat)
    requires |w0| == |l| == |keys| && n <= |l| && forall k :: 0 <= k < |l| ==> l[k] <= keys[k]
    ensures Cost(Items(w0, l)[..n]) <= Cost(Items(w0, keys)[..n])
  {
    hide Cost;
    if n == 0 {
      assert Items(w0, l)[..0] == [] && Items(w0, keys)[..0] == [];
    } else {
      var k, w := n - 1, w0[n - 1];
      NoLongerPrefix(w0, l, keys, k);
      assert Items(w0, l)[..n] == Items(w0, l)[..k] + [Item(w, l[k])];
      assert Items(w0, keys)[..n] == Items(w0, keys)[..k] + [Item(w, keys[k])];
      CostSnoc(Items(w0, l)[..k], Item(w, l[k]));
      CostSnoc(Items(w0, keys)[..k], Item(w, keys[k]));
      MulMono(l[k], keys[k], w);
    }
  }

  lemma NoLonger(w0: seq<nat>, l: seq<nat>, keys: seq<nat>)
    requires |w0| == |l| == |keys| && forall k :: 0 <= k < |l| ==> l[k] <= keys[k]
    ensures Cost(Items(w0, l)) <= Cost(Items(w0, keys))
  {
    hide Cost, Items;
    var n := |l|;
    NoLongerPrefix(w0, l, keys, n);
    assert Items(w0, l)[..n] == Items(w0, l) && Items(w0, keys)[..n] == Items(w0, keys);
  }

  /** Lengths given to the symbols as a least code gives them to their frequencies are cheapest. */
  lemma LeastIsCheapest(counts: seq<nat>, t: seq<SymFreq>, keys: seq<nat>, sizes: seq<nat>)
    requires RarestFirst(counts, t) && multiset(t) == multiset(Used(counts)) && LeastCode(Keys(t), keys)
    requires |sizes| == |counts| && forall k :: 0 <= k < |t| ==> LengthsOf(t, sizes)[k] <= keys[k]
    ensures Cheapest(counts, sizes)
  {
    hide Cost, Space, WeightsOf, Fits, Used, SymCost, UsedSpace, Items;
    NoLonger(Keys(t), LengthsOf(t, sizes), keys);
    forall ls: seq<nat>, m: nat | Serves(counts, ls, m)
      ensures SymCost(counts, sizes, |counts|) <= SymCost(counts, ls, |counts|)
    {
      ListedCost(counts, t, sizes, m);
      ListedCost(counts, t, ls, m);
      ServesFits(counts, t, ls, m);
      if |t| <= 1 { FewSymbols(Keys(t), keys, LengthsOf(t, ls)); }
    }
  }
}
