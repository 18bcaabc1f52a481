/** The tree that `tdefl_calculate_minimum_redundancy` builds, apart from how it is kept in
    the array: what each merge keeps, how deep it gets, and what its leaves cost. */
module HuffmanForest {
  import opened Bits
  import opened HuffmanOptimal

  // ---------------------------------------------------------------- the forest

  /** The first pass, seen as a forest. Internal node `i` has weight `weight[i]`, its
      larger child weighs `larger[i]`, and the nodes below `|parent|` have a parent.
      Leaves from `leaf` on are still roots, and leaf `j` below that has parent `up[j]`.
      When node `k` had been made, `cut[k]` internal nodes had a parent. */
  datatype Forest = Forest(parent: seq<nat>, weight: seq<nat>, larger: seq<nat>, leaf: nat, up: seq<nat>, cut: seq<nat>)

  function Sum(s: seq<nat>): nat {
    if s == [] then 0 else s[0] + Sum(s[1..])
  }

  /** Parents come later, in order, and no node is the parent of three. */
  ghost predicate Parents(p: seq<nat>, next: nat) {
    (forall i :: 0 <= i < |p| ==> i < p[i] < next) &&
    (forall i, j :: 0 <= i < j < |p| ==> p[i] <= p[j]) &&
    (forall i, j :: 0 <= i && i + 2 <= j < |p| ==> p[i] < p[j])
  }

  /** Each node weighs more than its larger child, and that one never gets lighter. */
  ghost predicate Weights(w: seq<nat>, m: seq<nat>) {
    |w| == |m| &&
    (forall i :: 0 <= i < |w| ==> 1 <= m[i] < w[i] <= 2 * m[i]) &&
    (forall i, j :: 0 <= i < j < |w| ==> m[i] <= m[j])
  }

  /** The parent of `i` weighs at least as much as `i` and the larger child of `i`. */
  ghost predicate Outweighed(p: seq<nat>, w: seq<nat>, m: seq<nat>, i: nat) {
    i < |p| && i < |w| && p[i] < |w| && |w| == |m| && w[i] <= m[p[i]] && w[i] + m[i] <= w[p[i]]
  }

  ghost predicate AllOutweighed(p: seq<nat>, w: seq<nat>, m: seq<nat>) {
    forall i :: 0 <= i < |p| ==> Outweighed(p, w, m, i)
  }

  ghost predicate SortedWeights(w0: seq<nat>) {
    (forall i :: 0 <= i < |w0| ==> 1 <= w0[i]) && (forall i, j :: 0 <= i < j < |w0| ==> w0[i] <= w0[j])
  }

  /** What every step of the first pass keeps. */
  ghost predicate ForestOk(f: Forest, w0: seq<nat>) {
    var root, next := |f.parent|, |f.weight|;
    root < next && 2 * next == root + f.leaf && f.leaf == |f.up| <= |w0| && |f.larger| == next &&
    Parents(f.parent, next) && Weights(f.weight, f.larger) && AllOutweighed(f.parent, f.weight, f.larger) &&
    f.larger[next - 1] <= f.weight[root] && (f.leaf < |w0| ==> f.larger[next - 1] <= w0[f.leaf]) &&
    (forall i, j :: root <= i < j < next ==> f.weight[i] <= f.weight[j]) &&
    Sum(f.weight[root..]) + Sum(w0[f.leaf..]) == Sum(w0)
  }

  /** From the two queues, `q` is taken: it is the least of what is left. */
  ghost predicate Taken(w: seq<nat>, w0: seq<nat>, r: nat, l: nat, r': nat, l': nat, q: nat) {
    r <= |w| && l <= |w0| && r' <= |w| && l' <= |w0| &&
    ((r' == r + 1 && l' == l && q == w[r]) || (r' == r && l' == l + 1 && q == w0[l])) &&
    (r' < |w| ==> q <= w[r']) && (l' < |w0| ==> q <= w0[l'])
  }

  function Merge(f: Forest, r: nat, l: nat, q1: nat, q2: nat): Forest
    requires |f.parent| <= r && |f.up| <= l
  {
    Forest(f.parent + seq(r - |f.parent|, _ => |f.weight|), f.weight + [q1 + q2], f.larger + [q2], l,
           f.up + seq(l - |f.up|, _ => |f.weight|), f.cut + [r])
  }

  lemma {:induction false} SumSnoc(s: seq<nat>, x: nat)
    ensures Sum(s + [x]) == Sum(s) + x
  {
    if s == [] {
      assert s + [x] == [x];
    } else {
      assert (s + [x])[1..] == s[1..] + [x];
      SumSnoc(s[1..], x);
    }
  }

  lemma SumTake(w: seq<nat>, w0: seq<nat>, r: nat, l: nat, r': nat, l': nat, q: nat)
    requires Taken(w, w0, r, l, r', l', q)
    ensures Sum(w[r..]) + Sum(w0[l..]) == q + Sum(w[r'..]) + Sum(w0[l'..])
  {
  }

  lemma MergeParents(f: Forest, r: nat, l: nat, q1: nat, q2: nat)
    requires |f.parent| <= r <= |f.parent| + 2 && r <= |f.weight| && Parents(f.parent, |f.weight|) && |f.up| <= l
    ensures Parents(Merge(f, r, l, q1, q2).parent, |f.weight| + 1)
  {
  }

  /** Both weights taken are at least what the last merge took. */
  lemma TakenOrder(f: Forest, w0: seq<nat>, r1: nat, l1: nat, q1: nat, r: nat, l: nat, q2: nat)
    requires ForestOk(f, w0) && SortedWeights(w0)
    requires Taken(f.weight, w0, |f.parent|, f.leaf, r1, l1, q1) && Taken(f.weight, w0, r1, l1, r, l, q2)
    ensures 1 <= q1 <= q2 && f.larger[|f.weight| - 1] <= q1
    ensures r == |f.parent| + 1 ==> f.weight[|f.parent|] == q1 || f.weight[|f.parent|] == q2
    ensures r == |f.parent| + 2 ==> f.weight[|f.parent|] == q1 && f.weight[|f.parent| + 1] == q2
  {
    hide Sum, Parents, AllOutweighed;
  }

  lemma MergeWeights(w: seq<nat>, m: seq<nat>, q1: nat, q2: nat)
    requires Weights(w, m) && |w| > 0 && 1 <= q1 <= q2 && m[|w| - 1] <= q1
    ensures Weights(w + [q1 + q2], m + [q2])
  {
  }

  lemma MergeOutweighed(f: Forest, r: nat, l: nat, q1: nat, q2: nat)
    requires Weights(f.weight, f.larger) && AllOutweighed(f.parent, f.weight, f.larger) && |f.up| <= l
    requires |f.parent| <= r <= |f.parent| + 2 && r <= |f.weight| && 0 < |f.weight|
    requires 1 <= q1 <= q2 && f.larger[|f.weight| - 1] <= q1
    requires r == |f.parent| + 1 ==> f.weight[|f.parent|] == q1 || f.weight[|f.parent|] == q2
    requires r == |f.parent| + 2 ==> f.weight[|f.parent|] == q1 && f.weight[|f.parent| + 1] == q2
    ensures var g := Merge(f, r, l, q1, q2); AllOutweighed(g.parent, g.weight, g.larger)
  {
    var g := Merge(f, r, l, q1, q2);
    forall i | 0 <= i < |g.parent| ensures Outweighed(g.parent, g.weight, g.larger, i) {
      if i < |f.parent| {
        assert Outweighed(f.parent, f.weight, f.larger, i);
      } else {
        assert f.larger[i] <= f.larger[|f.weight| - 1];
      }
    }
  }

  lemma MergeActive(f: Forest, w0: seq<nat>, r1: nat, l1: nat, q1: nat, r: nat, l: nat, q2: nat)
    requires ForestOk(f, w0) && SortedWeights(w0)
    requires Taken(f.weight, w0, |f.parent|, f.leaf, r1, l1, q1) && Taken(f.weight, w0, r1, l1, r, l, q2)
    ensures var w := f.weight + [q1 + q2];
            q2 <= w[r] && forall i, j :: r <= i < j < |w| ==> w[i] <= w[j]
  {
    hide Parents, Sum, AllOutweighed;
    var next := |f.weight|;
    forall i | r <= i < next ensures f.weight[i] <= q1 + q2 {
      assert f.weight[i] <= f.weight[next - 1] <= 2 * f.larger[next - 1];
      assert f.larger[next - 1] <= q1 <= q2;
    }
  }

  /** Merging the two lightest roots keeps the forest in order and the total weight. */
  lemma MergeOk(f: Forest, w0: seq<nat>, r1: nat, l1: nat, q1: nat, r: nat, l: nat, q2: nat)
    requires ForestOk(f, w0) && SortedWeights(w0)
    requires Taken(f.weight, w0, |f.parent|, f.leaf, r1, l1, q1) && Taken(f.weight, w0, r1, l1, r, l, q2)
    ensures ForestOk(Merge(f, r, l, q1, q2), w0)
  {
    hide Parents, Weights, Sum, AllOutweighed;
    TakenOrder(f, w0, r1, l1, q1, r, l, q2);
    MergeParents(f, r, l, q1, q2);
    MergeWeights(f.weight, f.larger, q1, q2);
    MergeOutweighed(f, r, l, q1, q2);
    SumTake(f.weight, w0, |f.parent|, f.leaf, r1, l1, q1);
    SumTake(f.weight, w0, r1, l1, r, l, q2);
    SumSnoc(f.weight[r..], q1 + q2);
    assert Merge(f, r, l, q1, q2).weight[r..] == f.weight[r..] + [q1 + q2];
    MergeActive(f, w0, r1, l1, q1, r, l, q2);
  }

  // ---------------------------------------------------------------- who is whose child

  /** Among internal nodes and leaves alike, the children of the nodes up to `k` are the first. */
  ghost predicate CutAt(f: Forest, k: nat) {
    k < |f.cut| && f.cut[k] <= k && f.cut[k] <= |f.parent| && 2 * (k + 1) - f.cut[k] <= |f.up| &&
    (forall i :: 0 <= i < |f.parent| ==> (f.parent[i] <= k <==> i < f.cut[k])) &&
    (forall j :: 0 <= j < |f.up| ==> (f.up[j] <= k <==> j < 2 * (k + 1) - f.cut[k]))
  }

  /** What those children weigh is what their parents weigh. */
  ghost predicate SumsAt(f: Forest, w0: seq<nat>, k: nat) {
    k < |f.cut| && f.cut[k] <= |f.weight| && k < |f.weight| && 0 <= 2 * (k + 1) - f.cut[k] <= |w0| &&
    Sum(f.weight[..f.cut[k]]) + Sum(w0[..2 * (k + 1) - f.cut[k]]) == Sum(f.weight[..k + 1])
  }

  ghost predicate Cuts(f: Forest, w0: seq<nat>) {
    |f.cut| == |f.weight| > 0 && f.cut[|f.cut| - 1] == |f.parent| &&
    forall k :: 0 <= k < |f.cut| ==> CutAt(f, k) && SumsAt(f, w0, k)
  }

  lemma {:induction false} SumSplit(s: seq<nat>, k: nat)
    requires k <= |s|
    ensures Sum(s) == Sum(s[..k]) + Sum(s[k..])
  {
    if k == 0 {
      assert s[..0] == [] && s[0..] == s;
    } else {
      SumSplit(s[1..], k - 1);
      assert s[..k][1..] == s[1..][..k - 1] && s[k..] == s[1..][k - 1..];
    }
  }

  lemma CutKept(f: Forest, r: nat, l: nat, q1: nat, q2: nat, k: nat)
    requires CutAt(f, k) && |f.cut| == |f.weight| && |f.parent| <= r && |f.up| <= l
    ensures CutAt(Merge(f, r, l, q1, q2), k)
  {
  }

  lemma SumsKept(f: Forest, w0: seq<nat>, r: nat, l: nat, q1: nat, q2: nat, k: nat)
    requires SumsAt(f, w0, k) && |f.parent| <= r && |f.up| <= l
    ensures SumsAt(Merge(f, r, l, q1, q2), w0, k)
  {
    hide Sum;
    var g := Merge(f, r, l, q1, q2);
    assert g.weight[..f.cut[k]] == f.weight[..f.cut[k]] && g.weight[..k + 1] == f.weight[..k + 1];
  }

  /** The new node's children are those just taken. */
  lemma CutNew(f: Forest, w0: seq<nat>, r: nat, l: nat, q1: nat, q2: nat)
    requires ForestOk(f, w0) && |f.cut| == |f.weight| && (forall j :: 0 <= j < |f.up| ==> f.up[j] < |f.weight|)
    requires |f.parent| <= r <= |f.weight| && f.leaf <= l && r + l == 2 * (|f.weight| + 1)
    ensures CutAt(Merge(f, r, l, q1, q2), |f.weight|)
  {
    hide Sum, Weights, AllOutweighed;
  }

  /** Taking the two lightest, counted from the front of the two queues. */
  lemma SumsNew(f: Forest, w0: seq<nat>, r1: nat, l1: nat, q1: nat, r: nat, l: nat, q2: nat)
    requires ForestOk(f, w0) && |f.cut| == |f.weight|
    requires Taken(f.weight, w0, |f.parent|, f.leaf, r1, l1, q1) && Taken(f.weight, w0, r1, l1, r, l, q2)
    requires Sum(f.weight[..|f.parent|]) + Sum(w0[..f.leaf]) == Sum(f.weight)
    ensures SumsAt(Merge(f, r, l, q1, q2), w0, |f.weight|)
  {
    hide Sum, Parents, Weights, AllOutweighed;
    var g, k := Merge(f, r, l, q1, q2), |f.weight|;
    SumTake(f.weight, w0, |f.parent|, f.leaf, r1, l1, q1);
    SumTake(f.weight, w0, r1, l1, r, l, q2);
    SumSplit(f.weight, |f.parent|);
    SumSplit(w0, f.leaf);
    SumSplit(f.weight, r);
    SumSplit(w0, l);
    assert g.weight[..r] == f.weight[..r] && g.weight[..k + 1] == g.weight;
    SumSnoc(f.weight, q1 + q2);
  }

  lemma CutsFacts(f: Forest, w0: seq<nat>)
    requires ForestOk(f, w0) && Cuts(f, w0)
    ensures forall j :: 0 <= j < |f.up| ==> f.up[j] < |f.weight|
    ensures Sum(f.weight[..|f.parent|]) + Sum(w0[..f.leaf]) == Sum(f.weight)
  {
    hide Sum, Parents, Weights, AllOutweighed;
    var k := |f.cut| - 1;
    assert CutAt(f, k) && SumsAt(f, w0, k);
    assert f.weight[..k + 1] == f.weight;
  }

  /** A merge adds one more parent with its two children. */
  lemma MergeCuts(f: Forest, w0: seq<nat>, r1: nat, l1: nat, q1: nat, r: nat, l: nat, q2: nat)
    requires ForestOk(f, w0) && Cuts(f, w0)
    requires Taken(f.weight, w0, |f.parent|, f.leaf, r1, l1, q1) && Taken(f.weight, w0, r1, l1, r, l, q2)
    ensures Cuts(Merge(f, r, l, q1, q2), w0)
  {
    hide Sum, Parents, Weights, AllOutweighed, CutAt, SumsAt;
    CutsFacts(f, w0);
    var g := Merge(f, r, l, q1, q2);
    CutNew(f, w0, r, l, q1, q2);
    SumsNew(f, w0, r1, l1, q1, r, l, q2);
    forall k | 0 <= k < |f.cut| ensures CutAt(g, k) && SumsAt(g, w0, k) {
      assert CutAt(f, k) && SumsAt(f, w0, k);
      CutKept(f, r, l, q1, q2, k);
      SumsKept(f, w0, r, l, q1, q2, k);
    }
  }

  // ---------------------------------------------------------------- the least cost

  function Roots(w: seq<nat>, w0: seq<nat>, r: nat, l: nat): multiset<nat>
    requires r <= |w| && l <= |w0|
  {
    multiset(w[r..]) + multiset(w0[l..])
  }

  /** Whatever the roots must cost, with the merges so far added the leaves must. */
  ghost predicate Bounds(f: Forest, w0: seq<nat>)
    requires |f.parent| <= |f.weight| && f.leaf <= |w0|
  {
    forall c: nat :: CostsAtLeast(Roots(f.weight, w0, |f.parent|, f.leaf), c) ==> CostsAtLeast(multiset(w0), c + Sum(f.weight))
  }

  lemma QueueRest(s: seq<nat>, k: nat, q: nat)
    requires k <= |s| && (k < |s| ==> q <= s[k]) && forall i :: k < i < |s| ==> s[k] <= s[i]
    ensures forall x :: x in multiset(s[k..]) ==> q <= x
  {
    forall x | x in multiset(s[k..]) ensures q <= x {
      assert x in s[k..];
      var i :| 0 <= i < |s[k..]| && s[k..][i] == x;
      assert s[k + i] == x;
    }
  }

  lemma QueueTake(s: seq<nat>, k: nat)
    requires k < |s|
    ensures multiset(s[k..]) == multiset{s[k]} + multiset(s[k + 1..])
  {
    assert s[k..] == [s[k]] + s[k + 1..];
  }

  lemma TakeRoots(w: seq<nat>, w0: seq<nat>, r: nat, l: nat, r': nat, l': nat, q: nat)
    requires Taken(w, w0, r, l, r', l', q) && SortedWeights(w0) && forall i, j :: r <= i < j < |w| ==> w[i] <= w[j]
    ensures Roots(w, w0, r, l) == Roots(w, w0, r', l') + multiset{q}
    ensures forall x :: x in Roots(w, w0, r', l') ==> q <= x
  {
    QueueRest(w, r', q);
    QueueRest(w0, l', q);
    if r' == r + 1 { QueueTake(w, r); } else { QueueTake(w0, l); }
  }

  lemma ForestFacts(f: Forest, w0: seq<nat>)
    requires ForestOk(f, w0)
    ensures |f.parent| < |f.weight| && 2 * |f.weight| == |f.parent| + f.leaf && f.leaf == |f.up| <= |w0|
    ensures |f.larger| == |f.weight| && Sum(f.weight[|f.parent|..]) + Sum(w0[f.leaf..]) == Sum(w0)
    ensures forall i, j :: |f.parent| <= i < j < |f.weight| ==> f.weight[i] <= f.weight[j]
  {
  }

  lemma PickFacts(w: seq<nat>, w0: seq<nat>, r: nat, l: nat, r': nat, l': nat, q: nat)
    requires Taken(w, w0, r, l, r', l', q)
    ensures r <= r' <= |w| && l <= l' <= |w0| && r' + l' == r + l + 1
  {
  }

  /** The roots before a merge are those left after taking two, and the two. */
  lemma TakenRoots(f: Forest, w0: seq<nat>, r1: nat, l1: nat, q1: nat, r: nat, l: nat, q2: nat)
    requires ForestOk(f, w0) && SortedWeights(w0)
    requires Taken(f.weight, w0, |f.parent|, f.leaf, r1, l1, q1) && Taken(f.weight, w0, r1, l1, r, l, q2)
    ensures |f.parent| <= r <= |f.weight| && |f.up| == f.leaf <= l <= |w0| && q1 <= q2
    ensures Roots(f.weight, w0, |f.parent|, f.leaf) == Roots(f.weight, w0, r, l) + multiset{q1, q2}
    ensures forall x :: x in Roots(f.weight, w0, r, l) ==> q2 <= x
  {
    hide Sum, ForestOk, SortedWeights, Taken, Roots;
    ForestFacts(f, w0);
    TakenOrder(f, w0, r1, l1, q1, r, l, q2);
    PickFacts(f.weight, w0, |f.parent|, f.leaf, r1, l1, q1);
    PickFacts(f.weight, w0, r1, l1, r, l, q2);
    TakeRoots(f.weight, w0, |f.parent|, f.leaf, r1, l1, q1);
    TakeRoots(f.weight, w0, r1, l1, r, l, q2);
  }

  lemma RootAdded(w: seq<nat>, w0: seq<nat>, r: nat, l: nat, q: nat)
    requires r <= |w| && l <= |w0|
    ensures Roots(w + [q], w0, r, l) == Roots(w, w0, r, l) + multiset{q}
  {
    assert (w + [q])[r..] == w[r..] + [q];
  }

  /** The step of the lower bound. */
  lemma MergeBounds(f: Forest, w0: seq<nat>, r1: nat, l1: nat, q1: nat, r: nat, l: nat, q2: nat)
    requires ForestOk(f, w0) && SortedWeights(w0) && |f.parent| <= |f.weight| && f.leaf <= |w0| && Bounds(f, w0)
    requires Taken(f.weight, w0, |f.parent|, f.leaf, r1, l1, q1) && Taken(f.weight, w0, r1, l1, r, l, q2)
    ensures |f.parent| <= r && |f.up| <= l
    ensures var g := Merge(f, r, l, q1, q2); |g.parent| <= |g.weight| && g.leaf <= |w0| && Bounds(g, w0)
  {
    hide Sum, ForestOk, SortedWeights, Taken, CostsAtLeast, Roots;
    TakenRoots(f, w0, r1, l1, q1, r, l, q2);
    RootAdded(f.weight, w0, r, l, q1 + q2);
    SumSnoc(f.weight, q1 + q2);
    var after := Roots(f.weight, w0, r, l);
    var merged := after + multiset{q1 + q2};
    forall c: nat | CostsAtLeast(merged, c) ensures CostsAtLeast(multiset(w0), c + Sum(f.weight + [q1 + q2])) {
      MergeLightest(after, q1, q2, c);
      assert CostsAtLeast(multiset(w0), (c + q1 + q2) + Sum(f.weight));
    }
  }

  // ---------------------------------------------------------------- leaves and their parents

  /** A leaf weighs at most what the larger child of its parent does. */
  ghost predicate LeafAt(f: Forest, w0: seq<nat>, j: nat) {
    j < |f.up| && j < |w0| && f.up[j] < |f.larger| && w0[j] <= f.larger[f.up[j]]
  }

  ghost predicate LeavesBelow(f: Forest, w0: seq<nat>) {
    forall j :: 0 <= j < |f.up| ==> LeafAt(f, w0, j)
  }

  lemma MergeLeaves(f: Forest, w0: seq<nat>, r1: nat, l1: nat, q1: nat, r: nat, l: nat, q2: nat)
    requires LeavesBelow(f, w0) && |f.up| == f.leaf && |f.larger| == |f.weight| && |f.parent| <= r && f.leaf <= l && q1 <= q2
    requires Taken(f.weight, w0, |f.parent|, f.leaf, r1, l1, q1) && Taken(f.weight, w0, r1, l1, r, l, q2)
    ensures LeavesBelow(Merge(f, r, l, q1, q2), w0)
  {
    var g := Merge(f, r, l, q1, q2);
    forall j | 0 <= j < |g.up| ensures LeafAt(g, w0, j) {
      if j < |f.up| { assert LeafAt(f, w0, j); }
    }
  }

  /** All that the first pass keeps. */
  ghost predicate TreeOk(f: Forest, w0: seq<nat>) {
    ForestOk(f, w0) && Cuts(f, w0) && Bounds(f, w0) && LeavesBelow(f, w0)
  }

  lemma MergeTree(f: Forest, w0: seq<nat>, r1: nat, l1: nat, q1: nat, r: nat, l: nat, q2: nat)
    requires TreeOk(f, w0) && SortedWeights(w0)
    requires Taken(f.weight, w0, |f.parent|, f.leaf, r1, l1, q1) && Taken(f.weight, w0, r1, l1, r, l, q2)
    ensures |f.parent| <= r && |f.up| <= l && TreeOk(Merge(f, r, l, q1, q2), w0)
  {
    hide ForestOk, Cuts, Bounds, LeavesBelow, Taken, Sum, SortedWeights, Merge;
    ForestFacts(f, w0);
    TakenOrder(f, w0, r1, l1, q1, r, l, q2);
    PickFacts(f.weight, w0, |f.parent|, f.leaf, r1, l1, q1);
    PickFacts(f.weight, w0, r1, l1, r, l, q2);
    MergeLeaves(f, w0, r1, l1, q1, r, l, q2);
    MergeOk(f, w0, r1, l1, q1, r, l, q2);
    MergeCuts(f, w0, r1, l1, q1, r, l, q2);
    MergeBounds(f, w0, r1, l1, q1, r, l, q2);
  }

  lemma TreeFacts(f: Forest, w0: seq<nat>)
    requires TreeOk(f, w0)
    ensures |f.parent| < |f.weight| && 2 * |f.weight| == |f.parent| + f.leaf && f.leaf == |f.up| <= |w0|
    ensures Sum(f.weight[|f.parent|..]) + Sum(w0[f.leaf..]) == Sum(w0)
    ensures forall i, j :: |f.parent| <= i < j < |f.weight| ==> f.weight[i] <= f.weight[j]
  {
    hide ForestOk, Cuts, Bounds;
    ForestFacts(f, w0);
  }

  lemma FirstOk(w0: seq<nat>)
    requires |w0| >= 2 && SortedWeights(w0)
    ensures ForestOk(Forest([], [w0[0] + w0[1]], [w0[1]], 2, [0, 0], [0]), w0)
  {
    var w: seq<nat> := [w0[0] + w0[1]];
    assert w[0..] == w && w[1..] == [];
    assert w0[1..][1..] == w0[2..];
    assert Sum(w) == w0[0] + w0[1];
    assert Sum(w0[1..]) == w0[1] + Sum(w0[2..]);
    assert Weights(w, [w0[1]]);
  }

  lemma FirstCuts(w0: seq<nat>)
    requires |w0| >= 2
    ensures Cuts(Forest([], [w0[0] + w0[1]], [w0[1]], 2, [0, 0], [0]), w0)
  {
    var f := Forest([], [w0[0] + w0[1]], [w0[1]], 2, [0, 0], [0]);
    assert f.weight[..1] == [w0[0] + w0[1]] && w0[..2] == [w0[0], w0[1]] && f.weight[..0] == [];
    assert Sum([w0[0], w0[1]]) == w0[0] + Sum([w0[1]]) == w0[0] + w0[1];
    assert Sum([w0[0] + w0[1]]) == w0[0] + w0[1];
    assert CutAt(f, 0) && SumsAt(f, w0, 0);
  }

  lemma FirstRoots(w0: seq<nat>)
    requires |w0| >= 2
    ensures multiset(w0) == multiset(w0[2..]) + multiset{w0[0], w0[1]}
    ensures Roots([w0[0] + w0[1]], w0, 0, 2) == multiset(w0[2..]) + multiset{w0[0] + w0[1]}
    ensures Sum([w0[0] + w0[1]]) == w0[0] + w0[1]
  {
    assert w0 == [w0[0], w0[1]] + w0[2..];
  }

  lemma FirstBounds(w0: seq<nat>)
    requires |w0| >= 2 && SortedWeights(w0)
    ensures Bounds(Forest([], [w0[0] + w0[1]], [w0[1]], 2, [0, 0], [0]), w0)
  {
    hide CostsAtLeast;
    var q, rest := w0[0] + w0[1], multiset(w0[2..]);
    QueueRest(w0, 2, w0[1]);
    FirstRoots(w0);
    forall c: nat | CostsAtLeast(rest + multiset{q}, c) ensures CostsAtLeast(multiset(w0), c + q) {
      MergeLightest(rest, w0[0], w0[1], c);
    }
  }

  lemma FirstTree(w0: seq<nat>)
    requires |w0| >= 2 && SortedWeights(w0)
    ensures TreeOk(Forest([], [w0[0] + w0[1]], [w0[1]], 2, [0, 0], [0]), w0)
  {
    hide ForestOk, Cuts, Bounds, Sum;
    FirstOk(w0);
    FirstCuts(w0);
    FirstBounds(w0);
    var f := Forest([], [w0[0] + w0[1]], [w0[1]], 2, [0, 0], [0]);
    assert LeafAt(f, w0, 0) && LeafAt(f, w0, 1);
  }

  lemma FirstTwo(w0: seq<nat>)
    requires |w0| >= 2
    ensures w0[0] + w0[1] <= Sum(w0)
  {
    assert w0[1..][0] == w0[1];
  }

  // ---------------------------------------------------------------- depths

  /** The depth of internal node `i`; the root is the last one. */
  ghost function Depth(p: seq<nat>, i: nat): nat
    requires Parents(p, |p| + 1) && i <= |p|
    decreases |p| - i
  {
    if i == |p| then 0 else 1 + Depth(p, p[i])
  }

  lemma {:induction false} DepthMono(p: seq<nat>, i: nat, j: nat)
    requires Parents(p, |p| + 1) && i <= j <= |p|
    ensures Depth(p, i) >= Depth(p, j)
    ensures i < |p| ==> Depth(p, i) > 0
    decreases |p| - i
  {
    if i < j < |p| { DepthMono(p, p[i], p[j]); }
  }

  function Fib(n: nat): nat {
    if n < 2 then n else Fib(n - 1) + Fib(n - 2)
  }

  lemma {:induction false} FibMono(a: nat, b: nat)
    requires a <= b
    ensures Fib(a) <= Fib(b)
  {
    if a < b { FibMono(a, b - 1); }
  }

  lemma FibNext(d: nat)
    ensures Fib(d + 2) == Fib(d + 1) + Fib(d)
  {
  }

  lemma FibStep(a: nat, b: nat, u: nat, v: nat, d: nat)
    requires a <= v && a + b <= u
    ensures a * Fib(d + 2) + b * Fib(d + 1) <= u * Fib(d + 1) + v * Fib(d)
  {
    hide Fib;
    FibNext(d);
    MulMono(a + b, u, Fib(d + 1));
    MulMono(a, v, Fib(d));
    MulDistrib(a, b, Fib(d + 1));
    MulDistrib(Fib(d + 1), Fib(d), a);
  }

  /** The tree weighs at least as many times a node and its larger child as Fibonacci's
      numbers say for its depth. */
  lemma {:induction false} DepthWeight(p: seq<nat>, w: seq<nat>, m: seq<nat>, i: nat)
    requires Parents(p, |p| + 1) && |w| == |p| + 1 && Weights(w, m) && AllOutweighed(p, w, m) && i <= |p|
    ensures w[i] * Fib(Depth(p, i) + 1) + m[i] * Fib(Depth(p, i)) <= w[|p|]
    decreases |p| - i
  {
    if i < |p| {
      assert Outweighed(p, w, m, i);
      var u, d := p[i], Depth(p, p[i]);
      DepthWeight(p, w, m, u);
      FibStep(w[i], m[i], w[u], m[u], d);
    }
  }

  lemma FibSix(d: nat)
    ensures Fib(d + 6) == 8 * Fib(d + 1) + 5 * Fib(d) && Fib(d + 7) == 13 * Fib(d + 1) + 8 * Fib(d)
  {
    hide Fib;
    FibNext(d);
    FibNext(d + 1);
    FibNext(d + 2);
    FibNext(d + 3);
    FibNext(d + 4);
    FibNext(d + 5);
  }

  lemma FibFirst(d: nat)
    ensures d < 2 ==> Fib(d) == d
  {
  }

  lemma FibBig(d: nat)
    requires d >= 24
    ensures Fib(d) >= 46368
  {
    hide Fib;
    FibFirst(0);
    FibFirst(1);
    FibSix(0);
    FibSix(6);
    FibSix(12);
    FibSix(18);
    FibMono(24, d);
  }

  /** No internal node lies deeper than 29, so 33 counters hold all code lengths. */
  lemma DepthBound(p: seq<nat>, w: seq<nat>, m: seq<nat>, i: nat)
    requires Parents(p, |p| + 1) && |w| == |p| + 1 && Weights(w, m) && AllOutweighed(p, w, m) && i <= |p|
    requires w[|p|] <= 65535
    ensures Depth(p, i) <= 29
  {
    hide Depth, AllOutweighed, Fib;
    DepthWeight(p, w, m, i);
    var d := Depth(p, i);
    if d > 29 {
      FibBig(d + 1);
      MulMono(2, w[i], Fib(d + 1));
    }
  }

  // ---------------------------------------------------------------- what the leaves cost

  ghost predicate Within(up: seq<nat>, n: nat) {
    forall j :: 0 <= j < |up| ==> up[j] <= n
  }

  ghost function LeafDepth(p: seq<nat>, up: seq<nat>, j: nat): nat
    requires Parents(p, |p| + 1) && Within(up, |p|) && j < |up|
  {
    1 + Depth(p, up[j])
  }

  /** The first `n` internal nodes, each at its depth. */
  ghost function NodeCost(p: seq<nat>, w: seq<nat>, n: nat): nat
    requires Parents(p, |p| + 1) && n <= |p| + 1 && n <= |w|
  {
    if n == 0 then 0 else NodeCost(p, w, n - 1) + w[n - 1] * Depth(p, n - 1)
  }

  /** The first `n` leaves, each at its depth. */
  ghost function LeafCost(p: seq<nat>, up: seq<nat>, w0: seq<nat>, n: nat): nat
    requires Parents(p, |p| + 1) && Within(up, |p|) && n <= |up| && n <= |w0|
  {
    if n == 0 then 0 else LeafCost(p, up, w0, n - 1) + w0[n - 1] * LeafDepth(p, up, n - 1)
  }

  lemma SumStep(s: seq<nat>, n: nat)
    requires n < |s|
    ensures Sum(s[..n + 1]) == Sum(s[..n]) + s[n]
  {
    hide Sum;
    assert s[..n + 1] == s[..n] + [s[n]];
    SumSnoc(s[..n], s[n]);
  }

  /** Children of one node cost what they weigh, times one more than its depth. */
  lemma {:induction false} NodeRange(p: seq<nat>, w: seq<nat>, a: nat, b: nat, k: nat)
    requires Parents(p, |p| + 1) && a <= b <= |p| && b <= |w| && k <= |p|
    requires forall i :: a <= i < b ==> p[i] == k
    ensures NodeCost(p, w, b) == NodeCost(p, w, a) + (Sum(w[..b]) - Sum(w[..a])) * (1 + Depth(p, k))
    decreases b
  {
    hide Sum, Parents;
    if a < b {
      NodeRange(p, w, a, b - 1, k);
      SumStep(w, b - 1);
      MulDistrib(Sum(w[..b - 1]) - Sum(w[..a]), w[b - 1], 1 + Depth(p, k));
    }
  }

  lemma {:induction false} LeafRange(p: seq<nat>, up: seq<nat>, w0: seq<nat>, a: nat, b: nat, k: nat)
    requires Parents(p, |p| + 1) && Within(up, |p|) && a <= b <= |up| && b <= |w0| && k <= |p|
    requires forall j :: a <= j < b ==> up[j] == k
    ensures LeafCost(p, up, w0, b) == LeafCost(p, up, w0, a) + (Sum(w0[..b]) - Sum(w0[..a])) * (1 + Depth(p, k))
    decreases b
  {
    hide Sum, Parents;
    if a < b {
      LeafRange(p, up, w0, a, b - 1, k);
      SumStep(w0, b - 1);
      MulDistrib(Sum(w0[..b - 1]) - Sum(w0[..a]), w0[b - 1], 1 + Depth(p, k));
    }
  }

  /** The whole tree has been built. */
  ghost predicate Complete(f: Forest, w0: seq<nat>) {
    TreeOk(f, w0) && |w0| >= 2 && |f.weight| == |w0| - 1 && |f.parent| == |w0| - 2
  }

  /** How many internal nodes have a parent below `k`. */
  function NodesBelow(f: Forest, k: nat): nat
    requires k <= |f.cut|
  {
    if k == 0 then 0 else f.cut[k - 1]
  }

  /** The children of node `k`. */
  ghost predicate ChildrenAre(f: Forest, k: nat, a: nat, b: nat) {
    a <= b <= |f.parent| && 2 * k - a <= 2 * (k + 1) - b && 0 <= 2 * k - a && 2 * (k + 1) - b <= |f.up| &&
    (forall i :: a <= i < b ==> f.parent[i] == k) && (forall j :: 2 * k - a <= j < 2 * (k + 1) - b ==> f.up[j] == k)
  }

  lemma Children(f: Forest, k: nat)
    requires CutAt(f, k) && (k > 0 ==> CutAt(f, k - 1))
    ensures ChildrenAre(f, k, NodesBelow(f, k), f.cut[k])
  {
    if k > 0 {
      var a, b := f.cut[k - 1], f.cut[k];
      if a > 0 { assert f.parent[a - 1] <= k - 1; }
      var c, d := 2 * k - a, 2 * (k + 1) - b;
      if c > 0 { assert f.up[c - 1] <= k - 1; }
    }
  }

  lemma CompleteFacts(f: Forest, w0: seq<nat>)
    requires Complete(f, w0)
    ensures Parents(f.parent, |f.parent| + 1) && Within(f.up, |f.parent|) && |f.up| == |w0|
    ensures |f.cut| == |f.weight| == |f.parent| + 1 == |w0| - 1 && f.cut[|f.cut| - 1] == |f.parent| && f.leaf == |w0|
    ensures forall k :: 0 <= k < |f.cut| ==> CutAt(f, k) && SumsAt(f, w0, k)
  {
    hide Sum, Bounds, Weights, AllOutweighed, SumsAt;
    var k := |f.cut| - 1;
    assert CutAt(f, k);
  }

  lemma TreeDepths(f: Forest, w0: seq<nat>)
    requires Complete(f, w0) && Sum(w0) <= 65535
    ensures Parents(f.parent, |f.parent| + 1) && Within(f.up, |f.parent|) && |f.up| == |w0|
    ensures forall i :: 0 <= i <= |f.parent| ==> Depth(f.parent, i) <= 29
  {
    hide Cuts, Bounds, Depth;
    CompleteFacts(f, w0);
    var r := |f.parent|;
    assert f.weight[r..] == [f.weight[r]];
    assert Sum([f.weight[r]]) == f.weight[r];
    forall i | 0 <= i <= r ensures Depth(f.parent, i) <= 29 {
      DepthBound(f.parent, f.weight, f.larger, i);
    }
  }

  lemma FibLeaf(a: nat, u: nat, v: nat, d: nat)
    requires a <= v <= u
    ensures a * Fib(d + 2) <= u * Fib(d + 1) + v * Fib(d)
  {
    hide Fib;
    FibNext(d);
    MulMono(a, u, Fib(d + 1));
    MulMono(a, v, Fib(d));
    MulDistrib(Fib(d + 1), Fib(d), a);
  }

  /** A leaf of depth `d` weighs at most a Fib(d + 1)th of all. */
  lemma LeafWeight(f: Forest, w0: seq<nat>, j: nat)
    requires Complete(f, w0) && j < |w0|
    ensures Parents(f.parent, |f.parent| + 1) && Within(f.up, |f.parent|) && |f.up| == |w0|
    ensures w0[j] * Fib(LeafDepth(f.parent, f.up, j) + 1) <= Sum(w0)
  {
    hide Cuts, Bounds, Depth, Fib, Parents;
    CompleteFacts(f, w0);
    var r, u := |f.parent|, f.up[j];
    assert f.weight[r..] == [f.weight[r]];
    assert Sum([f.weight[r]]) == f.weight[r];
    assert LeafAt(f, w0, j);
    DepthWeight(f.parent, f.weight, f.larger, u);
    FibLeaf(w0[j], f.weight[u], f.larger[u], Depth(f.parent, u));
  }

  /** The first `2k` children, each at its depth, cost what their `k` parents cost and weigh. */
  ghost predicate CostsMatch(f: Forest, w0: seq<nat>, k: nat) {
    k <= |f.weight| && |f.up| == |w0| && |f.cut| == |f.weight| == |f.parent| + 1 &&
    Parents(f.parent, |f.parent| + 1) && Within(f.up, |f.parent|) &&
    var a := NodesBelow(f, k);
    a <= |f.parent| && 0 <= 2 * k - a <= |f.up| &&
    LeafCost(f.parent, f.up, w0, 2 * k - a) + NodeCost(f.parent, f.weight, a) ==
    NodeCost(f.parent, f.weight, k) + Sum(f.weight[..k])
  }

  lemma BelowNext(f: Forest, w0: seq<nat>, k: nat)
    requires Complete(f, w0) && k < |f.weight|
    ensures k < |f.cut| && NodesBelow(f, k + 1) == f.cut[k] && ChildrenAre(f, k, NodesBelow(f, k), f.cut[k])
  {
    hide Complete, Parents, CutAt, SumsAt;
    CompleteFacts(f, w0);
    assert CutAt(f, k) && (k > 0 ==> CutAt(f, k - 1));
    Children(f, k);
  }

  lemma Combined(x: int, y: int, w: int, d: int)
    requires x + y == w
    ensures x * (1 + d) + y * (1 + d) == w * d + w
  {
    assert x * (1 + d) + y * (1 + d) == (x + y) * (1 + d);
  }

  lemma NodeCostStep(p: seq<nat>, w: seq<nat>, k: nat)
    requires Parents(p, |p| + 1) && k <= |p| && k < |w|
    ensures NodeCost(p, w, k + 1) == NodeCost(p, w, k) + w[k] * Depth(p, k)
  {
    hide Parents, Depth;
  }

  lemma SumNone()
    ensures Sum([]) == 0
  {
  }

  lemma ChildrenWeigh(f: Forest, w0: seq<nat>, k: nat)
    requires Complete(f, w0) && k < |f.weight| && |f.cut| == |f.weight|
    ensures var a, b := NodesBelow(f, k), f.cut[k];
            a <= |f.weight| && b <= |f.weight| && 0 <= 2 * k - a <= |w0| && 0 <= 2 * (k + 1) - b <= |w0| &&
            Sum(f.weight[..b]) - Sum(f.weight[..a]) + Sum(w0[..2 * (k + 1) - b]) - Sum(w0[..2 * k - a]) == f.weight[k]
  {
    hide Complete, Sum, Parents, Within, CutAt;
    CompleteFacts(f, w0);
    assert SumsAt(f, w0, k);
    SumStep(f.weight, k);
    if k > 0 {
      assert SumsAt(f, w0, k - 1);
    } else {
      assert f.weight[..0] == [] && w0[..0] == [];
      SumNone();
    }
  }

  lemma CostsStep(f: Forest, w0: seq<nat>, k: nat)
    requires Complete(f, w0) && k < |f.weight| && CostsMatch(f, w0, k)
    ensures CostsMatch(f, w0, k + 1)
  {
    hide Complete, Sum, Parents, Within, LeafCost, NodeCost, NodesBelow, Depth;
    BelowNext(f, w0, k);
    var a, b := NodesBelow(f, k), f.cut[k];
    NodeRange(f.parent, f.weight, a, b, k);
    LeafRange(f.parent, f.up, w0, 2 * k - a, 2 * (k + 1) - b, k);
    ChildrenWeigh(f, w0, k);
    SumStep(f.weight, k);
    NodeCostStep(f.parent, f.weight, k);
    Combined(Sum(f.weight[..b]) - Sum(f.weight[..a]), Sum(w0[..2 * (k + 1) - b]) - Sum(w0[..2 * k - a]),
             f.weight[k], Depth(f.parent, k));
  }

  lemma {:induction false} CostsSoFar(f: Forest, w0: seq<nat>, k: nat)
    requires Complete(f, w0) && k <= |f.weight|
    ensures CostsMatch(f, w0, k)
  {
    if k > 0 {
      hide Complete, CostsMatch;
      CostsSoFar(f, w0, k - 1);
      CostsStep(f, w0, k - 1);
    } else {
      hide Complete, Parents, CutAt, SumsAt;
      CompleteFacts(f, w0);
      assert f.weight[..0] == [];
    }
  }

  /** The leaves, each at its depth, cost the sum of all merged weights. */
  lemma TreeCost(f: Forest, w0: seq<nat>)
    requires Complete(f, w0)
    ensures Parents(f.parent, |f.parent| + 1) && Within(f.up, |f.parent|) && |f.up| == |w0|
    ensures LeafCost(f.parent, f.up, w0, |w0|) == Sum(f.weight)
  {
    hide Sum, LeafCost, Parents, TreeOk;
    CompleteFacts(f, w0);
    var n := |f.weight|;
    CostsSoFar(f, w0, n);
    assert f.weight[..n] == f.weight;
  }

  lemma AtLeastNothing(ws: multiset<nat>)
    ensures CostsAtLeast(ws, 0)
  {
  }

  /** No code for the weights costs less than the sum of all merged weights. */
  lemma NoneCheaper(f: Forest, w0: seq<nat>)
    requires Complete(f, w0)
    ensures CostsAtLeast(multiset(w0), Sum(f.weight))
  {
    hide Sum, ForestOk, Cuts, CostsAtLeast;
    CompleteFacts(f, w0);
    assert CostsAtLeast(Roots(f.weight, w0, |f.parent|, f.leaf), 0) by { AtLeastNothing(Roots(f.weight, w0, |f.parent|, f.leaf)); }
    assert CostsAtLeast(multiset(w0), 0 + Sum(f.weight));
  }
}
