/** `tdefl_calculate_minimum_redundancy`: the in-place construction of Moffat and
    Katajainen, which turns sorted weights into code lengths in the same array. */
module MinimumRedundancy {
  import opened Bits
  import opened RadixSort
  import opened HuffmanForest
  import opened HuffmanOptimal

  // ---------------------------------------------------------------- the first pass

  /** The array holds the parents `p`, then the weights of internal roots; leaves still
      to be merged stand at its end. */
  ghost predicate Stored(a: array<SymFreq>, n: nat, p: seq<nat>, w: seq<nat>, w0: seq<nat>, leaf: nat)
    reads a
  {
    n == |w0| <= a.Length && |p| <= |w| <= leaf <= n &&
    (forall i :: 0 <= i < |p| ==> a[i].key == p[i]) &&
    (forall i :: |p| <= i < |w| ==> a[i].key == w[i]) &&
    (forall i :: leaf <= i < n ==> a[i].key == w0[i])
  }

  /** The choice made twice in a step: a leaf is taken unless an internal root is lighter. */
  method TakeSmallest(a: array<SymFreq>, n: nat, root: nat, leaf: nat, next: nat,
                      ghost p: seq<nat>, ghost w: seq<nat>, ghost w0: seq<nat>)
    returns (q: nat, root': nat, leaf': nat)
    requires Stored(a, n, p, w, w0, leaf) && root == |p| && next == |w| < n
    requires root < next || leaf < n
    requires SortedWeights(w0) && forall i, j :: root <= i < j < next ==> w[i] <= w[j]
    modifies a
    ensures Taken(w, w0, root, leaf, root', leaf', q)
    ensures Stored(a, n, p + seq(root' - root, _ => next), w, w0, leaf')
    ensures forall i :: 0 <= i < a.Length ==> a[i].sym == old(a[i].sym)
    ensures forall i :: next <= i < a.Length ==> a[i] == old(a[i])
  {
    if leaf >= n || (root < next && a[root].key < a[leaf].key) {
      q := a[root].key;
      a[root] := SymFreq(next, a[root].sym);
      root', leaf' := root + 1, leaf;
    } else {
      q := a[leaf].key;
      root', leaf' := root, leaf + 1;
    }
  }

  /** The second half of a step: `A[next]`, which holds the first weight, becomes the sum. */
  method AddSecond(a: array<SymFreq>, n: nat, r1: nat, l1: nat, next: nat, q1: nat,
                   ghost p1: seq<nat>, ghost w: seq<nat>, ghost w0: seq<nat>)
    returns (r2: nat, l2: nat, ghost q2: nat)
    requires Stored(a, n, p1, w, w0, l1) && r1 == |p1| && next == |w| < n - 1 && a[next].key == q1
    requires r1 + l1 == 2 * next + 1 && Sum(w[r1..]) + Sum(w0[l1..]) + q1 <= 65535
    requires SortedWeights(w0) && forall i, j :: r1 <= i < j < next ==> w[i] <= w[j]
    modifies a
    ensures Taken(w, w0, r1, l1, r2, l2, q2)
    ensures Stored(a, n, p1 + seq(r2 - r1, _ => next), w + [q1 + q2], w0, l2)
    ensures forall i :: 0 <= i < a.Length ==> a[i].sym == old(a[i].sym)
  {
    hide Sum, Taken;
    var q, r, l := TakeSmallest(a, n, r1, l1, next, p1, w, w0);
    PickFacts(w, w0, r1, l1, r, l, q);
    SumTake(w, w0, r1, l1, r, l, q);
    a[next] := SymFreq((a[next].key + q) % 65536, a[next].sym);
    r2, l2, q2 := r, l, q;
  }

  /** Step `next` of the first pass; the 16-bit sum does not wrap. */
  method MergeStep(a: array<SymFreq>, n: nat, root: nat, leaf: nat, next: nat, ghost f: Forest, ghost w0: seq<nat>)
    returns (root': nat, leaf': nat, ghost f': Forest)
    requires Stored(a, n, f.parent, f.weight, w0, f.leaf) && TreeOk(f, w0) && SortedWeights(w0) && Sum(w0) <= 65535
    requires root == |f.parent| && leaf == f.leaf && next == |f.weight| < n - 1
    modifies a
    ensures Stored(a, n, f'.parent, f'.weight, w0, f'.leaf) && TreeOk(f', w0)
    ensures root' == |f'.parent| && leaf' == f'.leaf && next + 1 == |f'.weight|
    ensures forall i :: 0 <= i < a.Length ==> a[i].sym == old(a[i].sym)
  {
    hide TreeOk, Taken, Sum, SortedWeights;
    TreeFacts(f, w0);
    ghost var p, w := f.parent, f.weight;
    var q1, r1, l1 := TakeSmallest(a, n, root, leaf, next, p, w, w0);
    ghost var p1 := p + seq(r1 - root, _ => next);
    PickFacts(w, w0, root, leaf, r1, l1, q1);
    SumTake(w, w0, root, leaf, r1, l1, q1);
    a[next] := SymFreq(q1, a[next].sym);
    ghost var q2;
    root', leaf', q2 := AddSecond(a, n, r1, l1, next, q1, p1, w, w0);
    MergeTree(f, w0, r1, l1, q1, root', leaf', q2);
    PickFacts(w, w0, r1, l1, root', leaf', q2);
    f' := Merge(f, root', leaf', q1, q2);
    assert p1 + seq(root' - r1, _ => next) == f'.parent;
  }

  /** The first pass: all leaves merged into one tree. */
  method BuildTree(a: array<SymFreq>, n: nat, ghost w0: seq<nat>) returns (ghost f: Forest)
    requires 2 <= n <= a.Length && |w0| == n && SortedWeights(w0) && Sum(w0) <= 65535
    requires forall i :: 0 <= i < n ==> a[i].key == w0[i]
    modifies a
    ensures TreeOk(f, w0) && |f.weight| == n - 1 && |f.parent| == n - 2
    ensures forall i :: 0 <= i < n - 2 ==> a[i].key == f.parent[i]
    ensures forall i :: 0 <= i < a.Length ==> a[i].sym == old(a[i].sym)
  {
    hide Sum, TreeOk;
    FirstTree(w0);
    FirstTwo(w0);
    f := Forest([], [w0[0] + w0[1]], [w0[1]], 2, [0, 0], [0]);
    a[0] := SymFreq((a[0].key + a[1].key) % 65536, a[0].sym);
    var root, leaf, next := 0, 2, 1;
    while next < n - 1
      invariant next <= n - 1 && next == |f.weight| && root == |f.parent| && leaf == f.leaf
      invariant Stored(a, n, f.parent, f.weight, w0, f.leaf) && TreeOk(f, w0)
      invariant forall i :: 0 <= i < a.Length ==> a[i].sym == old(a[i].sym)
    {
      root, leaf, f := MergeStep(a, n, root, leaf, next, f, w0);
      next := next + 1;
    }
    TreeFacts(f, w0);
  }

  // ---------------------------------------------------------------- depths

  /** The second pass: parents become depths. */
  method InternalDepths(a: array<SymFreq>, n: nat, ghost p: seq<nat>)
    requires 2 <= n <= a.Length && |p| == n - 2 && Parents(p, n - 1)
    requires forall i :: 0 <= i < n - 2 ==> a[i].key == p[i]
    modifies a
    ensures forall i :: 0 <= i < n - 1 ==> a[i].key == Depth(p, i)
    ensures forall i :: 0 <= i < a.Length ==> a[i].sym == old(a[i].sym)
  {
    a[n - 2] := SymFreq(0, a[n - 2].sym);
    var next: int := n - 3;
    while next >= 0
      invariant -1 <= next <= n - 3
      invariant forall i :: 0 <= i <= next ==> a[i].key == p[i]
      invariant forall i :: next < i < n - 1 ==> a[i].key == Depth(p, i)
      invariant forall i :: 0 <= i < a.Length ==> a[i].sym == old(a[i].sym)
    {
      a[next] := SymFreq(a[a[next].key].key + 1, a[next].sym);
      next := next - 1;
    }
  }

  // ---------------------------------------------------------------- leaves

  /** The code space taken by the lengths, in units of 2^-32. */
  function LengthSpace(s: seq<SymFreq>): nat {
    if s == [] then 0
    else (if s[0].key <= 32 then Pow2(32 - s[0].key) else 0) + LengthSpace(s[1..])
  }

  lemma {:induction false} ParentSpread(p: seq<nat>, i: nat, j: nat)
    requires Parents(p, |p| + 1) && i <= j < |p|
    ensures 2 * (p[j] - p[i]) >= j - i - 1
    decreases j - i
  {
    if i + 2 <= j {
      assert p[i] < p[i + 2];
      if i + 2 <= j { ParentSpread(p, i + 2, j); }
    }
  }

  /** The nodes of one depth are consecutive, and there are at most twice as many as one level up. */
  lemma LevelBound(p: seq<nat>, lo: int, mid: int, hi: int, d: nat)
    requires Parents(p, |p| + 1) && -1 <= lo <= mid < hi <= |p| && d > 0
    requires forall i :: lo < i <= mid ==> Depth(p, i) == d
    requires forall i :: mid < i <= hi ==> Depth(p, i) == d - 1
    requires forall i :: hi < i <= |p| ==> Depth(p, i) < d - 1
    ensures mid - lo <= 2 * (hi - mid)
  {
    if lo < mid {
      forall i | lo < i <= mid ensures mid < p[i] <= hi {
        assert Depth(p, i) == 1 + Depth(p, p[i]);
      }
      ParentSpread(p, lo + 1, mid);
    }
  }

  /** Before depth `dpth`: `root` is the last internal node not yet passed, `next` the
      last leaf without a length; `avbl` nodes are to be found at this depth. */
  ghost predicate AtLevel(p: seq<nat>, root: int, next: int, avbl: int, dpth: nat, hi: int) {
    Parents(p, |p| + 1) && -1 <= root <= hi <= |p| && avbl == next - root >= 0 && next <= |p| + 1 &&
    (forall i :: 0 <= i <= root ==> Depth(p, i) >= dpth) &&
    if dpth == 0 then root == |p| && avbl == 1
    else
      avbl == 2 * (hi - root) && (root >= 0 ==> root < hi) &&
      (forall i :: root < i <= hi ==> Depth(p, i) == dpth - 1) &&
      (forall i :: hi < i <= |p| ==> Depth(p, i) < dpth - 1)
  }

  /** The lengths given out so far, from `next + 1` on, with the space they leave. */
  ghost predicate Assigned(s: seq<SymFreq>, next: int, avbl: int, dpth: nat) {
    -1 <= next < |s| && 0 <= avbl && dpth <= 32 &&
    avbl * Pow2(32 - dpth) + LengthSpace(s[next + 1..]) == Pow2(32) &&
    (forall i :: next < i < |s| ==> 1 <= s[i].key <= dpth) &&
    (forall i, j :: next < i < j < |s| ==> s[i].key >= s[j].key)
  }

  /** Pass over the internal nodes of depth `dpth`. */
  method SkipLevel(a: array<SymFreq>, n: nat, root: int, dpth: nat, ghost p: seq<nat>) returns (used: nat, root': int)
    requires |p| + 2 == n <= a.Length && Parents(p, n - 1) && -1 <= root <= n - 2
    requires forall i :: 0 <= i <= root ==> a[i].key == Depth(p, i)
    ensures -1 <= root' <= root && used == root - root'
    ensures forall i :: root' < i <= root ==> Depth(p, i) == dpth
    ensures root' >= 0 ==> Depth(p, root') != dpth
  {
    used, root' := 0, root;
    while root' >= 0 && a[root'].key == dpth
      invariant -1 <= root' <= root && used == root - root'
      invariant forall i :: root' < i <= root ==> Depth(p, i) == dpth
    {
      used := used + 1;
      root' := root' - 1;
    }
  }

  lemma AssignOne(s: seq<SymFreq>, t: seq<SymFreq>, next: int, avbl: int, dpth: nat)
    requires Assigned(s, next, avbl, dpth) && 0 <= next && 0 < avbl && 0 < dpth <= 32
    requires |t| == |s| && t[next].key == dpth && t[next + 1..] == s[next + 1..]
    ensures Assigned(t, next - 1, avbl - 1, dpth)
  {
    MulDistrib(avbl - 1, 1, Pow2(32 - dpth));
    assert t[next..][1..] == s[next + 1..];
    forall i | next < i < |s| ensures t[i] == s[i] {
      assert t[next + 1..][i - next - 1] == s[next + 1..][i - next - 1];
    }
  }

  lemma AssignedBound(s: seq<SymFreq>, next: int, avbl: int, dpth: nat)
    requires Assigned(s, next, avbl, dpth)
    ensures -1 <= next < |s| && dpth <= 32 && 0 <= avbl
  {
  }

  /** The array after a level: leaves `next' + 1` to `next` have length `dpth`. */
  ghost predicate LevelAssigned(s: seq<SymFreq>, t: seq<SymFreq>, next: int, next': int, dpth: nat) {
    |t| == |s| && -1 <= next' <= next < |s| && (forall i :: 0 <= i <= next' ==> t[i] == s[i]) &&
    (forall i :: 0 <= i && next' < i <= next ==> t[i].key == dpth) && (forall i :: 0 <= i && next < i < |s| ==> t[i] == s[i])
  }

  /** Give length `dpth` to the leaves of this depth. */
  method AssignLevel(a: array<SymFreq>, n: nat, next: int, avbl: int, used: nat, dpth: nat) returns (next': int)
    requires n <= a.Length && Assigned(a[..n], next, avbl, dpth) && used <= avbl && next - (avbl - used) >= -1
    requires used < avbl ==> dpth > 0
    modifies a
    ensures next' == next - (avbl - used) && Assigned(a[..n], next', used, dpth)
    ensures LevelAssigned(old(a[..n]), a[..n], next, next', dpth)
    ensures forall i :: 0 <= i < a.Length ==> a[i].sym == old(a[i].sym)
  {
    hide Assigned;
    next' := next;
    var av := avbl;
    AssignedBound(a[..n], next, avbl, dpth);
    while av > used
      invariant used <= av <= avbl && next' == next - (avbl - av)
      invariant Assigned(a[..n], next', av, dpth)
      invariant forall i :: 0 <= i <= next' ==> a[i] == old(a[i])
      invariant forall i :: 0 <= i && next' < i <= next ==> a[i].key == dpth
      invariant forall i :: 0 <= i && next < i < a.Length ==> a[i] == old(a[i])
      invariant forall i :: 0 <= i < a.Length ==> a[i].sym == old(a[i].sym)
    {
      ghost var s := a[..n];
      a[next'] := SymFreq(dpth, a[next'].sym);
      assert a[..n][next' + 1..] == s[next' + 1..];
      AssignOne(s, a[..n], next', av, dpth);
      next' := next' - 1;
      av := av - 1;
    }
  }

  lemma LevelUsed(p: seq<nat>, root: int, next: int, avbl: int, dpth: nat, hi: int, root': int)
    requires AtLevel(p, root, next, avbl, dpth, hi) && avbl > 0 && 0 <= root' <= root
    requires Depth(p, root') != dpth
    ensures root' < root
  {
    if dpth > 0 {
      assert Depth(p, root) == 1 + Depth(p, p[root]);
    }
  }

  /** One round of the third pass moves down a level. */
  lemma LevelStep(p: seq<nat>, root: int, next: int, avbl: int, dpth: nat, hi: int, root': int)
    requires AtLevel(p, root, next, avbl, dpth, hi) && avbl > 0 && -1 <= root' <= root
    requires forall i :: root' < i <= root ==> Depth(p, i) == dpth
    requires root' >= 0 ==> Depth(p, root') != dpth
    ensures root - root' <= avbl && (dpth == 0 ==> root - root' == avbl)
    ensures AtLevel(p, root', next - (avbl - (root - root')), 2 * (root - root'), dpth + 1, root)
  {
    if root' >= 0 {
      forall i | 0 <= i <= root' ensures Depth(p, i) >= dpth + 1 {
        DepthMono(p, i, root');
      }
      LevelUsed(p, root, next, avbl, dpth, hi, root');
    }
    if dpth == 0 {
      if root' < root - 1 { DepthMono(p, root - 1, root); }
    } else {
      LevelBound(p, root', root, hi, dpth);
    }
  }

  /** Code lengths that fill the code space and never increase with the weight. */
  ghost predicate IsCode(s: seq<SymFreq>) {
    LengthSpace(s) == Pow2(32) && (forall i :: 0 <= i < |s| ==> 1 <= s[i].key <= 32) &&
    (forall i, j :: 0 <= i < j < |s| ==> s[i].key >= s[j].key)
  }

  lemma LevelStart(s: seq<SymFreq>, p: seq<nat>)
    requires |s| == |p| + 2 && Parents(p, |p| + 1)
    ensures AtLevel(p, |p|, |p| + 1, 1, 0, |p|) && Assigned(s, |p| + 1, 1, 0)
  {
    assert s[|s|..] == [];
  }

  lemma LevelDepth(p: seq<nat>, root: int, next: int, avbl: int, dpth: nat, hi: int)
    requires AtLevel(p, root, next, avbl, dpth, hi) && avbl > 0
    requires forall i :: 0 <= i <= |p| ==> Depth(p, i) <= 29
    ensures dpth <= 30
  {
    if dpth > 0 {
      assert Depth(p, hi) == dpth - 1;
    }
  }

  lemma LevelRoom(p: seq<nat>, root: int, next: int, avbl: int, dpth: nat, hi: int)
    requires AtLevel(p, root, next, avbl, dpth, hi)
    ensures -1 <= root <= next
  {
  }

  lemma AssignedDown(s: seq<SymFreq>, next: int, used: nat, dpth: nat)
    requires Assigned(s, next, used, dpth) && dpth < 32
    ensures Assigned(s, next, 2 * used, dpth + 1)
  {
    MulAssoc(used, 2, Pow2(32 - dpth - 1));
  }

  lemma LevelRoot(p: seq<nat>, root: int, next: int, dpth: nat, hi: int)
    requires AtLevel(p, root, next, 0, dpth, hi)
    ensures root == -1 && next == -1
  {
  }

  lemma LevelsDone(s: seq<SymFreq>, p: seq<nat>, root: int, next: int, dpth: nat, hi: int)
    requires AtLevel(p, root, next, 0, dpth, hi) && Assigned(s, next, 0, dpth)
    ensures IsCode(s)
  {
    hide Pow2, Depth, LengthSpace;
    LevelRoot(p, root, next, dpth, hi);
    assert s[0..] == s;
  }

  /** At each depth, the internal nodes passed are those whose parents have been passed. */
  lemma LevelCut(f: Forest, w0: seq<nat>, root: int, next: int, avbl: int, dpth: nat, hi: int)
    requires Complete(f, w0) && AtLevel(f.parent, root, next, avbl, dpth, hi) && dpth > 0 && hi >= 0
    ensures hi < |f.cut| && f.cut[hi] == root + 1 && next + 1 == 2 * (hi + 1) - f.cut[hi] && CutAt(f, hi)
  {
    hide Complete, SumsAt;
    CompleteFacts(f, w0);
    assert CutAt(f, hi);
    var p := f.parent;
    if root >= 0 {
      assert Depth(p, root) == 1 + Depth(p, p[root]);
    }
    if root + 1 < |p| {
      assert Depth(p, root + 1) == 1 + Depth(p, p[root + 1]);
    }
  }

  lemma LeafAbove(f: Forest, k: nat, j: nat)
    requires CutAt(f, k) && j < |f.up|
    ensures f.up[j] <= k <==> j < 2 * (k + 1) - f.cut[k]
  {
  }

  /** The leaves that get their lengths at a level are those whose parents are one level up. */
  lemma LevelLeaves(f: Forest, w0: seq<nat>, root: int, next: int, avbl: int, dpth: nat, hi: int, root': int, next': int, avbl': int)
    requires Complete(f, w0) && Parents(f.parent, |f.parent| + 1) && Within(f.up, |f.parent|) && |f.up| == |w0|
    requires AtLevel(f.parent, root, next, avbl, dpth, hi) && avbl > 0 && -1 <= root' <= root && next < |w0|
    requires AtLevel(f.parent, root', next', avbl', dpth + 1, root)
    ensures forall j :: next' < j <= next ==> 0 <= j && LeafDepth(f.parent, f.up, j) == dpth
  {
    hide Complete, Parents, CutAt, Depth;
    var p := f.parent;
    if dpth > 0 {
      LevelCut(f, w0, root, next, avbl, dpth, hi);
      if root >= 0 { LevelCut(f, w0, root', next', avbl', dpth + 1, root); }
      forall j | next' < j <= next ensures 0 <= j && LeafDepth(p, f.up, j) == dpth {
        LeafAbove(f, hi, j);
        if root >= 0 { LeafAbove(f, root, j); }
      }
    }
  }

  /** Internal nodes up to `root` still show their depths. */
  ghost predicate InnerShown(s: seq<SymFreq>, p: seq<nat>, root: int) {
    Parents(p, |p| + 1) && root <= |p| && root < |s| && forall i :: 0 <= i <= root ==> s[i].key == Depth(p, i)
  }

  /** Leaves after `next` have their depths as lengths. */
  ghost predicate LeavesShown(s: seq<SymFreq>, f: Forest, next: int) {
    Parents(f.parent, |f.parent| + 1) && Within(f.up, |f.parent|) && |s| <= |f.up| &&
    forall j :: 0 <= j && next < j < |s| ==> s[j].key == LeafDepth(f.parent, f.up, j)
  }

  lemma ShownAfter(s: seq<SymFreq>, t: seq<SymFreq>, f: Forest, root: int, root': int, next: int, next': int, dpth: nat)
    requires InnerShown(s, f.parent, root) && LeavesShown(s, f, next) && LevelAssigned(s, t, next, next', dpth)
    requires root' <= root && root' <= next'
    requires forall j :: next' < j <= next ==> 0 <= j && LeafDepth(f.parent, f.up, j) == dpth
    ensures InnerShown(t, f.parent, root') && LeavesShown(t, f, next')
  {
    hide Parents, Depth, LeafDepth;
  }

  /** What holds between two rounds of the loop. */
  ghost predicate Between(s: seq<SymFreq>, f: Forest, w0: seq<nat>, root: int, next: int, avbl: int, dpth: nat, hi: int) {
    Complete(f, w0) && |s| == |w0| == |f.up| == |f.parent| + 2 && -1 <= root <= |f.parent| && -1 <= next < |s| && avbl >= 0 &&
    AtLevel(f.parent, root, next, avbl, dpth, hi) && Assigned(s, next, avbl, dpth) &&
    InnerShown(s, f.parent, root) && LeavesShown(s, f, next)
  }

  /** The next level, and which leaves are on this one. */
  lemma NextLevel(f: Forest, w0: seq<nat>, s: seq<SymFreq>, root: int, next: int, avbl: int, dpth: nat, hi: int, root': int)
    requires Between(s, f, w0, root, next, avbl, dpth, hi) && avbl > 0 && -1 <= root' <= root
    requires Parents(f.parent, |f.parent| + 1)
    requires forall i :: root' < i <= root ==> Depth(f.parent, i) == dpth
    requires root' >= 0 ==> Depth(f.parent, root') != dpth
    ensures root - root' <= avbl && (dpth == 0 ==> root - root' == avbl)
    ensures var next' := next - (avbl - (root - root'));
            AtLevel(f.parent, root', next', 2 * (root - root'), dpth + 1, root) && root' <= next' &&
            Within(f.up, |f.parent|) && forall j :: next' < j <= next ==> 0 <= j && LeafDepth(f.parent, f.up, j) == dpth
  {
    hide AtLevel, Assigned, Depth, Parents, Complete, LeafDepth, InnerShown, Within;
    var next' := next - (avbl - (root - root'));
    LevelStep(f.parent, root, next, avbl, dpth, hi, root');
    LevelRoom(f.parent, root', next', 2 * (root - root'), dpth + 1, root);
    LevelLeaves(f, w0, root, next, avbl, dpth, hi, root', next', 2 * (root - root'));
  }

  /** One round of the loop. */
  method OneLevel(a: array<SymFreq>, n: nat, ghost f: Forest, ghost w0: seq<nat>, avbl: int, root: int, next: int, dpth: nat, ghost hi: int)
    returns (avbl': int, root': int, next': int, dpth': nat, ghost hi': int)
    requires 2 <= n <= a.Length && Between(a[..n], f, w0, root, next, avbl, dpth, hi) && avbl > 0
    requires Parents(f.parent, |f.parent| + 1) && forall i :: 0 <= i <= n - 2 ==> i <= |f.parent| && Depth(f.parent, i) <= 29
    modifies a
    ensures Between(a[..n], f, w0, root', next', avbl', dpth', hi')
    ensures root' < root || (root' == root && avbl' < avbl)
    ensures forall i :: 0 <= i < a.Length ==> a[i].sym == old(a[i].sym)
  {
    hide AtLevel, Assigned, LengthSpace, Depth, Parents, IsCode, Complete, LeafDepth, LeavesShown, LevelAssigned, Within;
    ghost var p, s := f.parent, a[..n];
    LevelDepth(p, root, next, avbl, dpth, hi);
    var used;
    used, root' := SkipLevel(a, n, root, dpth, p);
    NextLevel(f, w0, s, root, next, avbl, dpth, hi, root');
    next' := AssignLevel(a, n, next, avbl, used, dpth);
    ShownAfter(s, a[..n], f, root, root', next, next', dpth);
    AssignedDown(a[..n], next', used, dpth);
    avbl' := 2 * used;
    dpth' := dpth + 1;
    hi' := root;
  }

  /** The third pass: the leaves get their lengths, the heaviest first, which are their depths
      in the tree. */
  method LeafLengths(a: array<SymFreq>, n: nat, ghost f: Forest, ghost w0: seq<nat>)
    requires 2 <= n <= a.Length && Complete(f, w0) && |w0| == n
    requires Parents(f.parent, |f.parent| + 1) && Within(f.up, |f.parent|) && |f.up| == n && |f.parent| == n - 2
    requires forall i :: 0 <= i <= n - 2 ==> a[i].key == Depth(f.parent, i) <= 29
    modifies a
    ensures IsCode(a[..n]) && LeavesShown(a[..n], f, -1)
    ensures forall i :: 0 <= i < a.Length ==> a[i].sym == old(a[i].sym)
  {
    hide AtLevel, Assigned, LengthSpace, Depth, Parents, IsCode, Complete, LeafDepth, Within;
    ghost var p := f.parent;
    var avbl, dpth := 1, 0;
    var root: int, next: int := n - 2, n - 1;
    ghost var hi := n - 2;
    LevelStart(a[..n], p);
    assert forall i :: 0 <= i <= n - 2 ==> Depth(p, i) <= 29;
    while avbl > 0
      invariant Between(a[..n], f, w0, root, next, avbl, dpth, hi)
      invariant forall i :: 0 <= i < a.Length ==> a[i].sym == old(a[i].sym)
      decreases root + 1, avbl
    {
      avbl, root, next, dpth, hi := OneLevel(a, n, f, w0, avbl, root, next, dpth, hi);
    }
    LevelRoot(p, root, next, dpth, hi);
    LevelsDone(a[..n], p, root, next, dpth, hi);
  }

  // ---------------------------------------------------------------- the whole

  function Keys(s: seq<SymFreq>): (k: seq<nat>)
    ensures |k| == |s|
  {
    seq(|s|, (i: nat) requires i < |s| => s[i].key)
  }

  function Items(w: seq<nat>, l: seq<nat>): (p: seq<Item>)
    requires |w| == |l|
    ensures |p| == |w|
  {
    seq(|w|, (i: nat) requires i < |w| => Item(w[i], l[i]))
  }

  /** Of all lengths that satisfy Kraft's inequality, these cost the weights least. */
  ghost predicate MinimumRedundant(w: seq<nat>, l: seq<nat>) {
    |w| == |l| && forall p: seq<Item>, m: nat :: WeightsOf(p) == multiset(w) && Fits(p, m) ==> Cost(Items(w, l)) <= Cost(p)
  }

  lemma {:induction false} CostSnoc(p: seq<Item>, x: Item)
    ensures Cost(p + [x]) == Cost(p) + x.weight * x.length
  {
    if p == [] {
      assert p + [x] == [x];
    } else {
      assert (p + [x])[1..] == p[1..] + [x];
      CostSnoc(p[1..], x);
    }
  }

  lemma CostNothing()
    ensures Cost([]) == 0
  {
  }

  lemma {:induction false} CostOfLeaves(f: Forest, w0: seq<nat>, l: seq<nat>, k: nat)
    requires Parents(f.parent, |f.parent| + 1) && Within(f.up, |f.parent|) && |f.up| == |w0| == |l| && k <= |w0|
    requires forall j :: 0 <= j < |l| ==> l[j] == LeafDepth(f.parent, f.up, j)
    ensures Cost(Items(w0, l)[..k]) == LeafCost(f.parent, f.up, w0, k)
  {
    hide Cost, Parents, LeafDepth;
    if k > 0 {
      CostOfLeaves(f, w0, l, k - 1);
      assert Items(w0, l)[..k] == Items(w0, l)[..k - 1] + [Item(w0[k - 1], l[k - 1])];
      CostSnoc(Items(w0, l)[..k - 1], Item(w0[k - 1], l[k - 1]));
    } else {
      assert Items(w0, l)[..0] == [];
      CostNothing();
    }
  }

  /** Lengths that are the depths of the leaves are of least cost. */
  lemma DepthsMinimum(f: Forest, w0: seq<nat>, l: seq<nat>)
    requires Complete(f, w0) && |l| == |w0| && Parents(f.parent, |f.parent| + 1) && Within(f.up, |f.parent|) && |f.up| == |w0|
    requires forall j :: 0 <= j < |l| ==> l[j] == LeafDepth(f.parent, f.up, j)
    ensures MinimumRedundant(w0, l)
  {
    hide Complete, Parents, LeafDepth, Cost, Fits, WeightsOf, Sum;
    TreeCost(f, w0);
    NoneCheaper(f, w0);
    CostOfLeaves(f, w0, l, |w0|);
    assert Items(w0, l)[..|w0|] == Items(w0, l);
  }

  lemma ShownMinimum(f: Forest, w0: seq<nat>, s: seq<SymFreq>)
    requires Complete(f, w0) && |s| == |w0| == |f.up| && LeavesShown(s, f, -1)
    ensures MinimumRedundant(w0, Keys(s))
  {
    hide Complete, Parents, LeafDepth, MinimumRedundant;
    DepthsMinimum(f, w0, Keys(s));
  }

  /** `tdefl_calculate_minimum_redundancy`. */
  method CalculateMinimumRedundancy(a: array<SymFreq>, n: nat) returns (ghost f: Forest)
    requires n <= a.Length && SortedWeights(Keys(a[..n])) && Sum(Keys(a[..n])) <= 65535
    modifies a
    ensures n >= 2 ==> IsCode(a[..n]) && MinimumRedundant(old(Keys(a[..n])), Keys(a[..n]))
    ensures n >= 2 ==> Complete(f, old(Keys(a[..n]))) && LeavesShown(a[..n], f, -1)
    ensures n == 1 ==> a[0].key == 1
    ensures forall i :: 0 <= i < a.Length ==> a[i].sym == old(a[i].sym)
  {
    f := Forest([], [], [], 0, [], []);
    if n == 0 {
      return;
    } else if n == 1 {
      a[0] := SymFreq(1, a[0].sym);
      return;
    }
    hide Sum, IsCode, Depth, TreeOk, MinimumRedundant, Parents, LeavesShown;
    ghost var w0 := Keys(a[..n]);
    f := BuildTree(a, n, w0);
    TreeDepths(f, w0);
    InternalDepths(a, n, f.parent);
    LeafLengths(a, n, f, w0);
    ShownMinimum(f, w0, a[..n]);
  }
}
