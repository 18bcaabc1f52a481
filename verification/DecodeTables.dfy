/** The decompressor's two-level Huffman tables: a look-up by ten bits, and for longer
    codes a tree packed into an array with negative indices. */
module DecodeTables {
  import opened Bits
  import opened Canonical
  import opened Blocks
  import opened RoundTrip
  import opened CodeSpace

  const LOOKUP_BITS := 10        // TINFL_FAST_LOOKUP_BITS
  const LOOKUP_SIZE := 1024      // TINFL_FAST_LOOKUP_SIZE
  const TREE_SIZE := 576         // TINFL_MAX_HUFF_SYMBOLS_0 * 2

  /** How inner node `k` is written in the tables. */
  function NodeRef(k: nat): int {
    -(2 * k + 1)
  }

  /** The entry of node `k` for the next bit `b`. */
  function SlotOf(k: nat, b: bool): (x: nat)
    ensures 2 * k <= x < 2 * k + 2
  {
    2 * k + if b then 1 else 0
  }

  /** Symbol `s`, one of the first `i`, has code `q`. */
  ghost predicate CodeIs(lens: seq<nat>, i: nat, q: seq<bool>, s: nat) {
    s < i <= |lens| && lens[s] > 0 && CodeBits(lens, s) == q
  }

  /** Symbol `s`, one of the first `i`, has a code of at most ten bits, which starts `r`. */
  ghost predicate ShortIs(lens: seq<nat>, i: nat, r: seq<bool>, s: nat): (b: bool)
    ensures b ==> s < |lens|
  {
    s < i <= |lens| && lens[s] <= LOOKUP_BITS && Matches(lens, s, r)
  }

  /** A negative entry refers to the node of its bits, and such a node is referred to. */
  ghost predicate RefOk(nodes: seq<seq<bool>>, q: seq<bool>, v: int) {
    (forall k :: 0 <= k < |nodes| && nodes[k] == q ==> v == NodeRef(k)) &&
    (v < 0 ==> exists k :: 0 <= k < |nodes| && nodes[k] == q && v == NodeRef(k))
  }

  ghost predicate LookSlot(lens: seq<nat>, i: nat, nodes: seq<seq<bool>>, r: seq<bool>, v: int) {
    RefOk(nodes, r, v) && (forall s: nat :: ShortIs(lens, i, r, s) ==> v == lens[s] * 512 + s) &&
    (v > 0 ==> ShortIs(lens, i, r, v % 512) && v / 512 == lens[v % 512])
  }

  ghost predicate TreeSlot(lens: seq<nat>, i: nat, nodes: seq<seq<bool>>, q: seq<bool>, v: int) {
    RefOk(nodes, q, v) && (forall s: nat :: CodeIs(lens, i, q, s) ==> v == s) && (v > 0 ==> CodeIs(lens, i, q, v))
  }

  ghost predicate AllLook(lens: seq<nat>, i: nat, lookUp: seq<int>, nodes: seq<seq<bool>>) {
    |lookUp| == LOOKUP_SIZE && forall r :: 0 <= r < LOOKUP_SIZE ==> LookSlot(lens, i, nodes, ToBits(r, LOOKUP_BITS), lookUp[r])
  }

  ghost predicate AllTree(lens: seq<nat>, i: nat, tree: seq<int>, nodes: seq<seq<bool>>) {
    |tree| == TREE_SIZE && 2 * |nodes| <= TREE_SIZE &&
    (forall k, b :: 0 <= k < |nodes| ==> TreeSlot(lens, i, nodes, nodes[k] + [b], tree[SlotOf(k, b)])) &&
    (forall x :: 2 * |nodes| <= x < TREE_SIZE ==> tree[x] == 0)
  }

  /** Every inner node on the way to an inserted code is there, and with a node its parent. */
  ghost predicate Paths(lens: seq<nat>, i: nat, nodes: seq<seq<bool>>) {
    i <= |lens| &&
    (forall s, d :: 0 <= s < i && LOOKUP_BITS <= d < lens[s] ==> CodeBits(lens, s)[..d] in nodes) &&
    (forall k :: 0 <= k < |nodes| && |nodes[k]| > LOOKUP_BITS ==> nodes[k][..|nodes[k]| - 1] in nodes)
  }

  /** The tables after the first `i` symbols have been inserted. */
  ghost predicate TableOk(lens: seq<nat>, i: nat, lookUp: seq<int>, tree: seq<int>, nodes: seq<seq<bool>>) {
    Distinct(nodes) && AllInner(lens, nodes) && AllLook(lens, i, lookUp, nodes) && AllTree(lens, i, tree, nodes) &&
    Paths(lens, i, nodes)
  }

  // ---------------------------------------------------------------- adding a node

  lemma RefKept(nodes: seq<seq<bool>>, q: seq<bool>, r: seq<bool>, v: int)
    requires RefOk(nodes, r, v) && r != q
    ensures RefOk(nodes + [q], r, v)
  {
    if v < 0 {
      var k :| 0 <= k < |nodes| && nodes[k] == r && v == NodeRef(k);
      assert (nodes + [q])[k] == r;
    }
  }

  lemma RefNew(nodes: seq<seq<bool>>, q: seq<bool>)
    requires RefOk(nodes, q, 0)
    ensures RefOk(nodes + [q], q, NodeRef(|nodes|)) && q !in nodes
  {
    var n := nodes + [q];
    assert n[|nodes|] == q;
  }

  /** No code is the start of another, so none ends at or before an inner node. */
  lemma NotInner(lens: seq<nat>, s: nat, q: seq<bool>)
    requires Acceptable(lens) && s < |lens| && Matches(lens, s, q)
    ensures !Inner(lens, q)
  {
    hide CodeBits, Kraft, UsedSyms;
    AcceptableKraft(lens);
    if Inner(lens, q) {
      var t: nat :| Starts(lens, q, t);
      assert CodeBits(lens, t)[..|q|][..lens[s]] == CodeBits(lens, t)[..lens[s]];
      PrefixFree(lens, s, t);
    }
  }

  lemma CodeMatches(lens: seq<nat>, i: nat, q: seq<bool>, s: nat)
    requires CodeIs(lens, i, q, s)
    ensures s < |lens| && Matches(lens, s, q) && |q| == lens[s]
  {
    hide CodeBits;
    assert q[..|q|] == q;
  }

  lemma LookKept(lens: seq<nat>, i: nat, nodes: seq<seq<bool>>, q: seq<bool>, r: seq<bool>, v: int)
    requires LookSlot(lens, i, nodes, r, v) && r != q
    ensures LookSlot(lens, i, nodes + [q], r, v)
  {
    hide ShortIs, RefOk;
    RefKept(nodes, q, r, v);
  }

  lemma ShortPositive(lens: seq<nat>, i: nat, r: seq<bool>, s: nat)
    requires ShortIs(lens, i, r, s)
    ensures lens[s] * 512 + s > 0
  {
  }

  lemma LookNew(lens: seq<nat>, i: nat, nodes: seq<seq<bool>>, q: seq<bool>)
    requires LookSlot(lens, i, nodes, q, 0)
    ensures LookSlot(lens, i, nodes + [q], q, NodeRef(|nodes|)) && q !in nodes
  {
    hide RefOk, ShortIs;
    RefNew(nodes, q);
    forall s: nat ensures !ShortIs(lens, i, q, s) {
      if ShortIs(lens, i, q, s) { ShortPositive(lens, i, q, s); }
    }
  }

  lemma TreeKept(lens: seq<nat>, i: nat, nodes: seq<seq<bool>>, q: seq<bool>, r: seq<bool>, v: int)
    requires TreeSlot(lens, i, nodes, r, v) && r != q
    ensures TreeSlot(lens, i, nodes + [q], r, v)
  {
    hide CodeIs, RefOk;
    RefKept(nodes, q, r, v);
  }

  lemma TreeNew(lens: seq<nat>, i: nat, nodes: seq<seq<bool>>, q: seq<bool>)
    requires Acceptable(lens) && Inner(lens, q) && TreeSlot(lens, i, nodes, q, 0)
    ensures TreeSlot(lens, i, nodes + [q], q, NodeRef(|nodes|)) && q !in nodes
  {
    hide RefOk, CodeIs, Inner, Acceptable;
    RefNew(nodes, q);
    forall s: nat ensures !CodeIs(lens, i, q, s) {
      if CodeIs(lens, i, q, s) {
        CodeMatches(lens, i, q, s);
        NotInner(lens, s, q);
      }
    }
  }

  lemma PathAt(lens: seq<nat>, i: nat, nodes: seq<seq<bool>>, s: nat, d: nat)
    requires Paths(lens, i, nodes) && s < i && LOOKUP_BITS <= d < lens[s]
    ensures CodeBits(lens, s)[..d] in nodes
  {
  }

  lemma ParentAt(lens: seq<nat>, i: nat, nodes: seq<seq<bool>>, k: nat)
    requires Paths(lens, i, nodes) && k < |nodes| && |nodes[k]| > LOOKUP_BITS
    ensures nodes[k][..|nodes[k]| - 1] in nodes
  {
  }

  /** The two entries of a new node are still empty. */
  lemma TreeFresh(lens: seq<nat>, i: nat, nodes: seq<seq<bool>>, q: seq<bool>, b: bool)
    requires Paths(lens, i, nodes) && q !in nodes && |q| >= LOOKUP_BITS
    ensures TreeSlot(lens, i, nodes + [q], q + [b], 0)
  {
    hide CodeBits, Paths;
    var p := q + [b];
    assert p[..|q|] == q;
    forall s: nat ensures !CodeIs(lens, i, p, s) {
      if CodeIs(lens, i, p, s) { PathAt(lens, i, nodes, s, |q|); }
    }
    forall k | 0 <= k < |nodes| ensures nodes[k] != p {
      if nodes[k] == p { ParentAt(lens, i, nodes, k); }
    }
  }

  lemma NodeAdded(lens: seq<nat>, i: nat, nodes: seq<seq<bool>>, q: seq<bool>)
    requires Distinct(nodes) && AllInner(lens, nodes) && Paths(lens, i, nodes) && q !in nodes && Inner(lens, q)
    requires |q| > LOOKUP_BITS ==> q[..|q| - 1] in nodes
    ensures Distinct(nodes + [q]) && AllInner(lens, nodes + [q]) && Paths(lens, i, nodes + [q])
  {
    hide Inner, CodeBits;
    var n := nodes + [q];
    forall s, d | 0 <= s < i && LOOKUP_BITS <= d < lens[s] ensures CodeBits(lens, s)[..d] in n {
      assert CodeBits(lens, s)[..d] in nodes;
    }
    forall k | 0 <= k < |n| && |n[k]| > LOOKUP_BITS ensures n[k][..|n[k]| - 1] in n {
      if k < |nodes| { assert nodes[k][..|nodes[k]| - 1] in nodes; }
    }
  }

  lemma ToBitsInjective(a: nat, b: nat, n: nat)
    requires a < Pow2(n) && b < Pow2(n) && ToBits(a, n) == ToBits(b, n)
    ensures a == b
  {
    FromToBits(a, n);
    FromToBits(b, n);
  }

  lemma LookAdded(lens: seq<nat>, i: nat, lookUp: seq<int>, nodes: seq<seq<bool>>, q: seq<bool>)
    requires AllLook(lens, i, lookUp, nodes) && |q| > LOOKUP_BITS
    ensures AllLook(lens, i, lookUp, nodes + [q])
  {
    hide LookSlot, ToBits;
    forall r | 0 <= r < LOOKUP_SIZE ensures LookSlot(lens, i, nodes + [q], ToBits(r, LOOKUP_BITS), lookUp[r]) {
      LookKept(lens, i, nodes, q, ToBits(r, LOOKUP_BITS), lookUp[r]);
    }
  }

  lemma LookRoot(lens: seq<nat>, i: nat, lookUp: seq<int>, nodes: seq<seq<bool>>, r: nat)
    requires AllLook(lens, i, lookUp, nodes) && r < LOOKUP_SIZE && lookUp[r] == 0
    ensures ToBits(r, LOOKUP_BITS) !in nodes
    ensures AllLook(lens, i, lookUp[r := NodeRef(|nodes|)], nodes + [ToBits(r, LOOKUP_BITS)])
  {
    hide LookSlot, ToBits, NodeRef;
    var q, next := ToBits(r, LOOKUP_BITS), lookUp[r := NodeRef(|nodes|)];
    Pow2Values();
    LookNew(lens, i, nodes, q);
    forall x | 0 <= x < LOOKUP_SIZE ensures LookSlot(lens, i, nodes + [q], ToBits(x, LOOKUP_BITS), next[x]) {
      if x != r {
        if ToBits(x, LOOKUP_BITS) == q { ToBitsInjective(x, r, LOOKUP_BITS); }
        LookKept(lens, i, nodes, q, ToBits(x, LOOKUP_BITS), lookUp[x]);
      }
    }
  }

  lemma SlotInjective(k: nat, b: bool, l: nat, c: bool)
    ensures SlotOf(k, b) == SlotOf(l, c) <==> k == l && b == c
  {
  }

  /** The entries of the nodes there were, seen with the new node. */
  lemma TreeAdded(lens: seq<nat>, i: nat, tree: seq<int>, next: seq<int>, nodes: seq<seq<bool>>, q: seq<bool>)
    requires AllTree(lens, i, tree, nodes) && Paths(lens, i, nodes) && q !in nodes && |q| >= LOOKUP_BITS
    requires 2 * (|nodes| + 1) <= TREE_SIZE == |next|
    requires forall k, b :: 0 <= k < |nodes| ==>
      if nodes[k] + [b] == q then TreeSlot(lens, i, nodes + [q], q, next[SlotOf(k, b)]) else next[SlotOf(k, b)] == tree[SlotOf(k, b)]
    requires forall x :: 2 * |nodes| <= x < TREE_SIZE ==> next[x] == 0
    ensures AllTree(lens, i, next, nodes + [q])
  {
    hide TreeSlot, Paths, SlotOf;
    var n := nodes + [q];
    forall k, b | 0 <= k < |n| ensures TreeSlot(lens, i, n, n[k] + [b], next[SlotOf(k, b)]) {
      if k == |nodes| {
        TreeFresh(lens, i, nodes, q, b);
      } else if nodes[k] + [b] != q {
        TreeKept(lens, i, nodes, q, nodes[k] + [b], tree[SlotOf(k, b)]);
      }
    }
  }

  lemma NodeDepth(lens: seq<nat>, nodes: seq<seq<bool>>, k: nat)
    requires AllInner(lens, nodes) && k < |nodes|
    ensures LOOKUP_BITS <= |nodes[k]| <= 14
  {
  }

  /** A new node for the first ten bits of a code. */
  lemma AddRoot(lens: seq<nat>, i: nat, lookUp: seq<int>, tree: seq<int>, nodes: seq<seq<bool>>, r: nat)
    requires Acceptable(lens) && |lens| <= 288 && TableOk(lens, i, lookUp, tree, nodes)
    requires r < LOOKUP_SIZE && Inner(lens, ToBits(r, LOOKUP_BITS)) && |lookUp| == LOOKUP_SIZE && lookUp[r] == 0
    ensures TableOk(lens, i, lookUp[r := NodeRef(|nodes|)], tree, nodes + [ToBits(r, LOOKUP_BITS)])
  {
    hide AllLook, Paths, Inner, Acceptable, ToBits, NodeRef, SlotOf, TreeSlot, Distinct, AllInner;
    var q := ToBits(r, LOOKUP_BITS);
    LookRoot(lens, i, lookUp, nodes, r);
    NodeAdded(lens, i, nodes, q);
    NodesBound(lens, nodes + [q]);
    forall k, b | 0 <= k < |nodes| ensures nodes[k] + [b] != q {
      NodeDepth(lens, nodes, k);
    }
    TreeAdded(lens, i, tree, tree, nodes, q);
  }

  lemma SnocInjective(p: seq<bool>, b: bool, q: seq<bool>, c: bool)
    ensures p + [b] == q + [c] <==> p == q && b == c
  {
    if p + [b] == q + [c] {
      assert (p + [b])[..|p|] == p && (q + [c])[..|q|] == q;
      assert (p + [b])[|p|] == b && (q + [c])[|q|] == c;
    }
  }

  /** A new node below node `k`. */
  lemma AddChild(lens: seq<nat>, i: nat, lookUp: seq<int>, tree: seq<int>, nodes: seq<seq<bool>>, k: nat, b: bool)
    requires Acceptable(lens) && |lens| <= 288 && TableOk(lens, i, lookUp, tree, nodes)
    requires k < |nodes| && Inner(lens, nodes[k] + [b]) && |tree| == TREE_SIZE && SlotOf(k, b) < TREE_SIZE && tree[SlotOf(k, b)] == 0
    ensures TableOk(lens, i, lookUp, tree[SlotOf(k, b) := NodeRef(|nodes|)], nodes + [nodes[k] + [b]])
  {
    hide AllLook, Paths, Inner, Acceptable, NodeRef, SlotOf, TreeSlot, AllInner;
    var q, next := nodes[k] + [b], tree[SlotOf(k, b) := NodeRef(|nodes|)];
    NodeDepth(lens, nodes, k);
    TreeNew(lens, i, nodes, q);
    LookAdded(lens, i, lookUp, nodes, q);
    assert q[..|q| - 1] == nodes[k];
    NodeAdded(lens, i, nodes, q);
    NodesBound(lens, nodes + [q]);
    forall l, c | 0 <= l < |nodes|
      ensures if nodes[l] + [c] == q then TreeSlot(lens, i, nodes + [q], q, next[SlotOf(l, c)])
              else next[SlotOf(l, c)] == tree[SlotOf(l, c)]
    {
      SlotInjective(k, b, l, c);
      SnocInjective(nodes[l], c, nodes[k], b);
    }
    TreeAdded(lens, i, tree, next, nodes, q);
  }

  // ---------------------------------------------------------------- inserting a symbol

  lemma NoNode(lens: seq<nat>, nodes: seq<seq<bool>>, s: nat, q: seq<bool>, v: nat)
    requires Acceptable(lens) && AllInner(lens, nodes) && s < |lens| && Matches(lens, s, q)
    ensures RefOk(nodes, q, v)
  {
    hide Acceptable, Inner, Matches;
    NotInner(lens, s, q);
  }

  lemma ShortIsStep(lens: seq<nat>, i: nat, r: seq<bool>, s: nat)
    requires i < |lens|
    ensures s != i ==> (ShortIs(lens, i + 1, r, s) <==> ShortIs(lens, i, r, s))
    ensures s == i ==> !ShortIs(lens, i, r, s)
  {
    hide Matches;
  }

  lemma LookStep(lens: seq<nat>, i: nat, nodes: seq<seq<bool>>, r: seq<bool>, v: int)
    requires LookSlot(lens, i, nodes, r, v) && i < |lens| && !ShortIs(lens, i + 1, r, i)
    ensures LookSlot(lens, i + 1, nodes, r, v)
  {
    hide RefOk, ShortIs;
    var j := i + 1;
    forall s: nat | ShortIs(lens, j, r, s) ensures v == lens[s] * 512 + s {
      ShortIsStep(lens, i, r, s);
    }
    if v > 0 { ShortIsStep(lens, i, r, v % 512); }
  }

  lemma AcceptableValid(lens: seq<nat>)
    requires Acceptable(lens)
    ensures ValidLens(lens)
  {
  }

  lemma LookInsert(lens: seq<nat>, i: nat, nodes: seq<seq<bool>>, r: seq<bool>)
    requires Acceptable(lens) && AllInner(lens, nodes) && i < |lens| <= 288 && ShortIs(lens, i + 1, r, i)
    ensures LookSlot(lens, i + 1, nodes, r, lens[i] * 512 + i)
  {
    hide RefOk, Matches, Acceptable, AllInner;
    NoNode(lens, nodes, i, r, lens[i] * 512 + i);
    var j := i + 1;
    forall s: nat | ShortIs(lens, j, r, s) ensures s == i {
      AcceptableKraft(lens);
      AcceptableValid(lens);
      MatchUnique(lens, s, i, r);
    }
  }

  lemma CodeIsStep(lens: seq<nat>, i: nat, q: seq<bool>, s: nat)
    requires i < |lens|
    ensures s != i ==> (CodeIs(lens, i + 1, q, s) <==> CodeIs(lens, i, q, s))
    ensures s == i ==> !CodeIs(lens, i, q, s)
  {
    hide CodeBits;
  }

  lemma TreeStep(lens: seq<nat>, i: nat, nodes: seq<seq<bool>>, q: seq<bool>, v: int)
    requires TreeSlot(lens, i, nodes, q, v) && i < |lens| && !CodeIs(lens, i + 1, q, i)
    ensures TreeSlot(lens, i + 1, nodes, q, v)
  {
    hide RefOk, CodeIs;
    var j := i + 1;
    forall s: nat | CodeIs(lens, j, q, s) ensures v == s {
      CodeIsStep(lens, i, q, s);
    }
    if v > 0 { CodeIsStep(lens, i, q, v); }
  }

  lemma TreeInsert(lens: seq<nat>, i: nat, nodes: seq<seq<bool>>, q: seq<bool>)
    requires Acceptable(lens) && AllInner(lens, nodes) && i < |lens| && CodeIs(lens, i + 1, q, i)
    ensures TreeSlot(lens, i + 1, nodes, q, i)
  {
    hide RefOk, CodeIs, Acceptable, AllInner;
    CodeMatches(lens, i + 1, q, i);
    NoNode(lens, nodes, i, q, i);
    var j := i + 1;
    forall s: nat | CodeIs(lens, j, q, s) ensures s == i {
      CodeMatches(lens, i + 1, q, s);
      AcceptableKraft(lens);
      AcceptableValid(lens);
      MatchUnique(lens, s, i, q);
    }
  }

  /** The entries after symbol `i`, whose code is short, has been put wherever it starts the index. */
  lemma InsertShort(lens: seq<nat>, i: nat, lookUp: seq<int>, next: seq<int>, tree: seq<int>, nodes: seq<seq<bool>>)
    requires Acceptable(lens) && TableOk(lens, i, lookUp, tree, nodes) && i < |lens| <= 288 && lens[i] <= LOOKUP_BITS
    requires |next| == LOOKUP_SIZE == |lookUp|
    requires forall r :: 0 <= r < LOOKUP_SIZE ==>
      next[r] == if ShortIs(lens, i + 1, ToBits(r, LOOKUP_BITS), i) then lens[i] * 512 + i else lookUp[r]
    ensures TableOk(lens, i + 1, next, tree, nodes)
  {
    hide ShortIs, Acceptable, ToBits, LookSlot, TreeSlot, SlotOf, Inner, CodeBits;
    forall r | 0 <= r < LOOKUP_SIZE ensures LookSlot(lens, i + 1, nodes, ToBits(r, LOOKUP_BITS), next[r]) {
      var b := ToBits(r, LOOKUP_BITS);
      if ShortIs(lens, i + 1, b, i) {
        LookInsert(lens, i, nodes, b);
      } else {
        LookStep(lens, i, nodes, b, lookUp[r]);
      }
    }
    forall k, b | 0 <= k < |nodes| ensures TreeSlot(lens, i + 1, nodes, nodes[k] + [b], tree[SlotOf(k, b)]) {
      NodeDepth(lens, nodes, k);
      TreeStep(lens, i, nodes, nodes[k] + [b], tree[SlotOf(k, b)]);
    }
  }

  lemma NotShort(lens: seq<nat>, i: nat, r: seq<bool>)
    requires i < |lens| && (lens[i] > LOOKUP_BITS || lens[i] == 0)
    ensures !ShortIs(lens, i + 1, r, i)
  {
  }

  lemma PathsLong(lens: seq<nat>, i: nat, nodes: seq<seq<bool>>)
    requires Paths(lens, i, nodes) && i < |lens|
    requires forall d :: LOOKUP_BITS <= d < lens[i] ==> CodeBits(lens, i)[..d] in nodes
    ensures Paths(lens, i + 1, nodes)
  {
    hide CodeBits;
  }

  /** The entries after symbol `i`, whose code is long, has been put below node `k`. */
  lemma InsertLong(lens: seq<nat>, i: nat, lookUp: seq<int>, tree: seq<int>, nodes: seq<seq<bool>>, k: nat, b: bool)
    requires Acceptable(lens) && TableOk(lens, i, lookUp, tree, nodes) && i < |lens| && lens[i] > LOOKUP_BITS
    requires k < |nodes| && nodes[k] + [b] == CodeBits(lens, i)
    requires forall d :: LOOKUP_BITS <= d < lens[i] ==> CodeBits(lens, i)[..d] in nodes
    requires |tree| == TREE_SIZE && SlotOf(k, b) < TREE_SIZE
    ensures TableOk(lens, i + 1, lookUp, tree[SlotOf(k, b) := i], nodes)
  {
    hide ShortIs, Acceptable, ToBits, LookSlot, TreeSlot, SlotOf, Inner, CodeBits;
    var next := tree[SlotOf(k, b) := i];
    forall r | 0 <= r < LOOKUP_SIZE ensures LookSlot(lens, i + 1, nodes, ToBits(r, LOOKUP_BITS), lookUp[r]) {
      NotShort(lens, i, ToBits(r, LOOKUP_BITS));
      LookStep(lens, i, nodes, ToBits(r, LOOKUP_BITS), lookUp[r]);
    }
    forall l, c | 0 <= l < |nodes| ensures TreeSlot(lens, i + 1, nodes, nodes[l] + [c], next[SlotOf(l, c)]) {
      SlotInjective(k, b, l, c);
      SnocInjective(nodes[l], c, nodes[k], b);
      if l == k && c == b {
        TreeInsert(lens, i, nodes, nodes[l] + [c]);
      } else {
        TreeStep(lens, i, nodes, nodes[l] + [c], tree[SlotOf(l, c)]);
      }
    }
    PathsLong(lens, i, nodes);
  }

  /** A symbol without a code changes nothing. */
  lemma InsertNone(lens: seq<nat>, i: nat, lookUp: seq<int>, tree: seq<int>, nodes: seq<seq<bool>>)
    requires Acceptable(lens) && TableOk(lens, i, lookUp, tree, nodes) && i < |lens| <= 288 && lens[i] == 0
    ensures TableOk(lens, i + 1, lookUp, tree, nodes)
  {
    hide ShortIs, Acceptable, ToBits, LookSlot, TreeSlot, SlotOf, Inner, CodeBits;
    forall r | 0 <= r < LOOKUP_SIZE ensures !ShortIs(lens, i + 1, ToBits(r, LOOKUP_BITS), i) {
      NotShort(lens, i, ToBits(r, LOOKUP_BITS));
    }
    InsertShort(lens, i, lookUp, lookUp, tree, nodes);
  }

  // ---------------------------------------------------------------- finding nodes

  /** An entry in use for the start of a longer code refers to a node. */
  lemma LookNode(lens: seq<nat>, i: nat, lookUp: seq<int>, tree: seq<int>, nodes: seq<seq<bool>>, r: nat) returns (k: nat)
    requires Acceptable(lens) && TableOk(lens, i, lookUp, tree, nodes) && r < LOOKUP_SIZE == |lookUp|
    requires Inner(lens, ToBits(r, LOOKUP_BITS)) && lookUp[r] != 0
    ensures k < |nodes| && nodes[k] == ToBits(r, LOOKUP_BITS) && lookUp[r] == NodeRef(k)
  {
    hide ToBits, Acceptable, Inner, AllTree, Paths, Matches;
    var q, v := ToBits(r, LOOKUP_BITS), lookUp[r];
    assert LookSlot(lens, i, nodes, q, v);
    if ShortIs(lens, i, q, v % 512) {
      NotInner(lens, v % 512, q);
    }
    k :| k < |nodes| && nodes[k] == q && v == NodeRef(k);
  }

  lemma TreeNode(lens: seq<nat>, i: nat, lookUp: seq<int>, tree: seq<int>, nodes: seq<seq<bool>>, k: nat, b: bool) returns (l: nat)
    requires Acceptable(lens) && TableOk(lens, i, lookUp, tree, nodes) && k < |nodes|
    requires Inner(lens, nodes[k] + [b]) && |tree| == TREE_SIZE && SlotOf(k, b) < TREE_SIZE && tree[SlotOf(k, b)] != 0
    ensures l < |nodes| && nodes[l] == nodes[k] + [b] && tree[SlotOf(k, b)] == NodeRef(l)
  {
    hide Acceptable, Inner, AllLook, Paths, CodeIs, SlotOf, Matches;
    var q, v := nodes[k] + [b], tree[SlotOf(k, b)];
    assert TreeSlot(lens, i, nodes, q, v);
    if v > 0 {
      CodeMatches(lens, i, q, v);
      NotInner(lens, v, q);
    }
    l :| l < |nodes| && nodes[l] == q && v == NodeRef(l);
  }

  lemma TableStart(lens: seq<nat>, lookUp: seq<int>, tree: seq<int>)
    requires |lookUp| == LOOKUP_SIZE && |tree| == TREE_SIZE
    requires (forall r :: 0 <= r < LOOKUP_SIZE ==> lookUp[r] == 0) && (forall x :: 0 <= x < TREE_SIZE ==> tree[x] == 0)
    ensures TableOk(lens, 0, lookUp, tree, [])
  {
    hide ToBits, Matches;
  }

  lemma TableSize(lens: seq<nat>, i: nat, lookUp: seq<int>, tree: seq<int>, nodes: seq<seq<bool>>)
    requires TableOk(lens, i, lookUp, tree, nodes)
    ensures i <= |lens| && |lookUp| == LOOKUP_SIZE && |tree| == TREE_SIZE && 2 * |nodes| <= TREE_SIZE
  {
  }

  // ---------------------------------------------------------------- codes as numbers

  lemma BitOfFrom(c: seq<bool>, d: nat)
    requires d < |c|
    ensures (Shr(FromBits(c), d) % 2 == 1) == c[d]
  {
    ToFromBits(c);
    BitOfShr(FromBits(c), |c|, d);
  }

  /** The first ten bits of a code, as an index. */
  lemma FirstTen(c: seq<bool>)
    requires |c| >= LOOKUP_BITS
    ensures Low(FromBits(c), LOOKUP_BITS) < LOOKUP_SIZE && ToBits(Low(FromBits(c), LOOKUP_BITS), LOOKUP_BITS) == c[..LOOKUP_BITS]
  {
    hide ToBits, FromBits, Low;
    Pow2Values();
    SplitBits(c, LOOKUP_BITS);
    ToFromBits(c[..LOOKUP_BITS]);
  }

  /** A short code starts an index exactly when the low bits of the index are the code. */
  lemma ShortIndex(lens: seq<nat>, i: nat, r: nat)
    requires i < |lens| && 0 < lens[i] <= LOOKUP_BITS && r < LOOKUP_SIZE
    ensures ShortIs(lens, i + 1, ToBits(r, LOOKUP_BITS), i) <==> Low(r, lens[i]) == FromBits(CodeBits(lens, i))
  {
    hide CodeBits, ToBits, FromBits, Low;
    var l, c := lens[i], CodeBits(lens, i);
    Pow2Values();
    assert LOOKUP_BITS == l + (LOOKUP_BITS - l);
    SplitToBits(r, l, LOOKUP_BITS - l);
    ToFromBits(c);
    FromToBits(Low(r, l), l);
  }

  /** Stepping by 2^l from a number below it visits exactly the numbers with the same low bits. */
  lemma LowSteps(rev: nat, l: nat, x: nat, m: nat, r: nat)
    requires rev < Pow2(l) && x == rev + m * Pow2(l) && x <= r < x + Pow2(l)
    ensures Low(r, l) == rev <==> r == x
  {
    var d := r - x;
    if rev + d < Pow2(l) {
      LowIs(r, l, m);
    } else {
      MulDistrib(m, 1, Pow2(l));
      LowIs(r, l, m + 1);
    }
  }

  lemma LowFirst(rev: nat, l: nat, r: nat)
    requires r < rev < Pow2(l)
    ensures Low(r, l) != rev
  {
    LowIs(r, l, 0);
  }

  lemma CodeBitsAre(lens: seq<nat>, s: nat)
    requires s < |lens|
    ensures CodeBits(lens, s) == Rev(ToBits(FirstCode(lens, lens[s], |lens|) + CountLen(lens, lens[s], s), lens[s]))
  {
    hide FirstCode, CountLen, Rev, ToBits;
  }

  lemma NoneCounted(lens: seq<nat>)
    ensures forall l :: CountLen(lens, l, 0) == 0
  {
  }

  lemma NoNodes()
    ensures NodeRef(0) == -1
  {
  }

  /** How many of the first `n` symbols have a code shorter than `m`. */
  function UsedBelow(lens: seq<nat>, m: nat, n: nat): nat
    requires n <= |lens|
  {
    if n == 0 then 0 else UsedBelow(lens, m, n - 1) + (if 0 < lens[n - 1] < m then 1 else 0)
  }

  lemma {:induction false} NoneBelow(lens: seq<nat>, n: nat)
    requires n <= |lens|
    ensures UsedBelow(lens, 1, n) == 0
  {
    if n > 0 { NoneBelow(lens, n - 1); }
  }

  lemma {:induction false} BelowStep(lens: seq<nat>, m: nat, n: nat)
    requires n <= |lens| && 0 < m
    ensures UsedBelow(lens, m + 1, n) == UsedBelow(lens, m, n) + CountLen(lens, m, n)
  {
    if n > 0 { BelowStep(lens, m, n - 1); }
  }

  lemma {:induction false} AllBelow(lens: seq<nat>, n: nat)
    requires n <= |lens| && ValidLens(lens)
    ensures UsedBelow(lens, 16, n) == UsedSyms(lens[..n])
  {
    if n > 0 {
      AllBelow(lens, n - 1);
      assert lens[..n][..n - 1] == lens[..n - 1];
    }
  }

  /** What the two totals say about the lengths. */
  lemma TotalsAre(lens: seq<nat>)
    requires ValidLens(lens)
    ensures Acceptable(lens) <==> FirstCode(lens, 16, |lens|) == 65536 || UsedBelow(lens, 16, |lens|) <= 1
  {
    hide FirstCode, CountLen, Kraft, UsedSyms, UsedBelow;
    FirstCodeStep(lens, 15, |lens|);
    FullEnd(lens);
    AllBelow(lens, |lens|);
    assert lens[..|lens|] == lens;
  }

  /** The start of a long code is an inner node. */
  lemma InnerStart(lens: seq<nat>, i: nat, d: nat)
    requires i < |lens| && 10 <= d < lens[i] && Acceptable(lens)
    ensures Inner(lens, CodeBits(lens, i)[..d])
  {
    hide CodeBits, Kraft, UsedSyms;
    assert Starts(lens, CodeBits(lens, i)[..d], i);
  }

  lemma NextRef(n: nat)
    ensures NodeRef(n + 1) == NodeRef(n) - 2
  {
  }

  /** The index the code computes for the next bit. */
  lemma SlotIs(k: nat, b: bool)
    ensures -(NodeRef(k) - (if b then 1 else 0)) - 1 == SlotOf(k, b)
  {
  }

  class DecodeTable {
    const codeSize: array<nat>   // m_code_size
    const lookUp: array<int>     // m_look_up
    const tree: array<int>       // m_tree
    ghost var nodes: seq<seq<bool>>

    ghost predicate Shape() {
      codeSize.Length == 288 && lookUp.Length == LOOKUP_SIZE && tree.Length == TREE_SIZE && lookUp != tree &&
      codeSize as object != lookUp && codeSize as object != tree
    }

    /** The tables hold the first `i` symbols of a code. */
    ghost predicate Partial(lens: seq<nat>, i: nat)
      reads this, lookUp, tree
    {
      Shape() && Acceptable(lens) && |lens| <= 288 && TableOk(lens, i, lookUp[..], tree[..], nodes)
    }

    ghost predicate Ready(lens: seq<nat>)
      reads this, lookUp, tree
    {
      Partial(lens, |lens|)
    }

    constructor ()
      ensures Shape() && fresh(codeSize) && fresh(lookUp) && fresh(tree)
    {
      codeSize := new nat[288];
      lookUp := new int[LOOKUP_SIZE];
      tree := new int[TREE_SIZE];
    }

    /** Put a short code into every entry it starts. */
    method PutShort(i: nat, size: nat, revCode: nat, ghost lens: seq<nat>)
      requires Partial(lens, i) && i < |lens| && 0 < size == lens[i] <= LOOKUP_BITS && revCode == FromBits(CodeBits(lens, i))
      modifies lookUp
      ensures Partial(lens, i + 1)
    {
      hide TableOk, Acceptable, CodeBits, FromBits, Low, ShortIs;
      ghost var before := lookUp[..];
      TableSize(lens, i, before, tree[..], nodes);
      Pow2Values();
      BitOrDisjoint(i, size, 9);
      var k := BitOr(i, size * 512);
      var x: nat := revCode;
      ghost var m := 0;
      assert Pow2(size) >= 1;
      forall r | 0 <= r < revCode ensures Low(r, size) != revCode {
        LowFirst(revCode, size, r);
      }
      while x < LOOKUP_SIZE
        invariant x == revCode + m * Pow2(size)
        invariant forall r :: 0 <= r < LOOKUP_SIZE ==>
          lookUp[r] == if r < x && Low(r, size) == revCode then k else before[r]
      {
        forall r | x <= r < x + Pow2(size) ensures Low(r, size) == revCode <==> r == x {
          LowSteps(revCode, size, x, m, r);
        }
        lookUp[x] := k;
        MulDistrib(m, 1, Pow2(size));
        x := x + Pow2(size);
        m := m + 1;
      }
      forall r | 0 <= r < LOOKUP_SIZE
        ensures lookUp[..][r] == if ShortIs(lens, i + 1, ToBits(r, LOOKUP_BITS), i) then lens[i] * 512 + i else before[r]
      {
        ShortIndex(lens, i, r);
      }
      InsertShort(lens, i, before, lookUp[..], tree[..], nodes);
    }

    /** The entry for the first ten bits of a long code: its node, new if need be. */
    method RootNode(i: nat, revCode: nat, treeNext: int, ghost lens: seq<nat>) returns (treeCur: int, next: int, ghost k: nat)
      requires Partial(lens, i) && i < |lens| && LOOKUP_BITS < lens[i] && revCode == FromBits(CodeBits(lens, i))
      requires treeNext == NodeRef(|nodes|)
      modifies this`nodes, lookUp
      ensures Partial(lens, i) && next == NodeRef(|nodes|) && old(nodes) <= nodes
      ensures k < |nodes| && nodes[k] == CodeBits(lens, i)[..LOOKUP_BITS] && treeCur == NodeRef(k)
    {
      hide TableOk, Acceptable, CodeBits, FromBits, Low, Inner, NodeRef, ToBits;
      ghost var c := CodeBits(lens, i);
      TableSize(lens, i, lookUp[..], tree[..], nodes);
      FirstTen(c);
      InnerStart(lens, i, LOOKUP_BITS);
      var r := Low(revCode, LOOKUP_BITS);
      next := treeNext;
      if lookUp[r] == 0 {
        AddRoot(lens, i, lookUp[..], tree[..], nodes, r);
        ghost var b := lookUp[..];
        lookUp[r] := next;
        assert lookUp[..] == b[r := next];
        k := |nodes|;
        treeCur := next;
        NextRef(|nodes|);
        nodes := nodes + [c[..LOOKUP_BITS]];
        next := next - 2;
      } else {
        k := LookNode(lens, i, lookUp[..], tree[..], nodes, r);
        treeCur := lookUp[r];
      }
    }

    /** One bit further down the tree. */
    method ChildNode(i: nat, treeCur: int, bit: nat, treeNext: int, ghost lens: seq<nat>, ghost k: nat, ghost d: nat)
      returns (treeCur': int, next: int, ghost l: nat)
      requires Partial(lens, i) && i < |lens| && LOOKUP_BITS <= d && d + 1 < lens[i] && treeNext == NodeRef(|nodes|)
      requires k < |nodes| && nodes[k] == CodeBits(lens, i)[..d] && treeCur == NodeRef(k)
      requires bit == if CodeBits(lens, i)[d] then 1 else 0
      modifies this`nodes, tree
      ensures Partial(lens, i) && next == NodeRef(|nodes|) && old(nodes) <= nodes
      ensures l < |nodes| && nodes[l] == CodeBits(lens, i)[..d + 1] && treeCur' == NodeRef(l)
    {
      hide TableOk, Acceptable, CodeBits, Inner, NodeRef, SlotOf;
      ghost var c := CodeBits(lens, i);
      TableSize(lens, i, lookUp[..], tree[..], nodes);
      InnerStart(lens, i, d + 1);
      assert c[..d + 1] == nodes[k] + [c[d]];
      SlotIs(k, c[d]);
      next := treeNext;
      treeCur' := treeCur - bit;
      var x := -treeCur' - 1;
      if tree[x] == 0 {
        AddChild(lens, i, lookUp[..], tree[..], nodes, k, c[d]);
        ghost var b := tree[..];
        tree[x] := next;
        assert tree[..] == b[x := next];
        l := |nodes|;
        treeCur' := next;
        NextRef(|nodes|);
        nodes := nodes + [c[..d + 1]];
        next := next - 2;
      } else {
        l := TreeNode(lens, i, lookUp[..], tree[..], nodes, k, c[d]);
        treeCur' := tree[x];
      }
    }

    /** Put a code longer than ten bits into the tree. */
    method PutLong(i: nat, size: nat, revCode: nat, treeNext: int, ghost lens: seq<nat>) returns (next: int)
      requires Partial(lens, i) && i < |lens| && LOOKUP_BITS < size == lens[i] && revCode == FromBits(CodeBits(lens, i))
      requires treeNext == NodeRef(|nodes|)
      modifies this`nodes, lookUp, tree
      ensures Partial(lens, i + 1) && next == NodeRef(|nodes|)
    {
      hide TableOk, Acceptable, CodeBits, FromBits, Shr, NodeRef, SlotOf;
      ghost var c := CodeBits(lens, i);
      var treeCur: int, rev: nat, j: nat;
      ghost var k: nat;
      treeCur, next, k := RootNode(i, revCode, treeNext, lens);
      rev := Shr(revCode, LOOKUP_BITS - 1);
      j := size;
      ghost var d := LOOKUP_BITS;
      while j > LOOKUP_BITS + 1
        invariant LOOKUP_BITS + 1 <= j <= size && d == LOOKUP_BITS + (size - j) && rev == Shr(revCode, d - 1)
        invariant Partial(lens, i) && next == NodeRef(|nodes|)
        invariant k < |nodes| && nodes[k] == c[..d] && treeCur == NodeRef(k)
        invariant forall e :: LOOKUP_BITS <= e <= d ==> c[..e] in nodes
      {
        ShrStep(revCode, d - 1);
        BitOfFrom(c, d);
        rev := Shr(rev, 1);
        treeCur, next, k := ChildNode(i, treeCur, rev % 2, next, lens, k, d);
        j, d := j - 1, d + 1;
      }
      ShrStep(revCode, d - 1);
      BitOfFrom(c, d);
      rev := Shr(rev, 1);
      treeCur := treeCur - rev % 2;
      SlotIs(k, c[d]);
      assert nodes[k] + [c[d]] == c;
      TableSize(lens, i, lookUp[..], tree[..], nodes);
      InsertLong(lens, i, lookUp[..], tree[..], nodes, k, c[d]);
      ghost var b := tree[..];
      tree[-treeCur - 1] := i;
      assert tree[..] == b[-treeCur - 1 := i];
    }

    method CountSizes(size: nat) returns (totalSyms: array<nat>)
      requires Shape() && size <= 288 && forall i :: 0 <= i < size ==> codeSize[i] <= 15
      ensures fresh(totalSyms) && totalSyms.Length == 16
      ensures forall l :: 0 <= l < 16 ==> totalSyms[l] == CountLen(codeSize[..size], l, size)
    {
      ghost var lens := codeSize[..size];
      totalSyms := new nat[16](_ => 0);
      for i := 0 to size
        invariant fresh(totalSyms) && totalSyms.Length == 16 && lens == codeSize[..size]
        invariant forall l :: 0 <= l < 16 ==> totalSyms[l] == CountLen(lens, l, i)
      {
        assert lens[i] == codeSize[i];
        totalSyms[codeSize[i]] := totalSyms[codeSize[i]] + 1;
      }
    }

    /** The first code of each length, and whether the lengths make a code that is accepted. */
    method FirstCodes(size: nat) returns (ok: bool, nextCode: array<nat>)
      requires Shape() && size <= 288 && forall i :: 0 <= i < size ==> codeSize[i] <= 15
      ensures fresh(nextCode) && nextCode.Length == 17
      ensures forall l :: 1 <= l <= 15 ==> nextCode[l] == FirstCode(codeSize[..size], l, size)
      ensures ok <==> Acceptable(codeSize[..size])
    {
      hide FirstCode, CountLen, UsedBelow;
      ghost var lens := codeSize[..size];
      var totalSyms := CountSizes(size);
      nextCode := new nat[17];
      nextCode[0], nextCode[1] := 0, 0;
      var usedSyms, total := 0, 0;
      FirstCodeOne(lens, size);
      NoneBelow(lens, size);
      for i := 1 to 16
        invariant fresh(nextCode) && nextCode.Length == 17 && lens == codeSize[..size]
        invariant forall l :: 0 <= l < 16 ==> totalSyms[l] == CountLen(lens, l, size)
        invariant forall l :: 1 <= l <= i ==> nextCode[l] == FirstCode(lens, l, size)
        invariant total == FirstCode(lens, i, size) && usedSyms == UsedBelow(lens, i, size)
      {
        FirstCodeStep(lens, i, size);
        BelowStep(lens, i, size);
        usedSyms := usedSyms + totalSyms[i];
        total := (total + totalSyms[i]) * 2;
        nextCode[i + 1] := total;
      }
      TotalsAre(lens);
      ok := total == 65536 || usedSyms <= 1;
    }

    /** The body of the loop over the symbols. */
    method PutSymbol(i: nat, size: nat, treeNext: int, nextCode: array<nat>, ghost lens: seq<nat>) returns (next: int)
      requires Partial(lens, i) && i < |lens| && size == lens[i] <= 15 && treeNext == NodeRef(|nodes|)
      requires nextCode.Length == 17 && nextCode as object != lookUp && nextCode as object != tree
      requires forall l :: 1 <= l <= 15 ==> nextCode[l] == FirstCode(lens, l, |lens|) + CountLen(lens, l, i)
      modifies this`nodes, lookUp, tree, nextCode
      ensures Partial(lens, i + 1) && next == NodeRef(|nodes|)
      ensures forall l :: 1 <= l <= 15 ==> nextCode[l] == FirstCode(lens, l, |lens|) + CountLen(lens, l, i + 1)
    {
      hide TableOk, Acceptable, CodeBits, FromBits, NodeRef, FirstCode;
      next := treeNext;
      if size == 0 {
        InsertNone(lens, i, lookUp[..], tree[..], nodes);
        return;
      }
      var code := nextCode[size];
      nextCode[size] := nextCode[size] + 1;
      var revCode := ReverseCode(code, size);
      CodeBitsAre(lens, i);
      if size <= LOOKUP_BITS {
        PutShort(i, size, revCode, lens);
      } else {
        next := PutLong(i, size, revCode, next, lens);
      }
    }

    /** The building of one table; false when the lengths are rejected. */
    method Build(size: nat) returns (ok: bool)
      requires Shape() && size <= 288 && forall i :: 0 <= i < size ==> codeSize[i] <= 15
      modifies this`nodes, lookUp, tree
      ensures ok <==> Acceptable(codeSize[..size])
      ensures ok ==> Ready(codeSize[..size])
    {
      hide TableOk, Acceptable, CodeBits, FromBits, NodeRef, FirstCode, CountLen;
      ghost var lens := codeSize[..size];
      forall i | 0 <= i < LOOKUP_SIZE { lookUp[i] := 0; }
      forall i | 0 <= i < TREE_SIZE { tree[i] := 0; }
      assert lens == codeSize[..size];
      var nextCode;
      ok, nextCode := FirstCodes(size);
      if !ok { return; }
      nodes := [];
      TableStart(lens, lookUp[..], tree[..]);
      NoNodes();
      var treeNext := -1;
      assert forall l :: 1 <= l <= 15 ==> CountLen(lens, l, 0) == 0 by { NoneCounted(lens); }
      for i := 0 to size
        invariant lens == codeSize[..size] && Partial(lens, i) && treeNext == NodeRef(|nodes|)
        invariant forall l :: 1 <= l <= 15 ==> nextCode[l] == FirstCode(lens, l, size) + CountLen(lens, l, i)
      {
        treeNext := PutSymbol(i, codeSize[i], treeNext, nextCode, lens);
      }
    }
  }
}
