/** Code lengths of least cost: a lower bound that holds for all lengths satisfying
    Kraft's inequality, and how merging the two lightest weights carries it over. */
module HuffmanOptimal {
  import opened Bits

  /** A weight and the code length given to it. */
  datatype Item = Item(weight: nat, length: nat)

  function Cost(p: seq<Item>): nat {
    if p == [] then 0 else p[0].weight * p[0].length + Cost(p[1..])
  }

  /** The code space the lengths take, in units of 2^-m. */
  function Space(p: seq<Item>, m: nat): nat {
    if p == [] then 0 else (if p[0].length <= m then Pow2(m - p[0].length) else 0) + Space(p[1..], m)
  }

  function WeightsOf(p: seq<Item>): multiset<nat> {
    if p == [] then multiset{} else multiset{p[0].weight} + WeightsOf(p[1..])
  }

  /** No length is above `m`, and together they satisfy Kraft's inequality. */
  ghost predicate Fits(p: seq<Item>, m: nat) {
    (forall i :: 0 <= i < |p| ==> p[i].length <= m) && Space(p, m) <= Pow2(m)
  }

  /** Whatever lengths the weights `ws` are given, they cost at least `c`. */
  ghost predicate CostsAtLeast(ws: multiset<nat>, c: nat) {
    forall p: seq<Item>, m: nat :: WeightsOf(p) == ws && Fits(p, m) ==> c <= Cost(p)
  }

  // ---------------------------------------------------------------- one item out of many

  function Without(p: seq<Item>, i: nat): (r: seq<Item>)
    requires i < |p|
    ensures |r| == |p| - 1
  {
    p[..i] + p[i + 1..]
  }

  lemma {:induction false} TakeOut(p: seq<Item>, i: nat, m: nat)
    requires i < |p|
    ensures Cost(p) == Cost(Without(p, i)) + p[i].weight * p[i].length
    ensures Space(p, m) == Space(Without(p, i), m) + (if p[i].length <= m then Pow2(m - p[i].length) else 0)
    ensures WeightsOf(p) == WeightsOf(Without(p, i)) + multiset{p[i].weight}
  {
    hide Pow2;
    if i == 0 {
      assert Without(p, 0) == p[1..];
    } else {
      assert Without(p, i)[1..] == Without(p[1..], i - 1) && Without(p, i)[0] == p[0];
      TakeOut(p[1..], i - 1, m);
    }
  }

  /** Giving an item another length. */
  lemma ChangeOne(p: seq<Item>, i: nat, l: nat, m: nat)
    requires i < |p| && l <= m && p[i].length <= m
    ensures var q := p[i := Item(p[i].weight, l)];
            Cost(q) - p[i].weight * l == Cost(p) - p[i].weight * p[i].length &&
            Space(q, m) - Pow2(m - l) == Space(p, m) - Pow2(m - p[i].length) && WeightsOf(q) == WeightsOf(p)
  {
    hide Pow2;
    var q := p[i := Item(p[i].weight, l)];
    assert Without(q, i) == Without(p, i);
    TakeOut(p, i, m);
    TakeOut(q, i, m);
  }

  lemma Rearranged(u: int, v: int, s: int, t: int)
    requires u <= v && s <= t
    ensures u * t + v * s <= u * s + v * t
  {
    assert (v - u) * (t - s) >= 0;
    assert (v - u) * (t - s) == v * t - v * s - u * t + u * s;
  }

  /** Two items exchange their lengths, the longer one going to the lighter item. */
  lemma Exchange(p: seq<Item>, i: nat, a: nat, m: nat) returns (q: seq<Item>)
    requires i < |p| && a < |p| && Fits(p, m)
    requires p[i].weight <= p[a].weight && p[i].length <= p[a].length
    ensures |q| == |p| && Fits(q, m) && Cost(q) <= Cost(p) && WeightsOf(q) == WeightsOf(p)
    ensures q[i] == Item(p[i].weight, p[a].length)
    ensures forall k :: 0 <= k < |p| ==> q[k].weight == p[k].weight
    ensures forall k :: 0 <= k < |p| && k != i ==> q[k].length == if k == a then p[i].length else p[k].length
  {
    hide Cost, Space, WeightsOf, Pow2;
    if i == a { return p; }
    var u := p[i := Item(p[i].weight, p[a].length)];
    ChangeOne(p, i, p[a].length, m);
    q := u[a := Item(p[a].weight, p[i].length)];
    ChangeOne(u, a, p[i].length, m);
    Rearranged(p[i].weight, p[a].weight, p[i].length, p[a].length);
  }

  lemma {:induction false} FindWeight(p: seq<Item>, w: nat) returns (i: nat)
    requires w in WeightsOf(p)
    ensures i < |p| && p[i].weight == w
  {
    if p[0].weight == w {
      i := 0;
    } else {
      i := FindWeight(p[1..], w);
      i := i + 1;
    }
  }

  lemma {:induction false} WeightIn(p: seq<Item>, i: nat)
    requires i < |p|
    ensures p[i].weight in WeightsOf(p)
  {
    if i > 0 { WeightIn(p[1..], i - 1); }
  }

  /** An item of the greatest length, leaving out item `k`. */
  lemma {:induction false} Longest(p: seq<Item>, k: int, n: nat) returns (a: nat)
    requires n <= |p| && (n >= 2 || (n == 1 && k != 0))
    ensures a < n && a != k && forall i :: 0 <= i < n && i != k ==> p[i].length <= p[a].length
  {
    if n == 1 || (n == 2 && k == 0) {
      a := n - 1;
    } else if n == 2 && k == 1 {
      a := 0;
    } else {
      a := Longest(p, k, n - 1);
      if n - 1 != k && p[n - 1].length > p[a].length { a := n - 1; }
    }
  }

  // ---------------------------------------------------------------- the two lightest

  /** A multiple of `u` that leaves room for `u` and a little more leaves room for 2u. */
  lemma Multiple(c: nat, u: nat, d: nat, e: nat)
    requires u > 0 && e > 0 && c * u + u + e <= d * u
    ensures d >= 2 && c * u + 2 * u <= d * u
  {
    if d < c + 2 {
      MulMono(d, c + 1, u);
      MulDistrib(c, 1, u);
    }
    MulMono(c + 2, d, u);
    MulDistrib(c, 2, u);
  }

  /** Lengths up to `k` take a multiple of 2^-k. */
  lemma {:induction false} SpaceMultiple(p: seq<Item>, k: nat, m: nat) returns (c: nat)
    requires k <= m && forall i :: 0 <= i < |p| ==> p[i].length <= k
    ensures Space(p, m) == c * Pow2(m - k)
  {
    hide Pow2;
    if p == [] {
      c := 0;
    } else {
      c := SpaceMultiple(p[1..], k, m);
      Pow2Add(m - k, k - p[0].length);
      MulDistrib(c, Pow2(k - p[0].length), Pow2(m - k));
      c := c + Pow2(k - p[0].length);
    }
  }

  lemma PowOne(t: nat)
    requires Pow2(t) >= 2
    ensures t >= 1 && Pow2(1) == 2
  {
  }

  /** Besides items of lengths `s` and `t`, of which `s` is the longest and `t` the next
      longest of all, there is room for one of length `t - 1`. */
  lemma RoomForParent(p: seq<Item>, s: nat, t: nat, m: nat)
    requires t <= s <= m && forall i :: 0 <= i < |p| ==> p[i].length <= t
    requires Space(p, m) + Pow2(m - s) + Pow2(m - t) <= Pow2(m)
    ensures t >= 1 && Space(p, m) + Pow2(m - (t - 1)) <= Pow2(m)
  {
    hide Space, Pow2;
    var c := SpaceMultiple(p, t, m);
    Pow2Add(m - t, t);
    Multiple(c, Pow2(m - t), Pow2(t), Pow2(m - s));
    PowOne(t);
    Pow2Add(m - t, 1);
  }

  /** All items but the two at `i` and `j`. */
  lemma TwoOut(p: seq<Item>, i: nat, j: nat, m: nat) returns (v: seq<Item>)
    requires i < |p| && j < |p| && i != j && p[i].length <= m && p[j].length <= m
    ensures Cost(p) == Cost(v) + p[i].weight * p[i].length + p[j].weight * p[j].length
    ensures Space(p, m) == Space(v, m) + Pow2(m - p[i].length) + Pow2(m - p[j].length)
    ensures WeightsOf(p) == WeightsOf(v) + multiset{p[i].weight, p[j].weight}
    ensures forall k :: 0 <= k < |v| ==> exists l :: 0 <= l < |p| && l != i && v[k] == p[l]
  {
    hide Cost, Space, WeightsOf, Pow2;
    var u := Without(p, i);
    var j' := if j < i then j else j - 1;
    assert u[j'] == p[j];
    v := Without(u, j');
    TakeOut(p, i, m);
    TakeOut(u, j', m);
    forall k | 0 <= k < |v| ensures exists l :: 0 <= l < |p| && l != i && v[k] == p[l] {
      var k' := if k < j' then k else k + 1;
      assert v[k] == u[k'] == p[if k' < i then k' else k' + 1];
    }
  }

  lemma WithParent(v: seq<Item>, w: nat, t: nat, m: nat) returns (r: seq<Item>)
    requires 1 <= t <= m && (forall k :: 0 <= k < |v| ==> v[k].length <= m) && Space(v, m) + Pow2(m - (t - 1)) <= Pow2(m)
    ensures Fits(r, m) && Cost(r) == Cost(v) + w * (t - 1) && WeightsOf(r) == WeightsOf(v) + multiset{w}
  {
    hide Cost, Space, WeightsOf, Pow2;
    r := v + [Item(w, t - 1)];
    TakeOut(r, |v|, m);
    assert Without(r, |v|) == v;
  }

  lemma MergedCost(a: nat, b: nat, s: nat, t: nat)
    requires 1 <= t <= s
    ensures (a + b) * (t - 1) + a + b <= a * s + b * t
  {
    assert (a + b) * (t - 1) + a + b == a * t + b * t;
    assert a * t <= a * s;
  }

  /** What is left after merging: the rest, and the parent one level up. */
  lemma Contract(p: seq<Item>, i: nat, j: nat, m: nat) returns (r: seq<Item>)
    requires i < |p| && j < |p| && i != j && Fits(p, m)
    requires p[j].length <= p[i].length && forall k :: 0 <= k < |p| && k != i ==> p[k].length <= p[j].length
    ensures Fits(r, m) && Cost(r) + p[i].weight + p[j].weight <= Cost(p)
    ensures WeightsOf(p) + multiset{p[i].weight + p[j].weight} == WeightsOf(r) + multiset{p[i].weight, p[j].weight}
  {
    hide Cost, Space, WeightsOf, Pow2;
    var v := TwoOut(p, i, j, m);
    var s, t, w := p[i].length, p[j].length, p[i].weight + p[j].weight;
    RoomForParent(v, s, t, m);
    r := WithParent(v, w, t, m);
    MergedCost(p[i].weight, p[j].weight, s, t);
  }

  /** The two lightest of the weights get the two greatest lengths. */
  lemma LightestLongest(p: seq<Item>, q1: nat, q2: nat, m: nat) returns (r: seq<Item>, i: nat, j: nat)
    requires Fits(p, m) && q1 <= q2 && multiset{q1, q2} <= WeightsOf(p)
    requires forall w :: w in WeightsOf(p) - multiset{q1} ==> q2 <= w
    ensures Fits(r, m) && Cost(r) <= Cost(p) && WeightsOf(r) == WeightsOf(p)
    ensures i < |r| && j < |r| && i != j && r[i].weight == q1 && r[j].weight == q2
    ensures r[j].length <= r[i].length && forall k :: 0 <= k < |r| && k != i ==> r[k].length <= r[j].length
  {
    hide Cost, Space, WeightsOf, Fits, Pow2;
    i := FindWeight(p, q1);
    TakeOut(p, i, m);
    assert WeightsOf(Without(p, i)) == WeightsOf(p) - multiset{q1};
    assert q2 in WeightsOf(Without(p, i));
    var j0 := FindWeight(Without(p, i), q2);
    j := if j0 < i then j0 else j0 + 1;
    assert p[j] == Without(p, i)[j0];
    forall k | 0 <= k < |p| && k != i ensures q2 <= p[k].weight {
      var k0 := if k < i then k else k - 1;
      assert Without(p, i)[k0] == p[k];
      WeightIn(Without(p, i), k0);
    }
    var a := Longest(p, -1, |p|);
    var u := Exchange(p, i, a, m);
    var b := Longest(u, i, |u|);
    r := Exchange(u, j, b, m);
  }

  lemma Cancelled(r: multiset<nat>, rest: multiset<nat>, a: multiset<nat>, b: multiset<nat>)
    requires rest + a + b == r + a
    ensures r == rest + b
  {
    forall x ensures r[x] == (rest + b)[x] {
      assert (rest + a + b)[x] == (r + a)[x];
    }
  }

  /** Merging the two lightest weights: what the rest with their sum must cost, with their
      sum added, all must. */
  lemma MergeLightest(rest: multiset<nat>, q1: nat, q2: nat, c: nat)
    requires q1 <= q2 && forall w :: w in rest ==> q2 <= w
    requires CostsAtLeast(rest + multiset{q1 + q2}, c)
    ensures CostsAtLeast(rest + multiset{q1, q2}, c + q1 + q2)
  {
    hide Cost, Space, WeightsOf, Fits;
    var ws, two := rest + multiset{q1, q2}, multiset{q1, q2};
    assert ws - multiset{q1} == rest + multiset{q2};
    forall p: seq<Item>, m: nat | WeightsOf(p) == ws && Fits(p, m) ensures c + q1 + q2 <= Cost(p) {
      var u, i, j := LightestLongest(p, q1, q2, m);
      var r := Contract(u, i, j, m);
      Cancelled(WeightsOf(r), rest, two, multiset{q1 + q2});
    }
  }
}
