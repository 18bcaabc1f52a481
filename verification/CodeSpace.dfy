/** What a full code space means for decoding: every bit string starts with a code, and
    the codes longer than ten bits need at most 288 inner tree nodes. */
module CodeSpace {
  import opened Bits
  import opened Canonical
  import opened Blocks

  /** One past the last code of length up to `d`, seen as a number of `d` bits. */
  function CodeEnd(lens: seq<nat>, d: nat): nat {
    FirstCode(lens, d, |lens|) + CountLen(lens, d, |lens|)
  }

  lemma {:induction false} MassTotal(lens: seq<nat>, n: nat)
    requires ValidLens(lens) && n <= |lens|
    ensures Mass(lens, 15, n) + CountLen(lens, 15, n) == Kraft(lens[..n])
  {
    if n > 0 {
      MassTotal(lens, n - 1);
      assert lens[..n][..n - 1] == lens[..n - 1];
      assert Pow2(0) == 1;
    }
  }

  /** A full code space ends where the numbers of 15 bits do. */
  lemma FullEnd(lens: seq<nat>)
    requires ValidLens(lens)
    ensures CodeEnd(lens, 15) == Kraft(lens)
  {
    hide Mass, FirstCode, Kraft;
    MassTotal(lens, |lens|);
    FirstCodeMass(lens, 15, |lens|);
    assert lens[..|lens|] == lens;
    assert Pow2(15 - 15) == 1;
  }

  // ---------------------------------------------------------------- completeness

  lemma {:induction false} NthOfLength(lens: seq<nat>, l: nat, k: nat, n: nat) returns (s: nat)
    requires n <= |lens| && k < CountLen(lens, l, n)
    ensures s < n && lens[s] == l && CountLen(lens, l, s) == k
  {
    if lens[n - 1] == l && CountLen(lens, l, n - 1) == k {
      s := n - 1;
    } else {
      s := NthOfLength(lens, l, k, n - 1);
    }
  }

  /** A length at which the top bits of `v` lie among the codes of that length. */
  lemma {:induction false} CodeFor(lens: seq<nat>, v: nat, d: nat) returns (l: nat)
    requires 1 <= d <= 15 && Shr(v, 15 - d) < CodeEnd(lens, d)
    ensures 1 <= l <= d && FirstCode(lens, l, |lens|) <= Shr(v, 15 - l) < CodeEnd(lens, l)
  {
    hide FirstCode, CountLen, Shr;
    l := d;
    if d == 1 {
      FirstCodeOne(lens, |lens|);
    } else if Shr(v, 15 - (d - 1)) < CodeEnd(lens, d - 1) {
      l := CodeFor(lens, v, d - 1);
    } else {
      FirstCodeStep(lens, d - 1, |lens|);
      ShrStep(v, 15 - d);
    }
  }

  lemma RevTwice(b: seq<bool>)
    ensures Rev(Rev(b)) == b
  {
  }

  /** The first bits of a reversed number are its top bits. */
  lemma TopBits(w: seq<bool>, l: nat)
    requires l <= |w|
    ensures w[..l] == Rev(ToBits(Shr(FromBits(Rev(w)), |w| - l), l))
  {
    hide FromBits, ToBits, Shr;
    var r := Rev(w);
    SplitBits(r, |w| - l);
    ToFromBits(r[|w| - l..]);
    assert Rev(r[|w| - l..]) == w[..l];
  }

  lemma ShrZero(v: nat)
    ensures Shr(v, 0) == v
  {
  }

  /** With a full code space, any 15 bits start with a code. */
  lemma FullComplete(lens: seq<nat>, w: seq<bool>) returns (s: nat)
    requires ValidLens(lens) && Kraft(lens) == 32768 && |w| == 15
    ensures s < |lens| && Matches(lens, s, w)
  {
    hide FromBits, ToBits, Shr, FirstCode, CountLen, Kraft, Rev;
    var v := FromBits(Rev(w));
    FullEnd(lens);
    Pow2Values();
    ShrZero(v);
    var l := CodeFor(lens, v, 15);
    s := NthOfLength(lens, l, Shr(v, 15 - l) - FirstCode(lens, l, |lens|), |lens|);
    TopBits(w, l);
  }

  /** With a full code space the reference decoder finds a symbol at every position. */
  lemma FullDecodes(lens: seq<nat>, w: seq<bool>)
    requires ValidLens(lens) && Kraft(lens) == 32768 && |w| == 15
    ensures FindSym(lens, w, |lens|).Some?
  {
    var s := FullComplete(lens, w);
  }

  // ---------------------------------------------------------------- inner nodes

  /** The start `p` of a code that goes on for at least one more bit. */
  ghost predicate Starts(lens: seq<nat>, p: seq<bool>, s: nat) {
    s < |lens| && |p| < lens[s] && CodeBits(lens, s)[..|p|] == p
  }

  /** An inner node of the tree of codes longer than ten bits. */
  ghost predicate Inner(lens: seq<nat>, p: seq<bool>) {
    10 <= |p| <= 14 && exists s: nat :: Starts(lens, p, s)
  }

  /** The start of a code as a number, its most significant bit first. */
  function StartVal(p: seq<bool>): (v: nat)
    ensures v < Pow2(|p|)
  {
    FromBits(Rev(p))
  }

  lemma StartOfCode(lens: seq<nat>, p: seq<bool>, s: nat)
    requires ValidLens(lens) && Kraft(lens) <= 32768 && Starts(lens, p, s)
    ensures StartVal(p) == Shr(CodeVal(lens, s), lens[s] - |p|)
  {
    hide FromBits, ToBits, Shr, CodeVal, Rev;
    CodeFits(lens, s);
    ToFromBits(Rev(p));
    RevTwice(p);
    PrefixBits(CodeVal(lens, s), StartVal(p), |p|, lens[s]);
  }

  lemma ScaleDown(e: nat, v: nat, m: nat, w: nat)
    requires 0 < m && 0 < w && e * (m * w) <= v * w
    ensures e <= v / m
  {
    MulAssoc(e, m, w);
    if e * m > v {
      MulMono(v + 1, e * m, w);
      MulDistrib(v, 1, w);
    }
    DivBound(v, m);
    if v / m < e {
      MulMono(v / m + 1, e, m);
      MulDistrib(v / m, 1, m);
    }
  }

  /** Codes longer than `d` begin with at least the end of the codes of length `d`. */
  lemma LongCodeAfter(lens: seq<nat>, s: nat, d: nat)
    requires ValidLens(lens) && s < |lens| && 0 < d < lens[s]
    ensures CodeEnd(lens, d) <= Shr(CodeVal(lens, s), lens[s] - d)
  {
    hide FirstCode, Mass, Kraft;
    var n, l := |lens|, lens[s];
    FirstCodeMass(lens, d, n);
    FirstCodeMass(lens, l, n);
    MassStep(lens, d, l, n);
    MulDistrib(FirstCode(lens, d, n), CountLen(lens, d, n), Weight(d));
    MulMono(FirstCode(lens, l, n), CodeVal(lens, s), Weight(l));
    Pow2Add(l - d, 15 - l);
    ScaleDown(CodeEnd(lens, d), CodeVal(lens, s), Pow2(l - d), Weight(l));
  }

  /** Inner nodes of depth `d` are numbers from the end of the codes of length `d` on. */
  lemma InnerRange(lens: seq<nat>, p: seq<bool>)
    requires ValidLens(lens) && Kraft(lens) <= 32768 && Inner(lens, p)
    ensures CodeEnd(lens, |p|) <= StartVal(p) < Pow2(|p|)
  {
    hide CodeEnd, StartVal, Shr, Kraft, CodeVal, CodeBits;
    var s: nat :| Starts(lens, p, s);
    StartOfCode(lens, p, s);
    LongCodeAfter(lens, s, |p|);
  }

  lemma StartInjective(p: seq<bool>, q: seq<bool>)
    requires |p| == |q| && StartVal(p) == StartVal(q)
    ensures p == q
  {
    FromBitsInjective(Rev(p), Rev(q));
    RevTwice(p);
    RevTwice(q);
  }

  /** The numbers of depth `d` that are not taken by codes. */
  function Room(lens: seq<nat>, d: nat): int {
    Pow2(d) - CodeEnd(lens, d)
  }

  lemma RoomStep(lens: seq<nat>, d: nat)
    requires 0 < d
    ensures Room(lens, d + 1) == 2 * Room(lens, d) - CountLen(lens, d + 1, |lens|)
  {
    FirstCodeStep(lens, d, |lens|);
  }

  lemma {:induction false} LongCodes(lens: seq<nat>, n: nat)
    requires n <= |lens|
    ensures CountLen(lens, 11, n) + CountLen(lens, 12, n) + CountLen(lens, 13, n) + CountLen(lens, 14, n) + CountLen(lens, 15, n) <= n
  {
    if n > 0 { LongCodes(lens, n - 1); }
  }

  /** The inner nodes in one line, depth by depth. */
  function Rank(lens: seq<nat>, p: seq<bool>): int
    requires 10 <= |p| <= 14
  {
    StartVal(p) - CodeEnd(lens, |p|) +
    (if |p| > 10 then Room(lens, 10) else 0) + (if |p| > 11 then Room(lens, 11) else 0) +
    (if |p| > 12 then Room(lens, 12) else 0) + (if |p| > 13 then Room(lens, 13) else 0)
  }

  lemma RoomTotal(lens: seq<nat>)
    requires ValidLens(lens) && Kraft(lens) == 32768
    ensures Room(lens, 10) >= 0 && Room(lens, 11) >= 0 && Room(lens, 12) >= 0 && Room(lens, 13) >= 0 && Room(lens, 14) >= 0
    ensures Room(lens, 10) + Room(lens, 11) + Room(lens, 12) + Room(lens, 13) + Room(lens, 14) <= |lens|
  {
    hide Kraft, CountLen, CodeEnd, Pow2;
    RoomStep(lens, 10);
    RoomStep(lens, 11);
    RoomStep(lens, 12);
    RoomStep(lens, 13);
    RoomStep(lens, 14);
    FullEnd(lens);
    Pow2Values();
    LongCodes(lens, |lens|);
  }

  lemma InnerDepth(lens: seq<nat>, p: seq<bool>)
    requires Inner(lens, p)
    ensures 10 <= |p| <= 14
  {
  }

  lemma RankRange(lens: seq<nat>, p: seq<bool>)
    requires ValidLens(lens) && Kraft(lens) == 32768 && Inner(lens, p)
    ensures 0 <= Rank(lens, p) < |lens|
  {
    hide Kraft, CodeEnd, Inner, StartVal;
    InnerDepth(lens, p);
    InnerRange(lens, p);
    RoomTotal(lens);
  }

  lemma RankInjective(lens: seq<nat>, p: seq<bool>, q: seq<bool>)
    requires ValidLens(lens) && Kraft(lens) == 32768 && Inner(lens, p) && Inner(lens, q) && |p| <= |q|
    requires Rank(lens, p) == Rank(lens, q)
    ensures p == q
  {
    hide Kraft, CodeEnd, Inner, StartVal;
    InnerDepth(lens, p);
    InnerDepth(lens, q);
    InnerRange(lens, p);
    InnerRange(lens, q);
    RoomTotal(lens);
    if |p| == |q| {
      StartInjective(p, q);
    }
  }

  lemma {:induction false} SomeUsed(lens: seq<nat>, s: nat)
    requires s < |lens| && lens[s] > 0
    ensures UsedSyms(lens) > 0
  {
    if s < |lens| - 1 { SomeUsed(lens[..|lens| - 1], s); }
  }

  lemma {:induction false} TwoUsed(lens: seq<nat>, s: nat, t: nat)
    requires s < t < |lens| && lens[s] > 0 && lens[t] > 0
    ensures UsedSyms(lens) >= 2
  {
    var u := lens[..|lens| - 1];
    if t < |u| {
      TwoUsed(u, s, t);
    } else {
      SomeUsed(u, s);
    }
  }

  /** With a single code, inner nodes of one depth are the same. */
  lemma SingleInjective(lens: seq<nat>, p: seq<bool>, q: seq<bool>)
    requires UsedSyms(lens) <= 1 && Inner(lens, p) && Inner(lens, q) && |p| == |q|
    ensures p == q
  {
    var s: nat :| Starts(lens, p, s);
    var t: nat :| Starts(lens, q, t);
    if s < t {
      TwoUsed(lens, s, t);
    } else if t < s {
      TwoUsed(lens, t, s);
    }
  }

  ghost function Below(n: nat): (r: set<int>)
    ensures |r| == n && forall x :: x in r <==> 0 <= x < n
  {
    if n == 0 then {} else Below(n - 1) + {n - 1}
  }

  lemma {:induction false} SeqSet(s: seq<int>)
    requires forall i, j :: 0 <= i < j < |s| ==> s[i] != s[j]
    ensures |set x | x in s| == |s|
  {
    if s != [] {
      var t, y := s[..|s| - 1], s[|s| - 1];
      SeqSet(t);
      assert s == t + [y];
      assert (set x | x in s) == (set x | x in t) + {y};
      assert y !in t;
    } else {
      assert (set x | x in s) == {};
    }
  }

  lemma Subset(a: set<int>, b: set<int>)
    requires a <= b
    ensures |a| <= |b|
  {
    assert b == a + (b - a);
  }

  lemma Pigeonhole(ranks: seq<int>, n: nat)
    requires forall i :: 0 <= i < |ranks| ==> 0 <= ranks[i] < n
    requires forall i, j :: 0 <= i < j < |ranks| ==> ranks[i] != ranks[j]
    ensures |ranks| <= n
  {
    SeqSet(ranks);
    var used := set x | x in ranks;
    assert used <= Below(n);
    Subset(used, Below(n));
  }

  ghost predicate Distinct(nodes: seq<seq<bool>>) {
    forall i, j :: 0 <= i < j < |nodes| ==> nodes[i] != nodes[j]
  }

  ghost predicate AllInner(lens: seq<nat>, nodes: seq<seq<bool>>) {
    forall i :: 0 <= i < |nodes| ==> Inner(lens, nodes[i])
  }

  lemma FullNodes(lens: seq<nat>, nodes: seq<seq<bool>>)
    requires ValidLens(lens) && Kraft(lens) == 32768 && |lens| <= 288 && Distinct(nodes) && AllInner(lens, nodes)
    requires forall i :: 0 <= i < |nodes| ==> 10 <= |nodes[i]| <= 14
    ensures |nodes| <= 288
  {
    hide Kraft, Inner, Rank, ValidLens;
    var ranks := seq(|nodes|, i requires 0 <= i < |nodes| => Rank(lens, nodes[i]));
    forall i | 0 <= i < |nodes| ensures 0 <= ranks[i] < |lens| {
      RankRange(lens, nodes[i]);
    }
    forall i, j | 0 <= i < j < |nodes| ensures ranks[i] != ranks[j] {
      if ranks[i] == ranks[j] {
        if |nodes[i]| <= |nodes[j]| {
          RankInjective(lens, nodes[i], nodes[j]);
        } else {
          RankInjective(lens, nodes[j], nodes[i]);
        }
      }
    }
    Pigeonhole(ranks, |lens|);
  }

  /** The tree never needs more than 288 inner nodes, two entries each. */
  lemma NodesBound(lens: seq<nat>, nodes: seq<seq<bool>>)
    requires Acceptable(lens) && |lens| <= 288 && Distinct(nodes) && AllInner(lens, nodes)
    ensures |nodes| <= 288
  {
    hide Kraft, Inner, Rank, UsedSyms;
    forall i | 0 <= i < |nodes| ensures 10 <= |nodes[i]| <= 14 {
      InnerDepth(lens, nodes[i]);
    }
    if Kraft(lens) == 32768 {
      FullNodes(lens, nodes);
    } else {
      var ranks := seq(|nodes|, i requires 0 <= i < |nodes| => |nodes[i]|);
      forall i, j | 0 <= i < j < |nodes| ensures ranks[i] != ranks[j] {
        if |nodes[i]| == |nodes[j]| {
          SingleInjective(lens, nodes[i], nodes[j]);
        }
      }
      Pigeonhole(ranks, 15);
    }
  }
}
