/** The symbols that occur, in order and sorted by how often they do. */
module UsedSymbols {
  import opened RadixSort
  import opened HuffmanForest
  import opened MinimumRedundancy

  // ---------------------------------------------------------------- symbols in use

  /** The symbols with a nonzero count, in order. */
  function Used(counts: seq<nat>): seq<SymFreq> {
    if counts == [] then []
    else
      var i := |counts| - 1;
      Used(counts[..i]) + (if counts[i] > 0 then [SymFreq(counts[i], i)] else [])
  }

  function SumKeys(s: seq<SymFreq>): nat {
    if s == [] then 0 else SumKeys(s[..|s| - 1]) + s[|s| - 1].key
  }

  function SumCounts(counts: seq<nat>): nat {
    if counts == [] then 0 else SumCounts(counts[..|counts| - 1]) + counts[|counts| - 1]
  }

  lemma {:induction false} UsedSum(counts: seq<nat>)
    ensures |Used(counts)| <= |counts| && SumKeys(Used(counts)) == SumCounts(counts)
  {
    if counts != [] {
      var i := |counts| - 1;
      UsedSum(counts[..i]);
      var u := Used(counts[..i]);
      if counts[i] > 0 {
        assert (u + [SymFreq(counts[i], i)])[..|u|] == u;
      } else {
        assert Used(counts) == u;
      }
    }
  }

  lemma {:induction false} UsedContents(counts: seq<nat>)
    ensures forall x :: x in Used(counts) ==> x.sym < |counts| && counts[x.sym] == x.key && x.key > 0
  {
    if counts != [] {
      UsedContents(counts[..|counts| - 1]);
    }
  }

  lemma {:induction false} UsedAll(counts: seq<nat>, s: nat)
    requires s < |counts| && counts[s] > 0
    ensures SymFreq(counts[s], s) in Used(counts)
  {
    var i := |counts| - 1;
    if s < i {
      UsedAll(counts[..i], s);
    }
  }

  ghost predicate DistinctSyms(t: seq<SymFreq>) {
    forall i, j :: 0 <= i < j < |t| ==> t[i].sym != t[j].sym
  }

  lemma {:induction false} UsedDistinct(counts: seq<nat>)
    ensures DistinctSyms(Used(counts))
  {
    if counts != [] {
      var i := |counts| - 1;
      UsedDistinct(counts[..i]);
      UsedContents(counts[..i]);
      var u := Used(counts[..i]);
      forall k | 0 <= k < |u| ensures u[k].sym < i {
        assert u[k] in u;
      }
    }
  }

  lemma {:induction false} TwiceInMultiset(t: seq<SymFreq>, i: nat, j: nat)
    requires i < j < |t| && t[i] == t[j]
    ensures multiset(t)[t[i]] >= 2
  {
    var u := t[..j] + t[j + 1..];
    assert t == t[..j] + [t[j]] + t[j + 1..];
    assert multiset(t) == multiset(u) + multiset{t[j]};
    assert u[i] == t[i];
    assert t[i] in multiset(u);
  }

  lemma {:induction false} OnceInMultiset(t: seq<SymFreq>, x: SymFreq)
    requires DistinctSyms(t)
    ensures multiset(t)[x] <= 1
  {
    if t != [] {
      var u, y := t[..|t| - 1], t[|t| - 1];
      assert t == u + [y];
      OnceInMultiset(u, x);
      assert multiset(t) == multiset(u) + multiset{y};
      assert x == y ==> x !in u;
    }
  }

  /** Rearranging the symbols keeps them distinct. */
  lemma StillDistinct(u: seq<SymFreq>, t: seq<SymFreq>)
    requires DistinctSyms(u) && multiset(t) == multiset(u)
    ensures DistinctSyms(t)
  {
    forall i, j | 0 <= i < j < |t| ensures t[i].sym != t[j].sym {
      if t[i].sym == t[j].sym {
        assert t[i] in multiset(t) && t[j] in multiset(t);
        var a :| 0 <= a < |u| && u[a] == t[i];
        var b :| 0 <= b < |u| && u[b] == t[j];
        assert a == b;
        TwiceInMultiset(t, i, j);
        OnceInMultiset(u, t[i]);
      }
    }
  }

  lemma {:induction false} SumKeysConcat(a: seq<SymFreq>, b: seq<SymFreq>)
    ensures SumKeys(a + b) == SumKeys(a) + SumKeys(b)
  {
    if b == [] {
      assert a + b == a;
    } else {
      assert (a + b)[..|a + b| - 1] == a + b[..|b| - 1];
      SumKeysConcat(a, b[..|b| - 1]);
    }
  }

  lemma {:induction false} SumKeysPermuted(s: seq<SymFreq>, t: seq<SymFreq>)
    requires multiset(s) == multiset(t)
    ensures SumKeys(s) == SumKeys(t)
    decreases |t|
  {
    if t == [] {
      assert |multiset(s)| == 0;
    } else {
      var u, x := t[..|t| - 1], t[|t| - 1];
      assert t == u + [x];
      var a, b := RemoveOne(s, u, x);
      SumKeysPermuted(a + b, u);
      SumKeysConcat(a, b);
      SumKeysConcat(a + [x], b);
      assert (a + [x])[..|a|] == a;
    }
  }

  lemma {:induction false} SumOfKeys(s: seq<SymFreq>)
    ensures Sum(Keys(s)) == SumKeys(s)
  {
    if s == [] {
      assert Keys(s) == [];
    } else {
      var i := |s| - 1;
      SumOfKeys(s[..i]);
      assert Keys(s) == Keys(s[..i]) + [s[i].key];
      SumSnoc(Keys(s[..i]), s[i].key);
    }
  }

  /** What the sorted list of used symbols is like. */
  lemma SortedUsed(counts: seq<nat>, t: seq<SymFreq>)
    requires StableSort(Used(counts), t) && SumCounts(counts) <= 65535
    ensures |t| <= |counts| && DistinctSyms(t) && SortedWeights(Keys(t)) && Sum(Keys(t)) <= 65535
    ensures forall i :: 0 <= i < |t| ==> t[i].sym < |counts| && counts[t[i].sym] == t[i].key
    ensures forall s :: 0 <= s < |counts| && counts[s] > 0 ==> exists i :: 0 <= i < |t| && t[i].sym == s
  {
    hide Used, KeyOnly, Sum, SumCounts, SumKeys;
    var u := Used(counts);
    UsedContents(counts);
    UsedSum(counts);
    UsedDistinct(counts);
    StillDistinct(u, t);
    SumKeysPermuted(u, t);
    SumOfKeys(t);
    assert |t| == |multiset(t)| == |multiset(u)| == |u|;
    forall i | 0 <= i < |t| ensures t[i] in u {
      assert t[i] in multiset(t);
    }
    forall s | 0 <= s < |counts| && counts[s] > 0 ensures exists i :: 0 <= i < |t| && t[i].sym == s {
      UsedAll(counts, s);
      assert SymFreq(counts[s], s) in multiset(u);
      assert SymFreq(counts[s], s) in t;
    }
    forall i, j | 0 <= i < j < |t| ensures Keys(t)[i] <= Keys(t)[j] {
      assert Leq(t[i], t[j], true);
    }
  }

  /** The used symbols, each once, the rarest first. */
  ghost predicate RarestFirst(counts: seq<nat>, t: seq<SymFreq>) {
    DistinctSyms(t) &&
    (forall i :: 0 <= i < |t| ==> t[i].sym < |counts| && counts[t[i].sym] == t[i].key > 0) &&
    (forall i, j :: 0 <= i < j < |t| ==> t[i].key <= t[j].key) &&
    (forall s :: 0 <= s < |counts| && counts[s] > 0 ==> exists i :: 0 <= i < |t| && t[i].sym == s)
  }
}
