/** `tdefl_radix_sort_syms`: a least-significant-digit radix sort by 16-bit keys. */
module RadixSort {

  datatype SymFreq = SymFreq(key: nat, sym: nat)   // tdefl_sym_freq

  function Digit(key: nat, pass: nat): nat {
    if pass == 0 then key % 256 else key / 256
  }

  /** The elements whose digit is `d`, in order. */
  function Bucket(s: seq<SymFreq>, pass: nat, d: nat): (r: seq<SymFreq>)
    ensures |r| <= |s|
  {
    if s == [] then []
    else
      var x := s[|s| - 1];
      Bucket(s[..|s| - 1], pass, d) + (if Digit(x.key, pass) == d then [x] else [])
  }

  /** One pass: the first `n` buckets, one after the other. */
  function Buckets(s: seq<SymFreq>, pass: nat, n: nat): seq<SymFreq> {
    if n == 0 then [] else Buckets(s, pass, n - 1) + Bucket(s, pass, n - 1)
  }

  /** The elements with key `k`, in order. */
  function KeyOnly(s: seq<SymFreq>, k: nat): seq<SymFreq> {
    if s == [] then []
    else KeyOnly(s[..|s| - 1], k) + (if s[|s| - 1].key == k then [s[|s| - 1]] else [])
  }

  /** Order by the whole key, or by its low byte only. */
  predicate Leq(x: SymFreq, y: SymFreq, whole: bool) {
    if whole then x.key <= y.key else x.key % 256 <= y.key % 256
  }

  ghost predicate SortedBy(s: seq<SymFreq>, whole: bool) {
    forall i, j :: 0 <= i < j < |s| ==> Leq(s[i], s[j], whole)
  }

  ghost predicate Sorted(s: seq<SymFreq>) {
    SortedBy(s, true)
  }

  predicate Keys16(s: seq<SymFreq>) {
    forall i :: 0 <= i < |s| ==> s[i].key < 65536
  }

  /** `t` is `s` sorted by key, elements of equal key in their old order. */
  ghost predicate StableSort(s: seq<SymFreq>, t: seq<SymFreq>) {
    Sorted(t) && multiset(t) == multiset(s) && forall k :: 0 <= k < 65536 ==> KeyOnly(t, k) == KeyOnly(s, k)
  }

  // ---------------------------------------------------------------- one pass

  lemma {:induction false} BucketContents(s: seq<SymFreq>, pass: nat, d: nat)
    ensures forall x :: x in Bucket(s, pass, d) ==> x in s && Digit(x.key, pass) == d
  {
    if s != [] { BucketContents(s[..|s| - 1], pass, d); }
  }

  lemma {:induction false} BucketsContents(s: seq<SymFreq>, pass: nat, n: nat)
    ensures forall x :: x in Buckets(s, pass, n) ==> x in s && Digit(x.key, pass) < n
  {
    if n > 0 {
      BucketsContents(s, pass, n - 1);
      BucketContents(s, pass, n - 1);
    }
  }

  lemma EmptySorted()
    ensures Sorted([])
  {
  }

  lemma ConcatSorted(a: seq<SymFreq>, b: seq<SymFreq>, whole: bool)
    requires SortedBy(a, whole) && SortedBy(b, whole)
    requires forall x, y :: x in a && y in b ==> Leq(x, y, whole)
    ensures SortedBy(a + b, whole)
  {
  }

  lemma {:induction false} BucketSorted(s: seq<SymFreq>, pass: nat, d: nat, whole: bool)
    requires SortedBy(s, whole)
    ensures SortedBy(Bucket(s, pass, d), whole)
  {
    if s != [] {
      var t, x := s[..|s| - 1], s[|s| - 1];
      BucketSorted(t, pass, d, whole);
      BucketContents(t, pass, d);
      if Digit(x.key, pass) == d {
        ConcatSorted(Bucket(t, pass, d), [x], whole);
      } else {
        assert Bucket(s, pass, d) == Bucket(t, pass, d);
      }
    }
  }

  lemma BucketsStep(s: seq<SymFreq>, pass: nat, n: nat)
    ensures n == 0 ==> Buckets(s, pass, n) == []
    ensures n > 0 ==> Buckets(s, pass, n) == Buckets(s, pass, n - 1) + Bucket(s, pass, n - 1)
  {
  }

  lemma {:induction false} PassLow(s: seq<SymFreq>, n: nat)
    ensures SortedBy(Buckets(s, 0, n), false)
  {
    hide Bucket, Buckets;
    BucketsStep(s, 0, n);
    if n > 0 {
      var a, b := Buckets(s, 0, n - 1), Bucket(s, 0, n - 1);
      PassLow(s, n - 1);
      BucketsContents(s, 0, n - 1);
      BucketContents(s, 0, n - 1);
      ConcatSorted(a, b, false);
    }
  }

  lemma HighOrder(x: SymFreq, y: SymFreq)
    requires Digit(x.key, 1) < Digit(y.key, 1)
    ensures Leq(x, y, true)
  {
  }

  lemma SameHigh(b: seq<SymFreq>, d: nat)
    requires SortedBy(b, false) && forall x :: x in b ==> Digit(x.key, 1) == d
    ensures Sorted(b)
  {
    forall i, j | 0 <= i < j < |b| ensures Leq(b[i], b[j], true) {
      assert Leq(b[i], b[j], false);
      assert b[i] in b && b[j] in b;
    }
  }

  lemma ConcatHigh(a: seq<SymFreq>, b: seq<SymFreq>, d: nat)
    requires Sorted(a) && (forall x :: x in a ==> Digit(x.key, 1) < d)
    requires SortedBy(b, false) && (forall x :: x in b ==> Digit(x.key, 1) == d)
    ensures Sorted(a + b)
  {
    hide Digit, SortedBy, Leq;
    SameHigh(b, d);
    forall x, y | x in a && y in b ensures Leq(x, y, true) {
      HighOrder(x, y);
    }
    ConcatSorted(a, b, true);
  }

  lemma {:induction false} PassHigh(s: seq<SymFreq>, n: nat)
    requires SortedBy(s, false)
    ensures Sorted(Buckets(s, 1, n))
  {
    hide Bucket, Buckets, SortedBy, Digit;
    BucketsStep(s, 1, n);
    if n > 0 {
      PassHigh(s, n - 1);
      BucketsContents(s, 1, n - 1);
      BucketContents(s, 1, n - 1);
      BucketSorted(s, 1, n - 1, false);
      ConcatHigh(Buckets(s, 1, n - 1), Bucket(s, 1, n - 1), n - 1);
    } else {
      EmptySorted();
    }
  }

  lemma {:induction false} KeyOnlyConcat(a: seq<SymFreq>, b: seq<SymFreq>, k: nat)
    ensures KeyOnly(a + b, k) == KeyOnly(a, k) + KeyOnly(b, k)
  {
    if b == [] {
      assert a + b == a;
    } else {
      assert (a + b)[..|a + b| - 1] == a + b[..|b| - 1];
      KeyOnlyConcat(a, b[..|b| - 1], k);
    }
  }

  lemma {:induction false} KeyOnlyBucket(s: seq<SymFreq>, pass: nat, d: nat, k: nat)
    ensures KeyOnly(Bucket(s, pass, d), k) == if Digit(k, pass) == d then KeyOnly(s, k) else []
  {
    if s != [] {
      hide Digit;
      var t, x := s[..|s| - 1], s[|s| - 1];
      KeyOnlyBucket(t, pass, d, k);
      if Digit(x.key, pass) == d {
        KeyOnlyConcat(Bucket(t, pass, d), [x], k);
        assert [x][..0] == [];
      } else {
        assert Bucket(s, pass, d) == Bucket(t, pass, d);
      }
    }
  }

  lemma KeyOnlyEmpty(k: nat)
    ensures KeyOnly([], k) == []
  {
  }

  /** A pass keeps the order of elements with equal keys. */
  lemma {:induction false} PassStable(s: seq<SymFreq>, pass: nat, n: nat, k: nat)
    ensures KeyOnly(Buckets(s, pass, n), k) == if Digit(k, pass) < n then KeyOnly(s, k) else []
  {
    hide *;
    BucketsStep(s, pass, n);
    if n > 0 {
      var x := KeyOnly(s, k);
      assert x + [] == x && [] + x == x;
      PassStable(s, pass, n - 1, k);
      KeyOnlyBucket(s, pass, n - 1, k);
      KeyOnlyConcat(Buckets(s, pass, n - 1), Bucket(s, pass, n - 1), k);
    } else {
      KeyOnlyEmpty(k);
    }
  }

  lemma {:induction false} BucketsEmpty(pass: nat, n: nat)
    ensures Buckets([], pass, n) == []
  {
    if n > 0 { BucketsEmpty(pass, n - 1); }
  }

  lemma BucketSnoc(s: seq<SymFreq>, x: SymFreq, pass: nat, d: nat)
    ensures Bucket(s + [x], pass, d) == Bucket(s, pass, d) + (if Digit(x.key, pass) == d then [x] else [])
  {
    assert (s + [x])[..|s|] == s;
  }

  lemma {:induction false} BucketsSnoc(s: seq<SymFreq>, x: SymFreq, pass: nat, n: nat)
    ensures multiset(Buckets(s + [x], pass, n)) ==
            multiset(Buckets(s, pass, n)) + (if Digit(x.key, pass) < n then multiset{x} else multiset{})
  {
    hide Buckets, Bucket, Digit;
    BucketsStep(s, pass, n);
    BucketsStep(s + [x], pass, n);
    if n > 0 {
      BucketsSnoc(s, x, pass, n - 1);
      BucketSnoc(s, x, pass, n - 1);
    }
  }

  /** A pass rearranges the elements. */
  lemma {:induction false} PassPermutes(s: seq<SymFreq>, pass: nat)
    requires Keys16(s)
    ensures multiset(Buckets(s, pass, 256)) == multiset(s) && |Buckets(s, pass, 256)| == |s|
  {
    if s == [] {
      BucketsEmpty(pass, 256);
    } else {
      var t, x := s[..|s| - 1], s[|s| - 1];
      PassPermutes(t, pass);
      assert s == t + [x];
      BucketsSnoc(t, x, pass, 256);
    }
    assert |multiset(Buckets(s, pass, 256))| == |multiset(s)|;
  }

  lemma {:induction false} BucketsMono(s: seq<SymFreq>, pass: nat, a: nat, b: nat)
    requires a <= b
    ensures |Buckets(s, pass, a)| <= |Buckets(s, pass, b)|
  {
    if a < b { BucketsMono(s, pass, a, b - 1); }
  }

  lemma {:induction false} BucketPrefix(s: seq<SymFreq>, i: nat, pass: nat, d: nat)
    requires i <= |s|
    ensures |Bucket(s[..i], pass, d)| <= |Bucket(s, pass, d)|
    ensures i < |s| && Digit(s[i].key, pass) == d ==> |Bucket(s[..i], pass, d)| < |Bucket(s, pass, d)|
    decreases |s|
  {
    if i < |s| {
      BucketPrefix(s[..|s| - 1], i, pass, d);
      assert s[..|s| - 1][..i] == s[..i];
    } else {
      assert s[..i] == s;
    }
  }

  /** Bucket `d` stands in `t` where the pass puts it. */
  ghost predicate InPlace(s: seq<SymFreq>, pass: nat, d: nat, t: seq<SymFreq>) {
    var a, b := |Buckets(s, pass, d)|, |Buckets(s, pass, d + 1)|;
    a <= b <= |t| && t[a..b] == Bucket(s, pass, d)
  }

  lemma {:induction false} BucketsSlice(s: seq<SymFreq>, pass: nat, n: nat, t: seq<SymFreq>)
    requires |Buckets(s, pass, n)| <= |t|
    requires forall d :: 0 <= d < n ==> InPlace(s, pass, d, t)
    ensures t[..|Buckets(s, pass, n)|] == Buckets(s, pass, n)
  {
    if n > 0 {
      var a, b := |Buckets(s, pass, n - 1)|, |Buckets(s, pass, n)|;
      BucketsSlice(s, pass, n - 1, t);
      assert InPlace(s, pass, n - 1, t);
      assert t[..b] == t[..a] + t[a..b];
    }
  }

  // ---------------------------------------------------------------- the sort

  /** The start of bucket `d`: the sum of the histogram below it. */
  method Offsets(hist: seq<nat>, ghost s: seq<SymFreq>, ghost pass: nat) returns (offsets: array<nat>)
    requires |hist| == 256 && forall d :: 0 <= d < 256 ==> hist[d] == |Bucket(s, pass, d)|
    ensures offsets.Length == 256 && fresh(offsets)
    ensures forall d :: 0 <= d < 256 ==> offsets[d] == |Buckets(s, pass, d)|
  {
    hide Bucket;
    offsets := new nat[256];
    var curOfs := 0;
    for i := 0 to 256
      invariant curOfs == |Buckets(s, pass, i)|
      invariant forall d :: 0 <= d < i ==> offsets[d] == |Buckets(s, pass, d)|
    {
      offsets[i] := curOfs;
      curOfs := curOfs + hist[i];
    }
  }

  /** Bucket `d` of the first `i` elements stands in `t`, and `o` is where its next element goes. */
  ghost predicate Filled(s: seq<SymFreq>, i: nat, pass: nat, d: nat, t: seq<SymFreq>, o: nat)
    requires i <= |s|
  {
    var a := |Buckets(s, pass, d)|;
    o == a + |Bucket(s[..i], pass, d)| <= |t| && t[a..o] == Bucket(s[..i], pass, d)
  }

  lemma FilledStep(s: seq<SymFreq>, i: nat, pass: nat, d: nat, t: seq<SymFreq>, o: nat, u: seq<SymFreq>, p: nat)
    requires i < |s| && |t| == |u| && |s| <= |t| && Keys16(s) && d < 256
    requires Filled(s, i, pass, d, t, o)
    requires p < |t| && u == t[p := s[i]]
    requires Digit(s[i].key, pass) == d ==> p == o
    requires Digit(s[i].key, pass) != d ==> !(|Buckets(s, pass, d)| <= p < |Buckets(s, pass, d + 1)|)
    ensures Filled(s, i + 1, pass, d, u, if Digit(s[i].key, pass) == d then o + 1 else o)
  {
    hide Digit, Keys16;
    assert s[..i + 1][..i] == s[..i];
    BucketPrefix(s, i, pass, d);
    BucketPrefix(s, i + 1, pass, d);
  }

  lemma FilledStart(s: seq<SymFreq>, pass: nat, t: seq<SymFreq>, o: seq<nat>)
    requires |o| == 256 && Keys16(s) && |s| <= |t|
    requires forall d :: 0 <= d < 256 ==> o[d] == |Buckets(s, pass, d)|
    ensures forall d :: 0 <= d < 256 ==> Filled(s, 0, pass, d, t, o[d])
  {
    PassPermutes(s, pass);
    forall d | 0 <= d < 256 ensures Filled(s, 0, pass, d, t, o[d]) {
      BucketsMono(s, pass, d, 256);
    }
  }

  lemma FilledRoom(s: seq<SymFreq>, i: nat, pass: nat, t: seq<SymFreq>, o: nat)
    requires i < |s| && Keys16(s) && |s| <= |t| && pass < 2
    requires Filled(s, i, pass, Digit(s[i].key, pass), t, o)
    ensures Digit(s[i].key, pass) < 256
    ensures |Buckets(s, pass, Digit(s[i].key, pass))| <= o < |Buckets(s, pass, Digit(s[i].key, pass) + 1)| <= |s|
  {
    var d := Digit(s[i].key, pass);
    BucketPrefix(s, i, pass, d);
    BucketsMono(s, pass, d + 1, 256);
    PassPermutes(s, pass);
  }

  lemma FilledAll(s: seq<SymFreq>, i: nat, pass: nat, t: seq<SymFreq>, o: seq<nat>, u: seq<SymFreq>, q: seq<nat>)
    requires i < |s| && Keys16(s) && |s| <= |t| && pass < 2 && |o| == 256
    requires Digit(s[i].key, pass) < 256 && o[Digit(s[i].key, pass)] < |t|
    requires forall d :: 0 <= d < 256 ==> Filled(s, i, pass, d, t, o[d])
    requires q == o[Digit(s[i].key, pass) := o[Digit(s[i].key, pass)] + 1]
    requires u == t[o[Digit(s[i].key, pass)] := s[i]]
    ensures forall d :: 0 <= d < 256 ==> Filled(s, i + 1, pass, d, u, q[d])
  {
    hide Bucket, Filled, Digit, Buckets;
    var k := Digit(s[i].key, pass);
    FilledRoom(s, i, pass, t, o[k]);
    forall d | 0 <= d < 256 ensures Filled(s, i + 1, pass, d, u, q[d]) {
      if d < k { BucketsMono(s, pass, d + 1, k); }
      if k < d { BucketsMono(s, pass, k + 1, d); }
      FilledStep(s, i, pass, d, t, o[d], u, o[k]);
    }
  }

  lemma FilledEnd(s: seq<SymFreq>, pass: nat, t: seq<SymFreq>, o: seq<nat>)
    requires Keys16(s) && |s| <= |t| && |o| == 256
    requires forall d :: 0 <= d < 256 ==> Filled(s, |s|, pass, d, t, o[d])
    ensures t[..|s|] == Buckets(s, pass, 256)
  {
    hide Bucket;
    PassPermutes(s, pass);
    forall d | 0 <= d < 256 ensures InPlace(s, pass, d, t) {
      assert Filled(s, |s|, pass, d, t, o[d]);
      assert s[..|s|] == s;
    }
    BucketsSlice(s, pass, 256, t);
  }

  /** One pass of the sort: `pNew_syms` receives the elements of `pCur_syms`. */
  method Distribute(n: nat, cur: array<SymFreq>, next: array<SymFreq>, pass: nat, hist: seq<nat>)
    requires n <= cur.Length && n <= next.Length && cur != next && pass < 2 && Keys16(cur[..n])
    requires |hist| == 256 && forall d :: 0 <= d < 256 ==> hist[d] == |Bucket(cur[..n], pass, d)|
    modifies next
    ensures next[..n] == Buckets(cur[..n], pass, 256)
  {
    hide Bucket, Buckets, Filled;
    ghost var s := cur[..n];
    var offsets := Offsets(hist, s, pass);
    FilledStart(s, pass, next[..], offsets[..]);
    for i := 0 to n
      invariant s == cur[..n] && offsets.Length == 256
      invariant forall d :: 0 <= d < 256 ==> Filled(s, i, pass, d, next[..], offsets[d])
    {
      var k := Digit(cur[i].key, pass);
      ghost var t, o := next[..], offsets[..];
      FilledRoom(s, i, pass, t, offsets[k]);
      next[offsets[k]] := cur[i];
      offsets[k] := offsets[k] + 1;
      FilledAll(s, i, pass, t, o, next[..], offsets[..]);
    }
    FilledEnd(s, pass, next[..], offsets[..]);
  }

  lemma HistogramStart(low: seq<nat>, high: seq<nat>)
    requires |low| == 256 && |high| == 256 && forall d :: 0 <= d < 256 ==> low[d] == 0 && high[d] == 0
    ensures forall d :: 0 <= d < 256 ==> low[d] == |Bucket([], 0, d)| && high[d] == |Bucket([], 1, d)|
  {
  }

  lemma HistogramStep(s: seq<SymFreq>, x: SymFreq)
    ensures forall p, d :: |Bucket(s + [x], p, d)| == |Bucket(s, p, d)| + (if Digit(x.key, p) == d then 1 else 0)
  {
    assert (s + [x])[..|s|] == s;
  }

  /** The two halves of `hist`. */
  method Histograms(n: nat, syms: array<SymFreq>) returns (low: seq<nat>, high: seq<nat>)
    requires n <= syms.Length && Keys16(syms[..n])
    ensures |low| == 256 && forall d :: 0 <= d < 256 ==> low[d] == |Bucket(syms[..n], 0, d)|
    ensures |high| == 256 && forall d :: 0 <= d < 256 ==> high[d] == |Bucket(syms[..n], 1, d)|
  {
    hide Bucket;
    low, high := seq(256, _ => 0), seq(256, _ => 0);
    HistogramStart(low, high);
    for i := 0 to n
      invariant |low| == 256 && forall d :: 0 <= d < 256 ==> low[d] == |Bucket(syms[..i], 0, d)|
      invariant |high| == 256 && forall d :: 0 <= d < 256 ==> high[d] == |Bucket(syms[..i], 1, d)|
    {
      assert syms[..n][i].key < 65536;
      var freq := syms[i].key;
      assert syms[..i + 1] == syms[..i] + [syms[i]];
      HistogramStep(syms[..i], syms[i]);
      low := low[freq % 256 := low[freq % 256] + 1];
      high := high[freq / 256 := high[freq / 256] + 1];
    }
  }

  lemma {:induction false} WholeBucket(s: seq<SymFreq>, pass: nat, d: nat)
    requires |Bucket(s, pass, d)| == |s|
    ensures forall i :: 0 <= i < |s| ==> Digit(s[i].key, pass) == d
  {
    if s != [] { WholeBucket(s[..|s| - 1], pass, d); }
  }

  /** When every high byte is zero the pass by low bytes sorts. */
  lemma OnePass(s: seq<SymFreq>)
    requires Keys16(s) && |Bucket(s, 1, 0)| == |s|
    ensures StableSort(s, Buckets(s, 0, 256))
  {
    hide Buckets, Bucket, KeyOnly;
    var t := Buckets(s, 0, 256);
    PassLow(s, 256);
    PassPermutes(s, 0);
    WholeBucket(s, 1, 0);
    BucketsContents(s, 0, 256);
    forall i, j | 0 <= i < j < |t| ensures Leq(t[i], t[j], true) {
      assert t[i] in s && t[j] in s && Leq(t[i], t[j], false);
    }
    forall k | 0 <= k < 65536 ensures KeyOnly(t, k) == KeyOnly(s, k) {
      PassStable(s, 0, 256, k);
    }
  }

  lemma TwoPasses(s: seq<SymFreq>)
    requires Keys16(s)
    ensures Keys16(Buckets(s, 0, 256)) && StableSort(s, Buckets(Buckets(s, 0, 256), 1, 256))
  {
    hide Buckets, Bucket, KeyOnly;
    var t := Buckets(s, 0, 256);
    PassLow(s, 256);
    BucketsContents(s, 0, 256);
    forall i | 0 <= i < |t| ensures t[i].key < 65536 {
      assert t[i] in s;
    }
    PassPermutes(s, 0);
    PassPermutes(t, 1);
    PassHigh(t, 256);
    forall k | 0 <= k < 65536 ensures KeyOnly(Buckets(t, 1, 256), k) == KeyOnly(s, k) {
      PassStable(s, 0, 256, k);
      PassStable(t, 1, 256, k);
    }
  }

  /** An element of one arrangement can be taken out of another. */
  lemma RemoveOne(s: seq<SymFreq>, u: seq<SymFreq>, x: SymFreq) returns (a: seq<SymFreq>, b: seq<SymFreq>)
    requires multiset(s) == multiset(u + [x])
    ensures s == a + [x] + b && multiset(a + b) == multiset(u)
  {
    assert multiset(u + [x]) == multiset(u) + multiset{x};
    assert x in multiset(s);
    var i :| 0 <= i < |s| && s[i] == x;
    a, b := s[..i], s[i + 1..];
    assert s == a + [x] + b;
    assert multiset(s) == multiset(a + b) + multiset{x};
    assert multiset(a + b) == multiset(s) - multiset{x} == multiset(u);
  }

  lemma {:induction false} BucketConcat(a: seq<SymFreq>, b: seq<SymFreq>, pass: nat, d: nat)
    ensures Bucket(a + b, pass, d) == Bucket(a, pass, d) + Bucket(b, pass, d)
  {
    if b == [] {
      assert a + b == a;
    } else {
      assert (a + b)[..|a + b| - 1] == a + b[..|b| - 1];
      BucketConcat(a, b[..|b| - 1], pass, d);
    }
  }

  /** The size of a bucket depends on the elements only, not on their order. */
  lemma {:induction false} BucketCount(s: seq<SymFreq>, t: seq<SymFreq>, pass: nat, d: nat)
    requires multiset(s) == multiset(t)
    ensures |Bucket(s, pass, d)| == |Bucket(t, pass, d)|
    decreases |t|
  {
    if t == [] {
      assert |multiset(s)| == 0;
    } else {
      hide Digit;
      var u, x := t[..|t| - 1], t[|t| - 1];
      assert t == u + [x];
      var a, b := RemoveOne(s, u, x);
      BucketCount(a + b, u, pass, d);
      BucketConcat(a, b, pass, d);
      BucketConcat(a + [x], b, pass, d);
      BucketSnoc(a, x, pass, d);
    }
  }

  lemma HistogramPermuted(s: seq<SymFreq>, hist: seq<nat>)
    requires Keys16(s) && |hist| == 256 && forall d :: 0 <= d < 256 ==> hist[d] == |Bucket(s, 1, d)|
    ensures forall d :: 0 <= d < 256 ==> hist[d] == |Bucket(Buckets(s, 0, 256), 1, d)|
  {
    hide Buckets, Bucket;
    PassPermutes(s, 0);
    forall d | 0 <= d < 256 ensures |Bucket(Buckets(s, 0, 256), 1, d)| == |Bucket(s, 1, d)| {
      BucketCount(s, Buckets(s, 0, 256), 1, d);
    }
  }

  /** `tdefl_radix_sort_syms`: the result is whichever of the two buffers was written last. */
  method RadixSortSyms(n: nat, syms0: array<SymFreq>, syms1: array<SymFreq>) returns (sorted: array<SymFreq>)
    requires n <= syms0.Length && n <= syms1.Length && syms0 != syms1 && Keys16(syms0[..n])
    modifies syms0, syms1
    ensures sorted == syms0 || sorted == syms1
    ensures StableSort(old(syms0[..n]), sorted[..n])
  {
    hide Buckets, Bucket, Digit, KeyOnly, StableSort;
    ghost var s := syms0[..n];
    var low, high := Histograms(n, syms0);
    Distribute(n, syms0, syms1, 0, low);
    if n == high[0] {
      OnePass(s);
      return syms1;
    }
    assert syms1[..n] == Buckets(s, 0, 256);
    TwoPasses(s);
    HistogramPermuted(s, high);
    Distribute(n, syms1, syms0, 1, high);
    return syms0;
  }
}
