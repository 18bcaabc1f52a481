/** The run-length packing of code lengths in `tdefl_start_dynamic_block`. */
module CodePacking {
  import opened Bits
  import opened Canonical
  import opened Blocks
  import opened CodeLengths
  import opened UsedSymbols

  const MAX_CODE_SIZES := 320   // TDEFL_MAX_HUFF_SYMBOLS_0 + TDEFL_MAX_HUFF_SYMBOLS_1

  /** Items as `packed_code_sizes` holds them: a repeat is followed by its extra bits. */
  function Flat(items: seq<ClItem>): (f: seq<nat>)
    ensures |f| >= |items|
  {
    if items == [] then []
    else
      var it := items[|items| - 1];
      Flat(items[..|items| - 1]) + (if it.sym < 16 then [it.sym] else [it.sym, it.extra])
  }

  predicate AllValidItems(items: seq<ClItem>) {
    forall k :: 0 <= k < |items| ==> ValidItem(items[k])
  }

  /** How many items use code length symbol `s`. */
  function ItemUses(items: seq<ClItem>, s: nat): nat {
    if items == [] then 0
    else ItemUses(items[..|items| - 1], s) + (if items[|items| - 1].sym == s then 1 else 0)
  }

  lemma {:induction false} UsesPositive(items: seq<ClItem>, k: nat)
    requires k < |items|
    ensures ItemUses(items, items[k].sym) > 0
  {
    if k < |items| - 1 { UsesPositive(items[..|items| - 1], k); }
  }

  lemma {:induction false} SumUpdate(c: seq<nat>, i: nat, v: nat)
    requires i < |c|
    ensures SumCounts(c[i := v]) == SumCounts(c) + v - c[i]
  {
    var n := |c| - 1;
    if i < n {
      assert c[i := v][..n] == c[..n][i := v];
      SumUpdate(c[..n], i, v);
    } else {
      assert c[i := v][..n] == c[..n];
    }
  }

  /** What the items packed so far stand for, with `z` zeros and `r` repeats of the last
      length still to come, is `done`. */
  ghost predicate Pending(items: seq<ClItem>, z: nat, r: nat, done: seq<nat>) {
    Unpack(items).Some? && z + r <= |done| && (z == 0 || r == 0) &&
    Unpack(items).value == done[..|done| - z - r] &&
    (forall k :: |done| - z <= k < |done| ==> done[k] == 0) &&
    (r > 0 ==> r < |done| && forall k :: |done| - r <= k < |done| ==> done[k] == done[|done| - r - 1]) &&
    (done != [] && done[|done| - 1] != 0 ==> z == 0 && r < |done|)
  }

  lemma UnpackSnoc(items: seq<ClItem>, it: ClItem)
    requires Unpack(items).Some?
    ensures Unpack(items + [it]) == UnpackItem(Unpack(items).value, it)
  {
    assert (items + [it])[..|items|] == items;
  }

  /** A run of zeros becomes symbol 17 or 18. */
  lemma ZerosCovered(items: seq<ClItem>, z: nat, done: seq<nat>, it: ClItem)
    requires Pending(items, z, 0, done) && 16 < it.sym < 19 && ClBase(it.sym) + it.extra == z
    ensures Pending(items + [it], 0, 0, done)
  {
    hide Unpack;
    UnpackSnoc(items, it);
    assert done[..|done| - z] + Repeat(0, z) == done;
    assert done[..|done|] == done;
  }

  /** A run of repeats becomes symbol 16. */
  lemma RepeatsCovered(items: seq<ClItem>, r: nat, done: seq<nat>, it: ClItem)
    requires Pending(items, 0, r, done) && it.sym == 16 && 3 + it.extra == r
    ensures Pending(items + [it], 0, 0, done)
  {
    hide Unpack;
    UnpackSnoc(items, it);
    assert done[..|done| - r] + Repeat(done[|done| - r - 1], r) == done;
    assert done[..|done|] == done;
  }

  /** One pending length sent by itself. */
  lemma OneCovered(items: seq<ClItem>, z: nat, r: nat, done: seq<nat>, it: ClItem)
    requires Pending(items, z, r, done) && z + r > 0 && it.sym < 16 && it.extra == 0
    requires it.sym == done[|done| - z - r]
    ensures if z > 0 then Pending(items + [it], z - 1, 0, done) else Pending(items + [it], 0, r - 1, done)
  {
    hide Unpack;
    UnpackSnoc(items, it);
    var m := |done| - z - r;
    assert done[..m] + [done[m]] == done[..m + 1];
    if r > 1 {
      assert done[m] == done[m - 1];
    }
  }

  /** A new length sent by itself. */
  lemma NewCovered(items: seq<ClItem>, done: seq<nat>, size: nat)
    requires Pending(items, 0, 0, done) && size < 16
    ensures Pending(items + [ClItem(size, 0)], 0, 0, done + [size])
  {
    hide Unpack;
    UnpackSnoc(items, ClItem(size, 0));
    assert done[..|done|] == done;
  }

  lemma ZeroPending(items: seq<ClItem>, z: nat, done: seq<nat>)
    requires Pending(items, z, 0, done)
    ensures Pending(items, z + 1, 0, done + [0])
  {
    hide Unpack;
    assert (done + [0])[..|done| - z] == done[..|done| - z];
  }

  lemma RepeatPending(items: seq<ClItem>, r: nat, done: seq<nat>)
    requires Pending(items, 0, r, done) && done != [] && done[|done| - 1] != 0
    ensures Pending(items, 0, r + 1, done + [done[|done| - 1]])
  {
    hide Unpack;
    assert (done + [done[|done| - 1]])[..|done| - r] == done[..|done| - r];
  }

  lemma FlatSnoc(items: seq<ClItem>, it: ClItem)
    ensures Flat(items + [it]) == Flat(items) + (if it.sym < 16 then [it.sym] else [it.sym, it.extra])
    ensures forall s :: ItemUses(items + [it], s) == ItemUses(items, s) + (if it.sym == s then 1 else 0)
  {
    assert (items + [it])[..|items|] == items;
  }

  lemma NothingPending(items: seq<ClItem>, done: seq<nat>)
    requires Pending(items, 0, 0, done)
    ensures Unpack(items) == Some(done)
  {
    assert done[..|done|] == done;
  }

  lemma PendingFacts(items: seq<ClItem>, z: nat, r: nat, done: seq<nat>)
    requires Pending(items, z, r, done)
    ensures z + r <= |done| && (z == 0 || r == 0)
    ensures z > 0 ==> done[|done| - z] == 0
    ensures r > 0 ==> done[|done| - r] == done[|done| - 1]
    ensures done != [] && done[|done| - 1] != 0 ==> z == 0
  {
    if r > 1 {
      assert done[|done| - 1] == done[|done| - r - 1];
    }
  }

  lemma {:induction false} NoCounts(c: seq<nat>)
    requires forall i :: 0 <= i < |c| ==> c[i] == 0
    ensures SumCounts(c) == 0
  {
    if c != [] { NoCounts(c[..|c| - 1]); }
  }

  // ---------------------------------------------------------------- the packing of a sequence

  function Times(it: ClItem, n: nat): (r: seq<ClItem>)
    ensures |r| == n
  {
    seq(n, (i: nat) => it)
  }

  /** How many of the last lengths are the same. */
  function LastRun(lens: seq<nat>): (m: nat)
    ensures m <= |lens| && (lens != [] ==> m > 0)
    ensures forall k :: |lens| - m <= k < |lens| ==> lens[k] == lens[|lens| - 1]
    ensures m < |lens| ==> lens[|lens| - m - 1] != lens[|lens| - 1]
  {
    var n := |lens|;
    if n == 0 then 0 else if n > 1 && lens[n - 2] == lens[n - 1] then LastRun(lens[..n - 1]) + 1 else 1
  }

  /** The rest of a run of zeros: symbol 17 for 3 to 10 of them, 18 for more. */
  function ZeroRest(z: nat): seq<ClItem> {
    if z < 3 then Times(ClItem(0, 0), z) else if z <= 10 then [ClItem(17, z - 3)] else [ClItem(18, z - 11)]
  }

  /** The rest of a run of another length: symbol 16 for 3 to 6 repeats. */
  function RepeatRest(size: nat, r: nat): seq<ClItem> {
    if r < 3 then Times(ClItem(size, 0), r) else [ClItem(16, r - 3)]
  }

  /** A run of `m` lengths: as many longest repeats as there is room for, and the rest. */
  function RunItems(size: nat, m: nat): seq<ClItem>
    requires m > 0
  {
    if size == 0 then Times(ClItem(18, 127), m / 138) + ZeroRest(m % 138)
    else [ClItem(size, 0)] + Times(ClItem(16, 3), (m - 1) / 6) + RepeatRest(size, (m - 1) % 6)
  }

  /** The lengths, run by run. */
  function Packing(lens: seq<nat>): seq<ClItem> {
    if lens == [] then []
    else
      var m := LastRun(lens);
      Packing(lens[..|lens| - m]) + RunItems(lens[|lens| - 1], m)
  }

  /** In a run of `m` zeros, `z` of them not yet sent. */
  ghost predicate InZeros(items: seq<ClItem>, z: nat, before: seq<ClItem>, m: nat) {
    z == m % 138 && items == before + Times(ClItem(18, 127), m / 138)
  }

  /** In a run of `m` lengths `size`, `r` repeats not yet sent. */
  ghost predicate InRepeats(items: seq<ClItem>, r: nat, before: seq<ClItem>, size: nat, m: nat) {
    m > 0 && r == (m - 1) % 6 && items == before + [ClItem(size, 0)] + Times(ClItem(16, 3), (m - 1) / 6)
  }

  /** What has been sent when `z` zeros and `r` repeats have not. */
  ghost predicate RunBegun(items: seq<ClItem>, z: nat, r: nat, done: seq<nat>) {
    if done == [] then items == [] && z == r == 0
    else
      var m, size := LastRun(done), done[|done| - 1];
      var before := Packing(done[..|done| - m]);
      if size == 0 then r == 0 && InZeros(items, z, before, m) else z == 0 && InRepeats(items, r, before, size, m)
  }

  ghost function Rest(z: nat, r: nat, done: seq<nat>): seq<ClItem> {
    if done == [] then [] else if done[|done| - 1] == 0 then ZeroRest(z) else RepeatRest(done[|done| - 1], r)
  }

  lemma JoinThree(a: seq<ClItem>, b: seq<ClItem>, c: seq<ClItem>, d: seq<ClItem>)
    ensures a + b + c + d == a + (b + c + d) && a + b + c == a + (b + c)
  {
  }

  lemma RunIs(items: seq<ClItem>, z: nat, r: nat, before: seq<ClItem>, size: nat, m: nat)
    requires m > 0 && if size == 0 then InZeros(items, z, before, m) else InRepeats(items, r, before, size, m)
    ensures items + (if size == 0 then ZeroRest(z) else RepeatRest(size, r)) == before + RunItems(size, m)
  {
    hide Times, ZeroRest, RepeatRest;
    if size == 0 {
      JoinThree(before, Times(ClItem(18, 127), m / 138), ZeroRest(z), []);
    } else {
      JoinThree(before, [ClItem(size, 0)], Times(ClItem(16, 3), (m - 1) / 6), RepeatRest(size, r));
    }
  }

  lemma RunEnds(items: seq<ClItem>, z: nat, r: nat, done: seq<nat>)
    requires RunBegun(items, z, r, done)
    ensures items + Rest(z, r, done) == Packing(done)
  {
    hide ZeroRest, RepeatRest, LastRun, InZeros, InRepeats, RunItems;
    if done != [] {
      var m := LastRun(done);
      RunIs(items, z, r, Packing(done[..|done| - m]), done[|done| - 1], m);
    }
  }

  lemma SnocPrefix(done: seq<nat>, size: nat, k: nat)
    requires k <= |done|
    ensures (done + [size])[..k] == done[..k] && done[..|done|] == done
  {
  }

  lemma RunSnoc(done: seq<nat>, size: nat)
    ensures var more := done != [] && done[|done| - 1] == size;
            LastRun(done + [size]) == (if more then LastRun(done) + 1 else 1) &&
            (done + [size])[..|done| + 1 - LastRun(done + [size])] == if more then done[..|done| - LastRun(done)] else done
  {
    var d := done + [size];
    SnocPrefix(done, size, |done|);
    assert d[|done|] == size;
    if done != [] && done[|done| - 1] == size {
      assert LastRun(d) == LastRun(done) + 1;
      SnocPrefix(done, size, |done| - LastRun(done));
    }
  }

  lemma TimesMore(it: ClItem, n: nat)
    ensures Times(it, n) + [it] == Times(it, n + 1)
  {
  }

  lemma RoomInRun(a: nat, n: nat)
    requires n > 0
    ensures if a % n + 1 == n then (a + 1) % n == 0 && (a + 1) / n == a / n + 1 else (a + 1) % n == a % n + 1 && (a + 1) / n == a / n
  {
    var q, r := a / n, a % n;
    assert a == n * q + r;
    if r + 1 == n {
      assert a + 1 == 0 + n * (q + 1) by { MulDistrib(q, 1, n); }
      DivModUnique(0, q + 1, n);
    } else {
      DivModUnique(r + 1, q, n);
    }
  }

  lemma InZerosNext(items: seq<ClItem>, z: nat, before: seq<ClItem>, m: nat)
    requires InZeros(items, z, before, m)
    ensures if z + 1 < 138 then InZeros(items, z + 1, before, m + 1) else InZeros(items + [ClItem(18, 127)], 0, before, m + 1)
  {
    hide Times;
    RoomInRun(m, 138);
    TimesMore(ClItem(18, 127), m / 138);
    JoinThree(before, Times(ClItem(18, 127), m / 138), [ClItem(18, 127)], []);
  }

  lemma InRepeatsNext(items: seq<ClItem>, r: nat, before: seq<ClItem>, size: nat, m: nat)
    requires InRepeats(items, r, before, size, m)
    ensures if r + 1 < 6 then InRepeats(items, r + 1, before, size, m + 1) else InRepeats(items + [ClItem(16, 3)], 0, before, size, m + 1)
  {
    hide Times;
    RoomInRun(m - 1, 6);
    TimesMore(ClItem(16, 3), (m - 1) / 6);
    JoinThree(before + [ClItem(size, 0)], Times(ClItem(16, 3), (m - 1) / 6), [ClItem(16, 3)], []);
  }

  /** One more zero in a run of zeros. */
  lemma ZeroGoesOn(items: seq<ClItem>, z: nat, done: seq<nat>)
    requires RunBegun(items, z, 0, done) && done != [] && done[|done| - 1] == 0
    ensures if z + 1 < 138 then RunBegun(items, z + 1, 0, done + [0]) else RunBegun(items + [ClItem(18, 127)], 0, 0, done + [0])
  {
    hide LastRun, Packing, InZeros, InRepeats;
    RunSnoc(done, 0);
    InZerosNext(items, z, Packing(done[..|done| - LastRun(done)]), LastRun(done));
  }

  /** One more length in a run of another. */
  lemma RepeatGoesOn(items: seq<ClItem>, r: nat, done: seq<nat>)
    requires RunBegun(items, 0, r, done) && done != [] && done[|done| - 1] != 0
    ensures var done' := done + [done[|done| - 1]];
            if r + 1 < 6 then RunBegun(items, 0, r + 1, done') else RunBegun(items + [ClItem(16, 3)], 0, 0, done')
  {
    hide LastRun, Packing, InZeros, InRepeats;
    var size := done[|done| - 1];
    RunSnoc(done, size);
    InRepeatsNext(items, r, Packing(done[..|done| - LastRun(done)]), size, LastRun(done));
  }

  lemma FirstOfRun(before: seq<ClItem>, size: nat)
    ensures InZeros(before, 1, before, 1) && InRepeats(before + [ClItem(size, 0)], 0, before, size, 1)
  {
    assert before + [] == before && before + [ClItem(size, 0)] + [] == before + [ClItem(size, 0)];
  }

  /** The start of a run. */
  lemma NewRun(done: seq<nat>, size: nat)
    requires done == [] || done[|done| - 1] != size
    ensures if size == 0 then RunBegun(Packing(done), 1, 0, done + [size])
            else RunBegun(Packing(done) + [ClItem(size, 0)], 0, 0, done + [size])
  {
    hide LastRun, Packing, InZeros, InRepeats;
    RunSnoc(done, size);
    FirstOfRun(Packing(done), size);
  }

  /** Zeros are held back only in a run of zeros, repeats only in another; without any the packing is
      complete. */
  lemma BegunFacts(items: seq<ClItem>, z: nat, r: nat, done: seq<nat>)
    requires RunBegun(items, z, r, done)
    ensures done == [] || done[|done| - 1] != 0 ==> z == 0
    ensures done == [] || done[|done| - 1] == 0 ==> r == 0
    ensures Packing(done) == if r > 0 then items + RepeatRest(done[|done| - 1], r) else if z > 0 then items + ZeroRest(z) else items
  {
    RunEnds(items, z, r, done);
    hide LastRun, Packing, InZeros, InRepeats;
    assert items + [] == items;
  }

  lemma WholeRest()
    ensures ZeroRest(138) == [ClItem(18, 127)] && forall size :: RepeatRest(size, 6) == [ClItem(16, 3)]
  {
  }

  /** The local variables of the packing loop. */
  class Packer {
    const packed: array<nat>    // packed_code_sizes
    const counts: array<nat>    // m_huff_count[2]
    var n: nat                  // num_packed_code_sizes
    var zeros: nat              // rle_z_count
    var repeats: nat            // rle_repeat_count
    var prev: nat               // prev_code_size
    ghost var items: seq<ClItem>
    ghost var done: seq<nat>    // the code sizes seen so far

    ghost predicate Shape() {
      packed.Length == MAX_CODE_SIZES && counts.Length == 19 && packed != counts
    }

    /** The histogram is that of the items, `owed` plain lengths `size` counted in advance. */
    ghost predicate Counts(owed: nat, size: nat)
      requires Shape()
      reads this, counts
    {
      (forall s :: 0 <= s < 19 ==> counts[s] == ItemUses(items, s) + (if s == size then owed else 0)) &&
      SumCounts(counts[..]) == |items| + owed
    }

    ghost predicate Packed()
      requires Shape()
      reads this, packed
    {
      n <= packed.Length && packed[..n] == Flat(items) && AllValidItems(items)
    }

    ghost predicate Sizes()
      reads this
    {
      |done| <= MAX_CODE_SIZES && (forall k :: 0 <= k < |done| ==> done[k] <= 15) &&
      prev == (if done == [] then 255 else done[|done| - 1])
    }

    /** With `z` zeros and `r` repeats still to be sent. */
    ghost predicate Holds(z: nat, r: nat)
      reads this, packed, counts
    {
      Shape() && Packed() && Sizes() && n + z + r <= |done| && Pending(items, z, r, done)
    }

    ghost predicate Valid()
      reads this, packed, counts
    {
      Holds(zeros, repeats) && Counts(0, 0) && zeros < 138 && repeats < 6 && RunBegun(items, zeros, repeats, done)
    }

    constructor ()
      ensures Valid() && fresh(this) && fresh(packed) && fresh(counts) && done == []
    {
      packed := new nat[MAX_CODE_SIZES];
      counts := new nat[19](_ => 0);
      n, zeros, repeats, prev, items, done := 0, 0, 0, 255, [], [];
      new;
      NoCounts(counts[..]);
    }

    method Count(s: nat, k: nat)
      requires Shape() && s < 19 && Counts(0, s) && |items| + k <= 65535
      modifies counts
      ensures Counts(k, s)
    {
      hide ItemUses;
      CountBelowSum(counts[..], s);
      SumUpdate(counts[..], s, counts[s] + k);
      ghost var c := counts[..];
      counts[s] := (counts[s] + k) % 65536;
      assert counts[..] == c[s := c[s] + k];
    }

    /** Write a plain code length, already counted, to the packed array. */
    method PutPlain(size: nat, ghost owed: nat)
      requires Shape() && Packed() && n < packed.Length && size < 16 && Counts(owed, size) && owed > 0
      modifies this`n, this`items, packed
      ensures Packed() && n == old(n) + 1 && items == old(items) + [ClItem(size, 0)] && Counts(owed - 1, size)
    {
      hide Flat, ItemUses;
      ghost var it := ClItem(size, 0);
      FlatSnoc(items, it);
      packed[n] := size;
      n, items := n + 1, items + [it];
      assert packed[..n] == old(packed[..n]) + [size];
    }

    /** Write a repeat symbol, already counted, and its extra bits. */
    method PutRun(sym: nat, extra: nat)
      requires Shape() && Packed() && n + 1 < packed.Length && ValidItem(ClItem(sym, extra)) && 16 <= sym && Counts(1, sym)
      modifies this`n, this`items, packed
      ensures Packed() && n == old(n) + 2 && items == old(items) + [ClItem(sym, extra)] && Counts(0, sym)
    {
      hide Flat, ItemUses;
      ghost var it := ClItem(sym, extra);
      FlatSnoc(items, it);
      packed[n] := sym;
      packed[n + 1] := extra;
      n, items := n + 2, items + [it];
      assert packed[..n] == old(packed[..n]) + [sym, extra];
    }

    method PlainRepeats()
      requires Holds(0, repeats) && Counts(0, 0) && 0 < repeats < 3
      modifies this`n, this`items, this`repeats, packed, counts
      ensures Holds(0, repeats) && Counts(0, 0) && repeats == 0
      ensures items == old(items) + Times(ClItem(prev, 0), old(repeats))
    {
      hide Flat, ItemUses, Pending, SumCounts;
      PendingFacts(items, 0, repeats, done);
      Count(prev, repeats);
      while repeats > 0
        invariant Holds(0, repeats) && Counts(repeats, prev) && repeats <= old(repeats) < 3
        invariant items == old(items) + Times(ClItem(prev, 0), old(repeats) - repeats)
      {
        TimesMore(ClItem(prev, 0), old(repeats) - repeats);
        PendingFacts(items, 0, repeats, done);
        OneCovered(items, 0, repeats, done, ClItem(prev, 0));
        PutPlain(prev, repeats);
        repeats := repeats - 1;
      }
    }

    method PlainZeros()
      requires Holds(zeros, 0) && Counts(0, 0) && 0 < zeros < 3
      modifies this`n, this`items, this`zeros, packed, counts
      ensures Holds(zeros, 0) && Counts(0, 0) && zeros == 0
      ensures items == old(items) + Times(ClItem(0, 0), old(zeros))
    {
      hide Flat, ItemUses, Pending, SumCounts;
      PendingFacts(items, zeros, 0, done);
      Count(0, zeros);
      while zeros > 0
        invariant Holds(zeros, 0) && Counts(zeros, 0) && zeros <= old(zeros) < 3
        invariant items == old(items) + Times(ClItem(0, 0), old(zeros) - zeros)
      {
        TimesMore(ClItem(0, 0), old(zeros) - zeros);
        PendingFacts(items, zeros, 0, done);
        OneCovered(items, zeros, 0, done, ClItem(0, 0));
        PutPlain(0, zeros);
        zeros := zeros - 1;
      }
    }

    /** `TDEFL_RLE_PREV_CODE_SIZE`. */
    method FlushRepeats()
      requires Holds(zeros, repeats) && Counts(0, 0) && repeats <= 6
      modifies this`n, this`items, this`repeats, packed, counts
      ensures Holds(zeros, repeats) && Counts(0, 0) && repeats == 0
      ensures items == if old(repeats) > 0 then old(items) + RepeatRest(prev, old(repeats)) else old(items)
    {
      hide Flat, ItemUses, Pending;
      PendingFacts(items, zeros, repeats, done);
      if repeats != 0 {
        if repeats < 3 {
          PlainRepeats();
        } else {
          Count(16, 1);
          RepeatsCovered(items, repeats, done, ClItem(16, repeats - 3));
          PutRun(16, repeats - 3);
        }
        repeats := 0;
      }
    }

    /** `TDEFL_RLE_ZERO_CODE_SIZE`. */
    method FlushZeros()
      requires Holds(zeros, repeats) && Counts(0, 0) && zeros <= 138
      modifies this`n, this`items, this`zeros, packed, counts
      ensures Holds(zeros, repeats) && Counts(0, 0) && zeros == 0
      ensures items == if old(zeros) > 0 then old(items) + ZeroRest(old(zeros)) else old(items)
    {
      hide Flat, ItemUses, Pending;
      Pow2Values();
      PendingFacts(items, zeros, repeats, done);
      if zeros != 0 {
        if zeros < 3 {
          PlainZeros();
        } else if zeros <= 10 {
          Count(17, 1);
          ZerosCovered(items, zeros, done, ClItem(17, zeros - 3));
          PutRun(17, zeros - 3);
        } else {
          Count(18, 1);
          ZerosCovered(items, zeros, done, ClItem(18, zeros - 11));
          PutRun(18, zeros - 11);
        }
        zeros := 0;
      }
    }

    method AddZero()
      requires Valid() && |done| < MAX_CODE_SIZES
      modifies this, packed, counts
      ensures Valid() && done == old(done) + [0]
    {
      hide Flat, ItemUses, Pending, SumCounts, RunBegun, Packing, ZeroRest, RepeatRest;
      BegunFacts(items, zeros, repeats, done);
      FlushRepeats();
      ZeroPending(items, zeros, done);
      if prev == 0 { ZeroGoesOn(items, zeros, done); } else { NewRun(done, 0); }
      zeros, done, prev := zeros + 1, done + [0], 0;
      if zeros == 138 {
        FlushZeros();
        WholeRest();
      }
    }

    /** The same length again. */
    method AddRepeat()
      requires Valid() && zeros == 0 && |done| < MAX_CODE_SIZES && done != [] && prev != 0
      modifies this, packed, counts
      ensures Valid() && done == old(done) + [old(prev)]
    {
      hide Flat, ItemUses, Pending, SumCounts, RunBegun, Packing, ZeroRest, RepeatRest;
      RepeatPending(items, repeats, done);
      RepeatGoesOn(items, repeats, done);
      repeats, done := repeats + 1, done + [prev];
      if repeats == 6 {
        FlushRepeats();
        WholeRest();
      }
    }

    /** A length that is not the one before. */
    method AddOther(size: nat)
      requires Holds(0, repeats) && Counts(0, 0) && zeros == 0 && repeats < 6 && 1 <= size <= 15 && |done| < MAX_CODE_SIZES && size != prev
      requires Packing(done) == if repeats > 0 then items + RepeatRest(prev, repeats) else items
      modifies this, packed, counts
      ensures Valid() && done == old(done) + [size]
    {
      hide Flat, ItemUses, Pending, SumCounts, RunBegun, Packing, ZeroRest, RepeatRest;
      FlushRepeats();
      NewRun(done, size);
      Count(size, 1);
      NewCovered(items, done, size);
      PutPlain(size, 1);
      done, prev := done + [size], size;
    }

    method AddLength(size: nat)
      requires Valid() && 1 <= size <= 15 && |done| < MAX_CODE_SIZES
      modifies this, packed, counts
      ensures Valid() && done == old(done) + [size]
    {
      hide Flat, ItemUses, Pending, SumCounts, RunBegun, Packing, ZeroRest, RepeatRest;
      BegunFacts(items, zeros, repeats, done);
      FlushZeros();
      if size != prev {
        AddOther(size);
      } else {
        AddRepeat();
      }
    }

    /** The loop body: one more code length. */
    method Add(size: nat)
      requires Valid() && size <= 15 && |done| < MAX_CODE_SIZES
      modifies this, packed, counts
      ensures Valid() && done == old(done) + [size]
    {
      hide *;
      if size == 0 {
        AddZero();
      } else {
        AddLength(size);
      }
    }

    /** After the loop: send what is still pending. */
    method Finish()
      requires Valid()
      modifies this, packed, counts
      ensures Shape() && Packed() && n <= |done| && Counts(0, 0) && done == old(done)
      ensures Unpack(items) == Some(done) && items == Packing(done)
    {
      hide RunBegun, Packing, ZeroRest, RepeatRest, Flat, ItemUses, SumCounts, Pending;
      BegunFacts(items, zeros, repeats, done);
      if repeats != 0 { FlushRepeats(); } else { FlushZeros(); }
      NothingPending(items, done);
    }
  }
}
