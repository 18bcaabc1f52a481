/** `tdefl_optimize_huffman_table`: from symbol counts to code lengths and codes. */
module HuffmanTables {
  import opened Bits
  import opened Canonical
  import opened Blocks
  import opened CodeLengths
  import opened UsedSymbols

  // ---------------------------------------------------------------- code assignment

  ghost predicate CodesAt(codes: seq<nat>, lens: seq<nat>, n: nat) {
    n <= |lens| <= |codes| &&
    forall s :: 0 <= s < n && lens[s] > 0 ==> codes[s] == FromBits(CodeBits(lens, s))
  }

  lemma CodeBitsDef(lens: seq<nat>, s: nat)
    requires s < |lens|
    ensures CodeBits(lens, s) == Rev(ToBits(CodeVal(lens, s), lens[s]))
  {
  }

  class HuffTable {
    const sizes: array<nat>   // m_huff_code_sizes[t]
    const codes: array<nat>   // m_huff_codes[t]

    ghost predicate Shape(n: nat) {
      sizes.Length == n && codes.Length == n && sizes != codes
    }

    /** Every symbol with a length has the canonical code of that length. */
    ghost predicate Ready()
      reads sizes, codes
    {
      sizes.Length == codes.Length && CodesAt(codes[..], sizes[..], sizes.Length)
    }

    constructor (n: nat)
      ensures Shape(n) && fresh(sizes) && fresh(codes)
    {
      sizes := new nat[n];
      codes := new nat[n];
    }

    method NextCodes(num: array<int>, limit: nat) returns (next: array<nat>)
      requires num.Length == 33 && 1 <= limit <= 15 && Counted(num[..], sizes[..], sizes.Length, limit)
      ensures fresh(next) && next.Length == 33
      ensures forall l :: 1 <= l <= limit ==> next[l] == FirstCode(sizes[..], l, sizes.Length)
    {
      next := new nat[33];
      ghost var lens := sizes[..];
      FirstCodeOne(lens, |lens|);
      next[1] := 0;
      var i, j := 2, 0;
      while i <= limit
        invariant 2 <= i <= limit + 1 && lens == sizes[..] && num[..] == old(num[..])
        invariant j == next[i - 1]
        invariant forall l :: 1 <= l < i ==> next[l] == FirstCode(lens, l, |lens|)
      {
        FirstCodeStep(lens, i - 1, |lens|);
        assert num[..][i - 1] == CountLen(lens, i - 1, |lens|);
        j := (j + num[i - 1]) * 2;
        next[i] := j;
        i := i + 1;
      }
    }

    /** The last part of `tdefl_optimize_huffman_table`: codes from lengths. */
    method AssignCodes(num: array<int>, limit: nat)
      requires Shape(sizes.Length) && num.Length == 33 && 1 <= limit <= 15
      requires Counted(num[..], sizes[..], sizes.Length, limit)
      requires forall s :: 0 <= s < sizes.Length ==> sizes[s] <= limit
      modifies codes
      ensures Ready()
    {
      hide CodeBits, FromBits;
      ghost var lens := sizes[..];
      var next := NextCodes(num, limit);
      for i := 0 to sizes.Length
        invariant lens == sizes[..]
        invariant CodesAt(codes[..], lens, i)
        invariant forall l :: 1 <= l <= limit ==> next[l] == FirstCode(lens, l, |lens|) + CountLen(lens, l, i)
      {
        var size := sizes[i];
        if size != 0 {
          var code := next[size];
          next[size] := next[size] + 1;
          assert code == CodeVal(lens, i);
          var rev := ReverseCode(code, size);
          CodeBitsDef(lens, i);
          codes[i] := rev;
        }
      }
    }

    /** The dynamic branch: lengths chosen by frequency. */
    method OptimizeDynamic(counts: array<nat>, limit: nat)
      requires Shape(counts.Length) && counts.Length <= 288 && counts != sizes && counts != codes
      requires SumCounts(counts[..]) <= 65535 && 1 <= limit <= 15 && counts.Length <= Pow2(limit)
      modifies sizes, codes
      ensures GoodLengths(counts[..], sizes[..], limit) && Ready()
    {
      hide SumCounts, Pow2, Counted, CodesAt, Acceptable;
      var num := ChooseLengths(counts, sizes, limit);
      ghost var c, l, b := counts[..], sizes[..], num[..];
      forall i | 0 <= i < codes.Length { codes[i] := 0; }
      assert num[..] == b && sizes[..] == l;
      AssignCodes(num, limit);
      assert counts[..] == c && sizes[..] == l;
    }

    /** The static branch: the lengths are given. */
    method OptimizeStatic()
      requires Shape(sizes.Length) && forall s :: 0 <= s < sizes.Length ==> sizes[s] <= 15
      modifies codes
      ensures Ready()
    {
      hide CodeBits, FromBits;
      var num := new int[33](_ => 0);
      ghost var lens := sizes[..];
      for i := 0 to sizes.Length
        invariant lens == sizes[..] && num.Length == 33 && fresh(num)
        invariant Counted(num[..], lens, i, 15)
      {
        num[sizes[i]] := num[sizes[i]] + 1;
      }
      AssignCodes(num, 15);
    }
  }
}
