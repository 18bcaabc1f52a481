/** The sliding window of the compressor: a 32 KB ring with its first bytes mirrored
    at the end, hash chains through it, and the lookahead inside it. */
module Windows {
  import opened Bits
  import opened Deflate
  import opened HashChains

  const DICT_SIZE := 32768      // TDEFL_LZ_DICT_SIZE
  const MAX_MATCH := 258        // TDEFL_MAX_MATCH_LEN
  const MIN_MATCH := 3          // TDEFL_MIN_MATCH_LEN
  const MIRROR := 257           // TDEFL_MAX_MATCH_LEN - 1
  const WORD := 0x1_0000_0000   // positions are mz_uint

  /** The source really repeats: `len` bytes at `p` are those `dist` bytes earlier. */
  ghost predicate Genuine(src: seq<byte>, p: nat, len: nat, dist: nat) {
    1 <= dist <= p && p + len <= |src| && forall x :: p <= x < p + len ==> src[x] == src[x - dist]
  }

  /** Copying a genuine match gives the next bytes of the source. */
  lemma {:induction false} GenuineCopy(src: seq<byte>, p: nat, len: nat, dist: nat)
    requires Genuine(src, p, len, dist)
    ensures Copy(src[..p], len, dist) == src[..p + len]
  {
    if len > 0 {
      GenuineCopy(src, p, len - 1, dist);
      var c := src[..p + len - 1];
      assert c[|c| - dist] == src[p + len - 1 - dist];
      assert c + [src[p + len - 1]] == src[..p + len];
    }
  }

  lemma NextPlace(n: nat)
    ensures (n % DICT_SIZE + 1) % DICT_SIZE == (n + 1) % DICT_SIZE
  {
  }

  datatype ProbeResult = Stop | Miss | Hit

  lemma RingMultiple(a: int, b: int, k: int)
    requires a == b + DICT_SIZE * k
    ensures a % DICT_SIZE == b % DICT_SIZE
  {
  }

  /** A position on 32 bits has the same place in the ring. */
  lemma WordPlace(p: int)
    ensures p % WORD % DICT_SIZE == p % DICT_SIZE
  {
    RingMultiple(p % WORD, p, -131072 * (p / WORD));
  }

  /** So has the one next to it. */
  lemma WordNext(p: int, k: int)
    ensures (p % WORD + k) % WORD == (p + k) % WORD && (p % WORD + k) % DICT_SIZE == (p + k) % DICT_SIZE
  {
    var q := p / WORD;
    assert p % WORD + k == p + k - WORD * q;
    RingMultiple(p % WORD + k, p + k, -131072 * q);
  }

  lemma WordEntry(p: int)
    ensures p % WORD % 65536 == p % 65536
  {
    var q := p / WORD;
    var a, b := p / 65536, p % 65536;
    assert p % WORD == b + 65536 * (a - 65536 * q);
    DivModUnique(b, a - 65536 * q, 65536);
  }

  lemma WordDifference(p: nat, q: nat)
    requires q <= p < q + WORD
    ensures (p % WORD - q % WORD) % WORD == p - q
  {
    var k := p / WORD - q / WORD;
    assert p % WORD - q % WORD == p - q - WORD * k;
    DivModUnique(p - q, -k, WORD);
  }

  /** The 16-bit difference of positions on 32 bits gives the same place in the ring. */
  lemma RingBack(p: nat, q: nat, d: nat)
    requires d == (p % WORD - q) % 65536
    ensures d <= p ==> (p - d) % DICT_SIZE == q % DICT_SIZE
  {
    var k := (p % WORD - q) / 65536;
    assert p - d == q + 65536 * k + WORD * (p / WORD);
    RingMultiple(p - d, q, 2 * k + 131072 * (p / WORD));
  }

  predicate Agree(d: seq<byte>, a: nat, b: nat, i: nat) {
    a + i < |d| && b + i < |d| && d[a + i] == d[b + i]
  }

  ghost predicate HeldAt(d: seq<byte>, src: seq<byte>, x: nat)
    requires |d| == DICT_SIZE + MIRROR
  {
    x < |src| && d[x % DICT_SIZE] == src[x] && (x % DICT_SIZE < MIRROR ==> d[DICT_SIZE + x % DICT_SIZE] == src[x])
  }

  lemma RingIndex(p: nat, i: nat)
    requires i <= MIRROR
    ensures if p % DICT_SIZE + i < DICT_SIZE then (p + i) % DICT_SIZE == p % DICT_SIZE + i
            else (p + i) % DICT_SIZE == p % DICT_SIZE + i - DICT_SIZE < MIRROR
  {
  }

  /** Following a chain from `p`: `at` is the place of its `k`th position, unless the chain has been
      left there (`on` is false). */
  ghost predicate OnChain(src: seq<byte>, floor: nat, p: nat, dictSize: nat, k: nat, on: bool, at: nat) {
    p + 2 < |src| ==>
      Reached(src, floor, p, dictSize, k) &&
      if on then Back(src, floor, p, k) % DICT_SIZE == at else !Reached(src, floor, p, dictSize, k + 1)
  }

  /** The two bytes that a match longer than `len` would end with are also at the `k`th position. */
  ghost predicate Likely(src: seq<byte>, floor: nat, p: nat, k: nat, len: nat)
    requires 1 <= len && p + 2 < |src| && p + len < |src|
  {
    var q := Back(src, floor, p, k);
    q >= 0 && src[q + len] == src[p + len] && src[q + len - 1] == src[p + len - 1]
  }

  /** They are not at any position of the chain from the one after `lo` to `hi`. */
  ghost predicate Unlikely(src: seq<byte>, floor: nat, p: nat, lo: nat, hi: int, len: nat) {
    1 <= len && p + 2 < |src| && p + len < |src| ==> forall j :: lo < j <= hi ==> !Likely(src, floor, p, j, len)
  }

  ghost predicate BeatenAt(src: seq<byte>, p: nat, q: int, dist: nat, len: nat) {
    !Same(src, p, q, len + 1) && (p - q < dist ==> !Same(src, p, q, len))
  }

  /** At the first `k` positions of the chain no more than `len` bytes agree, and at those nearer than
      `dist` not even so many. */
  ghost predicate Beaten(src: seq<byte>, floor: nat, p: nat, k: nat, dist: nat, len: nat) {
    p + 2 < |src| ==> forall j :: 1 <= j <= k ==> BeatenAt(src, p, Back(src, floor, p, j), dist, len)
  }

  /** Of the positions that the chain leads to, none of the first `probes - 1` has a longer match, and
      none nearer than `dist` one as long. */
  ghost predicate Searched(src: seq<byte>, floor: nat, p: nat, dictSize: nat, probes: nat, dist: nat, len: nat) {
    p + 2 < |src| ==>
      forall k :: 1 <= k < probes && Reached(src, floor, p, dictSize, k) ==> BeatenAt(src, p, Back(src, floor, p, k), dist, len)
  }

  /** And as long as nothing looks likely, three positions count as one probe. */
  ghost predicate FirstTried(src: seq<byte>, floor: nat, p: nat, dictSize: nat, probes: nat, len0: nat, len: nat) {
    p + 2 < |src| ==>
      forall k :: 1 <= k <= 3 * (probes - 1) && Reached(src, floor, p, dictSize, k) && Unlikely(src, floor, p, 0, k - 1, len0) ==>
        !Same(src, p, Back(src, floor, p, k), len + 1)
  }

  lemma ReachedLess(src: seq<byte>, floor: nat, p: nat, dictSize: nat, j: nat, k: nat)
    requires j <= k && p + 2 < |src| && Reached(src, floor, p, dictSize, k)
    ensures Reached(src, floor, p, dictSize, j)
  {
    hide Back;
  }

  lemma SameAt(src: seq<byte>, p: nat, q: int, n: nat, i: nat)
    requires Same(src, p, q, n) && i < n
    ensures src[p + i] == src[q + i]
  {
    var x := p + i;
    assert src[x] == src[x - p + q];
  }

  lemma NotLikely(src: seq<byte>, floor: nat, p: nat, k: nat, len: nat)
    requires 1 <= len && p + 2 < |src| && p + len < |src| && !Likely(src, floor, p, k, len)
    ensures !Same(src, p, Back(src, floor, p, k), len + 1)
  {
    hide Back;
    var q := Back(src, floor, p, k);
    if Same(src, p, q, len + 1) {
      SameAt(src, p, q, len + 1, len);
      SameAt(src, p, q, len + 1, len - 1);
    }
  }

  lemma BackStep(src: seq<byte>, floor: nat, p: nat, k: nat)
    requires p + 2 < |src|
    ensures var q := Back(src, floor, p, k);
            (k == 0 ==> q == p) && Back(src, floor, p, k + 1) == if q < 0 then -1 else Latest(src, floor, HashAt(src, p), q)
  {
    hide HashAt, Latest;
  }

  lemma BackFalls(src: seq<byte>, floor: nat, p: nat, k: nat, j: nat)
    requires k <= j && p + 2 < |src| && Back(src, floor, p, j) >= 0
    ensures Back(src, floor, p, k) >= Back(src, floor, p, j) + (j - k)
    decreases j
  {
    hide HashAt, Latest;
    if k < j {
      BackStep(src, floor, p, j - 1);
      BackFalls(src, floor, p, k, j - 1);
    }
  }

  /** How far back the chain has been followed; the best match is no further. */
  ghost predicate NoFurther(src: seq<byte>, floor: nat, p: nat, k: nat, dist: nat) {
    p + 2 < |src| ==> dist <= p - Back(src, floor, p, k)
  }

  lemma UnlikelyBeaten(src: seq<byte>, floor: nat, p: nat, dictSize: nat, lo: nat, hi: nat, dist: nat, len: nat)
    requires 1 <= len && p + len < |src| && Unlikely(src, floor, p, lo, hi, len) && Beaten(src, floor, p, lo, dist, len)
    requires hi > lo && p + 2 < |src| ==> Reached(src, floor, p, dictSize, hi) && NoFurther(src, floor, p, lo, dist)
    ensures Beaten(src, floor, p, hi, dist, len)
  {
    hide Back, Likely, Same;
    if p + 2 < |src| {
      forall j | 1 <= j <= hi ensures BeatenAt(src, p, Back(src, floor, p, j), dist, len) {
        if j > lo {
          NotLikely(src, floor, p, j, len);
          BackFalls(src, floor, p, lo, j);
        }
      }
    }
  }

  lemma BeatenLonger(src: seq<byte>, p: nat, q: int, dist: nat, len: nat, dist': nat, len': nat)
    requires BeatenAt(src, p, q, dist, len) && ((dist' == dist && len' == len) || len < len')
    ensures BeatenAt(src, p, q, dist', len')
  {
  }

  lemma TriedLonger(src: seq<byte>, floor: nat, p: nat, dictSize: nat, probes: nat, len0: nat, len: nat, len': nat)
    requires FirstTried(src, floor, p, dictSize, probes, len0, len) && len <= len'
    ensures FirstTried(src, floor, p, dictSize, probes, len0, len')
  {
    hide Back, Reached, Unlikely;
  }

  /** Where the search ends, the probes are used up or the chain has been left. */
  lemma SearchEnds(
    src: seq<byte>, floor: nat, p: nat, dictSize: nat, probes: nat, k: nat, on: bool, at: nat, dist: nat, len: nat)
    requires OnChain(src, floor, p, dictSize, k, on, at) && Beaten(src, floor, p, k, dist, len) && (on ==> k + 1 >= probes)
    ensures Searched(src, floor, p, dictSize, probes, dist, len)
  {
    hide Back, BeatenAt, Reached;
    if p + 2 < |src| {
      forall j | 1 <= j < probes && Reached(src, floor, p, dictSize, j) ensures BeatenAt(src, p, Back(src, floor, p, j), dist, len) {
        if j > k { ReachedLess(src, floor, p, dictSize, k + 1, j); }
      }
    }
  }

  lemma TriedFirst(
    src: seq<byte>, floor: nat, p: nat, dictSize: nat, probes: nat, k: nat, on: bool, at: nat, len0: nat, dist: nat, len: nat)
    requires OnChain(src, floor, p, dictSize, k, on, at) && Beaten(src, floor, p, k, dist, len) && 1 <= len0 && p + len0 < |src|
    requires on && p + 2 < |src| ==> k >= 3 * (probes - 1) || (k > 0 && Likely(src, floor, p, k, len0))
    ensures FirstTried(src, floor, p, dictSize, probes, len0, len)
  {
    hide Back, Same, Reached, Likely;
    if p + 2 < |src| {
      forall j | 1 <= j <= 3 * (probes - 1) && Reached(src, floor, p, dictSize, j) && Unlikely(src, floor, p, 0, j - 1, len0)
        ensures !Same(src, p, Back(src, floor, p, j), len + 1)
      {
        if j > k { ReachedLess(src, floor, p, dictSize, k + 1, j); }
      }
    }
  }

  lemma SameLess(src: seq<byte>, p: nat, q: int, n: nat, m: nat)
    requires Same(src, p, q, n) && m <= n
    ensures Same(src, p, q, m)
  {
  }

  /** The last earlier position of the same three bytes is tried if there are two probes: whatever is
      the same there, what is found is not shorter. */
  lemma RepeatTried(src: seq<byte>, floor: nat, p: nat, dictSize: nat, probes: nat, dist: nat, len: nat, q: nat, n: nat)
    requires floor <= q < p && p + 2 < |src| && p - q <= dictSize && q % 65536 != 0 && 3 <= n && Same(src, p, q, n)
    requires forall x :: q < x < p ==> HashAt(src, x) != HashAt(src, p)
    requires probes >= 2 && Searched(src, floor, p, dictSize, probes, dist, len)
    ensures n <= len && (n == len ==> dist <= p - q)
  {
    hide Back;
    SameLess(src, p, q, n, 3);
    TripleFirst(src, floor, p, q);
    assert Reached(src, floor, p, dictSize, 1);
    if n > len { SameLess(src, p, q, n, len + 1); }
    assert BeatenAt(src, p, Back(src, floor, p, 1), dist, len);
  }

  /** Whether three bytes that were there before are found again hangs on where they were. */
  lemma RepeatFound(src: seq<byte>, floor: nat, p: nat, dictSize: nat, probes: nat, len0: nat, dist: nat, len: nat, q: nat)
    requires floor <= q < p && p + 2 < |src| && p - q <= dictSize && Same(src, p, q, 3) && len0 < 3 && probes >= 2
    requires forall x :: q < x < p ==> HashAt(src, x) != HashAt(src, p)
    requires Searched(src, floor, p, dictSize, probes, dist, len) && (dist == 0 ==> len == len0)
    requires Entry(Back(src, floor, p, 1)) == 0 ==> dist == 0
    ensures dist != 0 <==> q % 65536 != 0
  {
    hide Searched, Back, Same;
    TripleFirst(src, floor, p, q);
    if q % 65536 != 0 { RepeatTried(src, floor, p, dictSize, probes, dist, len, q, 3); }
  }

  /** But zero also stands for position 0, and for every 65536th after it: the second of four equal
      bytes starts what the first does, and yet its chain ends at once. */
  lemma RepeatMissed(c: byte)
    ensures var src := [c, c, c, c];
            Same(src, 1, 0, 3) && Back(src, 0, 1, 1) == 0 && Entry(0) == 0 && !Reached(src, 0, 1, 32768, 1)
  {
    hide Hash3;
    var src: seq<byte> := [c, c, c, c];
    assert HashAt(src, 0) == HashAt(src, 1);
    BackStep(src, 0, 1, 0);
  }

  lemma NotSameLonger(src: seq<byte>, p: nat, q: int, n: nat, m: nat)
    requires !Same(src, p, q, n) && n <= m
    ensures !Same(src, p, q, m)
  {
  }

  /** What the entry of the `k`th position says. */
  lemma ChainLink(next: seq<nat>, src: seq<byte>, floor: nat, p: nat, dictSize: nat, k: nat)
    requires Links(next, src, floor) && floor <= p && p + 2 < |src| <= p + DICT_SIZE - dictSize
    requires Reached(src, floor, p, dictSize, k + 1)
    ensures var q, r := Back(src, floor, p, k), Back(src, floor, p, k + 1);
            q >= 0 && 0 <= r < p && p - r <= dictSize && next[q % DICT_SIZE] == r % 65536 != 0
  {
    hide Back, HashAt, Latest;
    var q, r := Back(src, floor, p, k), Back(src, floor, p, k + 1);
    BackStep(src, floor, p, k);
    assert k > 0 ==> p - q <= dictSize;
    assert LinkOk(next, src, floor, q);
  }

  lemma ShortDistance(p: nat, r: nat)
    requires r <= p < r + 65536
    ensures (p % WORD - r % 65536) % 65536 == p - r && r % 65536 % DICT_SIZE == r % DICT_SIZE
  {
    var a, b := p / WORD, r / 65536;
    assert p % WORD - r % 65536 == p - r + 65536 * (b - 65536 * a);
    DivModUnique(p - r, b - 65536 * a, 65536);
    RingMultiple(r % 65536, r, -2 * b);
  }

  class Window {
    const dict: array<byte>     // m_dict
    const next: array<nat>      // m_next
    const hash: array<nat>      // m_hash
    var pos32: nat              // m_lookahead_pos
    var lookaheadSize: nat      // m_lookahead_size
    var dictSize: nat           // m_dict_size
    ghost var src: seq<byte>    // all source bytes taken in so far
    ghost var lookaheadPos: nat // how many of them are behind the lookahead
    ghost var floor: nat        // how many of them have been forgotten by a full flush

    ghost predicate Shape() {
      dict.Length == DICT_SIZE + MIRROR && next.Length == DICT_SIZE && hash.Length == DICT_SIZE && next != hash &&
      dict as object != next && dict as object != hash
    }

    /** The dictionary is all that has not been forgotten, unless that is more than it can be. */
    ghost predicate Full(size: nat)
      reads this`lookaheadPos, this`floor
    {
      size == lookaheadPos - floor || size >= DICT_SIZE - MAX_MATCH
    }

    ghost predicate Sizes()
      reads this
    {
      dictSize + lookaheadSize <= DICT_SIZE && floor + dictSize <= lookaheadPos && lookaheadSize <= MAX_MATCH &&
      |src| == lookaheadPos + lookaheadSize && pos32 == lookaheadPos % WORD && Full(dictSize)
    }

    /** From source position `lo` on, the ring and its mirror hold the source. */
    ghost predicate Held(lo: int)
      requires Shape()
      reads this`src, dict
    {
      forall x :: 0 <= x && lo <= x < |src| ==> HeldAt(dict[..], src, x)
    }

    /** The chains lead through the source, from `floor` on. */
    ghost predicate Chained()
      reads this`src, this`floor, next, hash
    {
      Heads(hash[..], src, floor) && Links(next[..], src, floor)
    }

    ghost predicate Valid()
      reads this, dict, next, hash
    {
      Shape() && Sizes() && Held(lookaheadPos - dictSize) && Chained()
    }

    constructor ()
      ensures Valid() && fresh(this) && fresh(dict) && fresh(next) && fresh(hash)
      ensures src == [] && lookaheadPos == lookaheadSize == dictSize == floor == 0
      ensures dict.Length == 33025 && next.Length == 32768 && hash.Length == 32768
    {
      dict := new byte[DICT_SIZE + MIRROR];
      next := new nat[DICT_SIZE];
      hash := new nat[DICT_SIZE](_ => 0);
      pos32, lookaheadPos, lookaheadSize, dictSize, src, floor := 0, 0, 0, 0, [], 0;
    }

    /** Any index the match finder uses, mirrored or not, reads the right source byte. */
    lemma ReadAt(p: nat, i: nat)
      requires Valid() && lookaheadPos - dictSize <= p <= lookaheadPos && p + i < |src| && i <= MIRROR
      ensures p % DICT_SIZE + i < dict.Length && dict[p % DICT_SIZE + i] == src[p + i]
    {
      var k := p % DICT_SIZE + i;
      assert HeldAt(dict[..], src, p + i);
      RingIndex(p, i);
    }

    ghost predicate AtDistance(k: nat, dist: nat)
      reads this
    {
      lookaheadPos + 2 < |src| && 0 < dist == lookaheadPos - Back(src, floor, lookaheadPos, k)
    }

    /** From its `k0`th position the chain has been followed to the `k`th, which is likely if `result`
        is a hit; the others were not. */
    ghost predicate Passing(k0: nat, on0: bool, len: nat, result: ProbeResult, k: nat, on: bool, dist: nat, at: nat)
      requires 1 <= len < lookaheadSize && Sizes()
      reads this
    {
      OnChain(src, floor, lookaheadPos, dictSize, k, on, at) && k >= k0 && (on || k > k0 ==> on0) &&
      (result == Hit && on ==> k > k0 && AtDistance(k, dist) && Likely(src, floor, lookaheadPos, k, len)) &&
      Unlikely(src, floor, lookaheadPos, k0, if result == Hit && on then k - 1 else k, len)
    }

    lemma PassOne(k0: nat, on0: bool, len: nat, k: nat, on: bool, dist: nat, at: nat, result: ProbeResult, k': nat, on': bool,
                  dist': nat, at': nat)
      requires 1 <= len < lookaheadSize && Sizes() && Passing(k0, on0, len, Miss, k, on, dist, at)
      requires OnChain(src, floor, lookaheadPos, dictSize, k', on', at')
      requires if on' then on && k' == k + 1 && AtDistance(k', dist') else k' == k
      requires on' ==> lookaheadPos + 2 < |src| && (result == Hit <==> Likely(src, floor, lookaheadPos, k', len))
      ensures Passing(k0, on0, len, result, k', on', dist', at')
    {
      hide OnChain, Likely;
    }

    lemma NextOnChain(k: nat) returns (r: nat)
      requires Valid() && lookaheadPos + 2 < |src| && Reached(src, floor, lookaheadPos, dictSize, k + 1)
      ensures r == Back(src, floor, lookaheadPos, k + 1) && Back(src, floor, lookaheadPos, k) >= 0
      ensures r < lookaheadPos && lookaheadPos - r <= dictSize
      ensures next[Back(src, floor, lookaheadPos, k) % DICT_SIZE] == r % 65536 != 0
    {
      hide Held, Reached, Back;
      ChainLink(next[..], src, floor, lookaheadPos, dictSize, k);
      r := Back(src, floor, lookaheadPos, k + 1);
    }

    /** What the entry at a place of the chain leads to. */
    lemma EntryLeads(at: nat, len: nat, k: nat, on: bool) returns (k': nat, on': bool)
      requires Valid() && at < DICT_SIZE && 1 <= len < lookaheadSize && OnChain(src, floor, lookaheadPos, dictSize, k, on, at)
      ensures var v, d := next[at], (pos32 - next[at]) % 65536;
              if on' then
                on && k' == k + 1 && lookaheadPos + 2 < |src| && v != 0 && d <= dictSize && AtDistance(k', d) &&
                OnChain(src, floor, lookaheadPos, dictSize, k', true, v % DICT_SIZE) &&
                ((dict[v % DICT_SIZE + len] == src[lookaheadPos + len] &&
                  dict[v % DICT_SIZE + len - 1] == src[lookaheadPos + len - 1]) <==> Likely(src, floor, lookaheadPos, k', len))
              else k' == k
      ensures !on' ==> forall x :: OnChain(src, floor, lookaheadPos, dictSize, k, false, x)
    {
      hide Held, Reached, Back, Links, Heads;
      k', on' := k, false;
      if lookaheadPos + 2 < |src| && on && Reached(src, floor, lookaheadPos, dictSize, k + 1) {
        k', on' := k + 1, true;
        var r := NextOnChain(k);
        ShortDistance(lookaheadPos, r);
        ReadAt(r, len);
        ReadAt(r, len - 1);
      }
    }

    /** `TDEFL_PROBE`: follow the hash chain by one position. */
    method Probe(probePos: nat, matchLen: nat, c0: byte, c1: byte, ghost k0: nat, ghost on0: bool, ghost k: nat, ghost on: bool,
                 ghost dist0: nat)
      returns (result: ProbeResult, probePos': nat, dist: nat, ghost k': nat, ghost on': bool)
      requires Valid() && probePos < DICT_SIZE && 1 <= matchLen < lookaheadSize
      requires c0 == src[lookaheadPos + matchLen] && c1 == src[lookaheadPos + matchLen - 1]
      requires Passing(k0, on0, matchLen, Miss, k, on, dist0, probePos)
      ensures probePos' < DICT_SIZE && Passing(k0, on0, matchLen, result, k', on', dist, probePos')
      ensures result != Stop ==> dist <= dictSize && (lookaheadPos - dist) % DICT_SIZE == probePos'
      ensures (on' ==> on && k' == k + 1 && result != Stop) && (next[probePos] == 0 ==> result == Stop)
    {
      hide Held, Chained, OnChain, Likely, AtDistance, Unlikely;
      k', on' := EntryLeads(probePos, matchLen, k, on);
      var nextProbePos := next[probePos];
      dist := (pos32 - nextProbePos) % 65536;
      probePos' := probePos;
      result := Stop;
      if nextProbePos != 0 && dist <= dictSize {
        probePos' := nextProbePos % DICT_SIZE;
        RingBack(lookaheadPos, nextProbePos, dist);
        result := if dict[probePos' + matchLen] == c0 && dict[probePos' + matchLen - 1] == c1 then Hit else Miss;
      }
      PassOne(k0, on0, matchLen, k, on, dist0, probePos, result, k', on', dist, probePos');
    }

    lemma PassNone(k: nat, on: bool, len: nat, at: nat)
      requires 1 <= len < lookaheadSize && Sizes() && OnChain(src, floor, lookaheadPos, dictSize, k, on, at)
      ensures Passing(k, on, len, Miss, k, on, 0, at)
    {
      hide OnChain;
    }

    lemma Stopped(k0: nat, on0: bool, len: nat, k: nat, dist: nat, at: nat)
      requires 1 <= len < lookaheadSize && Sizes() && Passing(k0, on0, len, Stop, k, false, dist, at)
      ensures Passing(k0, on0, len, Miss, k, false, dist, at)
    {
    }

    /** The inner loop: follow the chain, three positions a round, to a likely match. */
    method FollowChain(probes: nat, probePos: nat, matchLen: nat, c0: byte, c1: byte, ghost k: nat, ghost on: bool)
      returns (found: bool, probes': nat, probePos': nat, dist: nat, ghost k': nat, ghost on': bool)
      requires Valid() && probes > 0 && probePos < DICT_SIZE && 1 <= matchLen < lookaheadSize
      requires c0 == src[lookaheadPos + matchLen] && c1 == src[lookaheadPos + matchLen - 1]
      requires OnChain(src, floor, lookaheadPos, dictSize, k, on, probePos)
      ensures probePos' < DICT_SIZE
      ensures found ==> 0 < probes' < probes && dist <= dictSize && (lookaheadPos - dist) % DICT_SIZE == probePos'
      ensures Passing(k, on, matchLen, if found then Hit else Miss, k', on', dist, probePos')
      ensures on' ==> k' >= k + if found then probes - probes' else 3 * (probes - 1)
      ensures next[probePos] == 0 ==> !found
    {
      hide Held, Chained, OnChain, Passing;
      probes', probePos', dist, k', on' := probes, probePos, 0, k, on;
      PassNone(k, on, matchLen, probePos);
      var result := Miss;
      while result == Miss
        invariant 0 < probes' <= probes && probePos' < DICT_SIZE && (result == Miss || probes' < probes)
        invariant result == Hit ==> dist <= dictSize && (lookaheadPos - dist) % DICT_SIZE == probePos'
        invariant Passing(k, on, matchLen, result, k', on', dist, probePos')
        invariant next[probePos] == 0 ==> result == Stop || (result == Miss && probes' == probes && probePos' == probePos)
        invariant on' ==> result != Stop && k' >= k + if result == Miss then 3 * (probes - probes') else probes - probes'
        decreases probes', result == Miss
      {
        probes' := probes' - 1;
        if probes' == 0 { return false, probes', probePos', dist, k', on'; }
        result, probePos', dist, k', on' := Probe(probePos', matchLen, c0, c1, k, on, k', on', dist);
        if result == Miss { result, probePos', dist, k', on' := Probe(probePos', matchLen, c0, c1, k, on, k', on', dist); }
        if result == Miss { result, probePos', dist, k', on' := Probe(probePos', matchLen, c0, c1, k, on, k', on', dist); }
      }
      found := result == Hit;
      if !found { Stopped(k, on, matchLen, k', dist, probePos'); }
    }

    /** How many bytes from `pos` and `probePos` on agree, up to `most`. */
    method Compare(pos: nat, probePos: nat, most: nat) returns (n: nat)
      requires Shape() && pos < DICT_SIZE && probePos < DICT_SIZE && most <= MAX_MATCH
      ensures n <= most && forall i :: 0 <= i < n ==> Agree(dict[..], pos, probePos, i)
      ensures n == most || dict[pos + n] != dict[probePos + n]
    {
      n := 0;
      while n < most && dict[pos + n] == dict[probePos + n]
        invariant n <= most && forall i :: 0 <= i < n ==> Agree(dict[..], pos, probePos, i)
      {
        n := n + 1;
      }
    }

    lemma AgreeGenuine(n: nat, dist: nat, pos: nat, probePos: nat)
      requires Valid() && 1 <= dist <= dictSize && n <= lookaheadSize
      requires pos == lookaheadPos % DICT_SIZE && probePos == (lookaheadPos - dist) % DICT_SIZE
      requires forall i :: 0 <= i < n ==> Agree(dict[..], pos, probePos, i)
      ensures Genuine(src, lookaheadPos, n, dist)
    {
      hide Held, Chained;
      forall x | lookaheadPos <= x < lookaheadPos + n ensures src[x] == src[x - dist] {
        var i := x - lookaheadPos;
        assert Agree(dict[..], pos, probePos, i);
        ReadAt(lookaheadPos, i);
        ReadAt(lookaheadPos - dist, i);
      }
    }

    /** Where the bytes of the ring differ, so do those of the source. */
    lemma Differ(n: nat, k: nat, pos: nat, probePos: nat)
      requires Valid() && n < lookaheadSize && lookaheadPos + 2 < |src| && Reached(src, floor, lookaheadPos, dictSize, k) && k > 0
      requires pos == lookaheadPos % DICT_SIZE && probePos == Back(src, floor, lookaheadPos, k) % DICT_SIZE
      requires dict[pos + n] != dict[probePos + n]
      ensures !Same(src, lookaheadPos, Back(src, floor, lookaheadPos, k), n + 1)
    {
      hide Held, Back, Chained;
      var q := Back(src, floor, lookaheadPos, k);
      ReadAt(lookaheadPos, n);
      ReadAt(q, n);
      assert src[lookaheadPos + n] != src[lookaheadPos + n - lookaheadPos + q];
    }

    lemma LastBeaten(dist0: nat, len0: nat, dist: nat, n: nat, k: nat, at: nat)
      requires Valid() && 1 <= len0 < lookaheadSize && n <= lookaheadSize && at < DICT_SIZE
      requires n == lookaheadSize || dict[lookaheadPos % DICT_SIZE + n] != dict[at + n]
      requires k > 0 && AtDistance(k, dist) && dist0 < dist && Reached(src, floor, lookaheadPos, dictSize, k)
      requires Back(src, floor, lookaheadPos, k) % DICT_SIZE == at
      ensures BeatenAt(src, lookaheadPos, Back(src, floor, lookaheadPos, k), if n > len0 then dist else dist0, Max(len0, n))
    {
      hide Held, Back, Chained, Reached;
      var q := Back(src, floor, lookaheadPos, k);
      if n < lookaheadSize {
        Differ(n, k, lookaheadPos % DICT_SIZE, at);
        NotSameLonger(src, lookaheadPos, q, n + 1, Max(len0, n) + 1);
      }
    }

    /** After `Compare` the `k`th position too is beaten. */
    lemma Compared(dist0: nat, len0: nat, dist: nat, n: nat, k: nat, on: bool, at: nat)
      requires Valid() && 1 <= len0 < lookaheadSize && n <= lookaheadSize && at < DICT_SIZE
      requires n == lookaheadSize || dict[lookaheadPos % DICT_SIZE + n] != dict[at + n]
      requires OnChain(src, floor, lookaheadPos, dictSize, k, on, at) && (on ==> k > 0 && AtDistance(k, dist) && dist0 < dist)
      requires Beaten(src, floor, lookaheadPos, if on then k - 1 else k, dist0, len0)
      ensures Beaten(src, floor, lookaheadPos, k, if n > len0 then dist else dist0, Max(len0, n))
    {
      hide Held, Back, Chained, Reached, BeatenAt;
      var p := lookaheadPos;
      if p + 2 < |src| {
        forall j | 1 <= j <= k ensures BeatenAt(src, p, Back(src, floor, p, j), if n > len0 then dist else dist0, Max(len0, n)) {
          if on && j == k {
            LastBeaten(dist0, len0, dist, n, k, at);
          } else {
            BeatenLonger(src, p, Back(src, floor, p, j), dist0, len0, if n > len0 then dist else dist0, Max(len0, n));
          }
        }
      }
    }

    /** How far the search has come, with `probes` of `all` probes left. */
    ghost predicate SoFar(all: nat, probes: nat, len0: nat, dist: nat, len: nat, k: nat, on: bool, first: bool, at: nat)
      reads this
    {
      OnChain(src, floor, lookaheadPos, dictSize, k, on, at) && Beaten(src, floor, lookaheadPos, k, dist, len) &&
      (on ==> k + probes >= all && NoFurther(src, floor, lookaheadPos, k, dist)) &&
      if first then k == 0 && probes == all && len == len0 else FirstTried(src, floor, lookaheadPos, dictSize, all, len0, len)
    }

    /** The positions that did not look likely are beaten. */
    lemma PassedBeaten(all: nat, probes: nat, len0: nat, dist: nat, len: nat, k: nat, on: bool, first: bool, at0: nat,
                       found: bool, k': nat, on': bool, dist': nat, at: nat)
      requires Valid() && 1 <= len < lookaheadSize && SoFar(all, probes, len0, dist, len, k, on, first, at0)
      requires Passing(k, on, len, if found then Hit else Miss, k', on', dist', at)
      ensures Beaten(src, floor, lookaheadPos, if found && on' then k' - 1 else k', dist, len)
    {
      hide Held, Chained, Likely, Unlikely, Beaten, FirstTried, Reached, NoFurther;
      var hi := if found && on' then k' - 1 else k';
      if hi > k && lookaheadPos + 2 < |src| { ReachedLess(src, floor, lookaheadPos, dictSize, hi, k'); }
      UnlikelyBeaten(src, floor, lookaheadPos, dictSize, k, hi, dist, len);
    }

    lemma SearchOver(all: nat, probes: nat, len0: nat, dist: nat, len: nat, k: nat, on: bool, first: bool, at0: nat,
                     found: bool, k': nat, on': bool, dist': nat, at: nat)
      requires Valid() && 1 <= len0 <= len < lookaheadSize && SoFar(all, probes, len0, dist, len, k, on, first, at0) && probes > 0
      requires Passing(k, on, len, if found then Hit else Miss, k', on', dist', at) && !(found && on')
      requires on' ==> k' >= k + 3 * (probes - 1)
      ensures Searched(src, floor, lookaheadPos, dictSize, all, dist, len)
      ensures FirstTried(src, floor, lookaheadPos, dictSize, all, len0, len)
    {
      hide Held, Chained, OnChain, Likely, Unlikely, Beaten, Searched, FirstTried, NoFurther;
      PassedBeaten(all, probes, len0, dist, len, k, on, first, at0, found, k', on', dist', at);
      SearchEnds(src, floor, lookaheadPos, dictSize, all, k', on', at, dist, len);
      if first { TriedFirst(src, floor, lookaheadPos, dictSize, all, k', on', at, len0, dist, len); }
    }

    /** The chain goes on beyond the best match. */
    lemma StillNoFurther(dist: nat, dist': nat, k: nat, k': nat, at: nat)
      requires k < k' && OnChain(src, floor, lookaheadPos, dictSize, k', true, at)
      requires NoFurther(src, floor, lookaheadPos, k, dist) && AtDistance(k', dist')
      ensures dist < dist' && NoFurther(src, floor, lookaheadPos, k', dist) && NoFurther(src, floor, lookaheadPos, k', dist')
      ensures Back(src, floor, lookaheadPos, k') >= 0
    {
      hide Back;
      BackFalls(src, floor, lookaheadPos, k, k');
    }

    lemma SearchGoesOn(all: nat, probes: nat, len0: nat, dist: nat, len: nat, k: nat, on: bool, first: bool, at0: nat,
                       probes': nat, k': nat, on': bool, at: nat, dist': nat, n: nat)
      requires Valid() && 1 <= len0 <= len < lookaheadSize && SoFar(all, probes, len0, dist, len, k, on, first, at0) && probes' < probes
      requires Passing(k, on, len, Hit, k', on', dist', at) && n <= lookaheadSize && at < DICT_SIZE
      requires on' ==> k' >= k + (probes - probes')
      requires n == lookaheadSize || dict[lookaheadPos % DICT_SIZE + n] != dict[at + n]
      ensures SoFar(all, probes', len0, if n > len then dist' else dist, Max(len, n), k', on', false, at)
    {
      hide Held, Chained, OnChain, Likely, Unlikely, Beaten, Searched, FirstTried, NoFurther, AtDistance;
      PassedBeaten(all, probes, len0, dist, len, k, on, first, at0, true, k', on', dist', at);
      if on' { StillNoFurther(dist, dist', k, k', at); }
      Compared(dist, len, dist', n, k', on', at);
      if first {
        TriedFirst(src, floor, lookaheadPos, dictSize, all, k', on', at, len0, if n > len then dist' else dist, Max(len, n));
      } else {
        TriedLonger(src, floor, lookaheadPos, dictSize, all, len0, len, Max(len, n));
      }
    }

    lemma Beyond(dist: nat, k: nat, j: nat)
      requires lookaheadPos + 2 < |src| && k < j && Reached(src, floor, lookaheadPos, dictSize, j) && j >= 1
      requires NoFurther(src, floor, lookaheadPos, k, dist)
      ensures lookaheadPos - Back(src, floor, lookaheadPos, j) > dist
    {
      hide Back;
      BackFalls(src, floor, lookaheadPos, k, j);
    }

    /** The match cannot be longer: nothing further along the chain matters. */
    lemma SearchFull(all: nat, probes: nat, len0: nat, dist: nat, len: nat, k: nat, on: bool, at: nat)
      requires Valid() && len >= lookaheadSize && SoFar(all, probes, len0, dist, len, k, on, false, at)
      ensures Searched(src, floor, lookaheadPos, dictSize, all, dist, len)
      ensures FirstTried(src, floor, lookaheadPos, dictSize, all, len0, len)
    {
      hide Held, Chained, Back, FirstTried, Reached;
      var p := lookaheadPos;
      if p + 2 < |src| {
        forall j | 1 <= j < all && Reached(src, floor, p, dictSize, j) ensures BeatenAt(src, p, Back(src, floor, p, j), dist, len) {
          if j > k {
            if on { Beyond(dist, k, j); } else { ReachedLess(src, floor, p, dictSize, k + 1, j); }
          }
        }
      }
    }

    lemma NotAtZero(len: nat, k0: nat, on0: bool, found: bool, k: nat, on: bool, at: nat)
      requires 1 <= len < lookaheadSize && Sizes() && Passing(k0, on0, len, if found then Hit else Miss, k, on, 0, at)
      ensures !(found && on)
    {
      hide OnChain, Likely, Unlikely;
    }

    /** Where the chain of the lookahead begins. */
    lemma FirstEntry(pos: nat)
      requires Valid() && pos == lookaheadPos % DICT_SIZE
      ensures lookaheadPos + 2 < |src| ==> next[pos] == Entry(Back(src, floor, lookaheadPos, 1))
    {
      hide Held, HashAt, Latest;
      if lookaheadPos + 2 < |src| {
        assert LinkOk(next[..], src, floor, lookaheadPos);
        BackStep(src, floor, lookaheadPos, 0);
      }
    }

    lemma NothingToFind(probes: nat, len: nat)
      requires Valid() && len >= lookaheadSize
      ensures Searched(src, floor, lookaheadPos, dictSize, probes, 0, len)
      ensures FirstTried(src, floor, lookaheadPos, dictSize, probes, len, len)
    {
      hide Held, Back, Chained, Reached, Unlikely;
    }

    lemma LookAhead(pos: nat, n: nat)
      requires Valid() && pos == lookaheadPos % DICT_SIZE && 1 <= n < lookaheadSize
      ensures dict[pos + n] == src[lookaheadPos + n] && dict[pos + n - 1] == src[lookaheadPos + n - 1]
    {
      hide Held, Chained;
      ReadAt(lookaheadPos, n);
      ReadAt(lookaheadPos, n - 1);
    }

    lemma Along(all: nat, probes: nat, len0: nat, dist: nat, len: nat, k: nat, on: bool, first: bool, at: nat)
      requires SoFar(all, probes, len0, dist, len, k, on, first, at)
      ensures OnChain(src, floor, lookaheadPos, dictSize, k, on, at)
    {
    }

    lemma NothingFollowed(all: nat, pos: nat, len: nat)
      requires Valid() && pos == lookaheadPos % DICT_SIZE
      ensures SoFar(all, all, len, 0, len, 0, true, true, pos)
    {
      hide Held, Chained;
    }

    /** `tdefl_find_match`: a reported match is genuine and longer, and nowhere along the chain, as far
        as the probes go, is there a longer one, or one as long that is nearer. */
    method FindMatch(maxProbes: nat, maxProbesLong: nat, matchLen0: nat) returns (matchDist: nat, matchLen: nat)
      requires Valid() && maxProbes >= 1 && maxProbesLong >= 1 && 1 <= matchLen0 < 128
      ensures if matchDist == 0 then matchLen == matchLen0
              else Genuine(src, lookaheadPos, matchLen, matchDist) && matchDist <= dictSize && matchLen0 < matchLen <= lookaheadSize
      ensures var probes := if matchLen0 >= 32 then maxProbesLong else maxProbes;
              Searched(src, floor, lookaheadPos, dictSize, probes, matchDist, matchLen) &&
              FirstTried(src, floor, lookaheadPos, dictSize, probes, matchLen0, matchLen)
      ensures lookaheadPos + 2 < |src| && Entry(Back(src, floor, lookaheadPos, 1)) == 0 ==> matchDist == 0
    {
      hide Held, Chained, Genuine, SoFar, Searched, FirstTried, OnChain, Passing;
      matchDist, matchLen := 0, matchLen0;
      WordPlace(lookaheadPos);
      var pos: nat := pos32 % DICT_SIZE;
      var probePos: nat := pos;
      var probes: nat := if matchLen >= 32 then maxProbesLong else maxProbes;
      ghost var all := probes;
      var c0, c1 := dict[pos + matchLen], dict[pos + matchLen - 1];
      if lookaheadSize <= matchLen {
        NothingToFind(all, matchLen);
        return;
      }
      ghost var k: nat, on, first := 0, true, true;
      NothingFollowed(all, pos, matchLen);
      FirstEntry(pos);
      while true
        invariant matchLen0 <= matchLen < lookaheadSize && probes > 0 && probePos < DICT_SIZE
        invariant if matchDist == 0 then matchLen == matchLen0
                  else Genuine(src, lookaheadPos, matchLen, matchDist) && matchDist <= dictSize && matchLen0 < matchLen
        invariant c0 == dict[pos + matchLen] && c1 == dict[pos + matchLen - 1]
        invariant SoFar(all, probes, matchLen0, matchDist, matchLen, k, on, first, probePos)
        invariant if first then probePos == pos && matchDist == 0 else next[pos] != 0
        decreases probes
      {
        var found, dist;
        ghost var probes0, k0, on0, at0 := probes, k, on, probePos;
        LookAhead(pos, matchLen);
        Along(all, probes, matchLen0, matchDist, matchLen, k, on, first, probePos);
        found, probes, probePos, dist, k, on := FollowChain(probes, probePos, matchLen, c0, c1, k, on);
        if !found || dist == 0 {
          if dist == 0 { NotAtZero(matchLen, k0, on0, found, k, on, probePos); }
          SearchOver(all, probes0, matchLen0, matchDist, matchLen, k0, on0, first, at0, found, k, on, dist, probePos);
          return;
        }
        var probeLen := Compare(pos, probePos, lookaheadSize);
        SearchGoesOn(all, probes0, matchLen0, matchDist, matchLen, k0, on0, first, at0, probes, k, on, probePos, dist, probeLen);
        first := false;
        if probeLen > matchLen {
          AgreeGenuine(probeLen, dist, pos, probePos);
          matchDist, matchLen := dist, probeLen;
          if matchLen == lookaheadSize {
            SearchFull(all, probes, matchLen0, matchDist, matchLen, k, on, probePos);
            return;
          }
          c0, c1 := dict[pos + matchLen], dict[pos + matchLen - 1];
        }
      }
    }

    /** Within the window the ring holds the source. */
    lemma HeldHere(x: nat)
      requires Valid() && lookaheadPos - dictSize <= x < |src|
      ensures dict[x % DICT_SIZE] == src[x]
    {
      assert HeldAt(dict[..], src, x);
    }

    /** The run of the last byte that the lookahead starts with (`TDEFL_RLE_MATCHES`). */
    method RunLength() returns (len: nat)
      requires Valid() && 0 < dictSize
      ensures len <= lookaheadSize && Genuine(src, lookaheadPos, len, 1)
      ensures len == lookaheadSize || src[lookaheadPos + len] != src[lookaheadPos - 1]
    {
      hide Held, Chained;
      WordPlace(lookaheadPos);
      var curPos: int := pos32 % DICT_SIZE;
      HeldHere(lookaheadPos - 1);
      RingMultiple(curPos - 1, lookaheadPos - 1, -(lookaheadPos / DICT_SIZE));
      var c := dict[(curPos - 1) % DICT_SIZE];
      len := 0;
      while len < lookaheadSize && dict[curPos + len] == c
        invariant len <= lookaheadSize && forall x :: lookaheadPos <= x < lookaheadPos + len ==> src[x] == c
      {
        ReadAt(lookaheadPos, len);
        len := len + 1;
      }
      if len < lookaheadSize { ReadAt(lookaheadPos, len); }
    }

    lemma HeldNow(lo: int, lo': int)
      requires Shape() && Held(lo) && lo <= lo'
      ensures Held(lo')
    {
    }

    /** Forget the history (`TDEFL_FULL_FLUSH`). */
    method Forget()
      requires Valid() && lookaheadSize == 0
      modifies this`dictSize, this`floor, next, hash
      ensures Valid() && dictSize == 0 && floor == lookaheadPos
    {
      hide Held;
      forall i | 0 <= i < hash.Length { hash[i] := 0; }
      forall i | 0 <= i < next.Length { next[i] := 0; }
      dictSize, floor := 0, lookaheadPos;
      HeldNow(old(lookaheadPos - dictSize), lookaheadPos);
      NothingChained(next[..], hash[..], src, floor);
    }

    /** Put one source byte into the ring and its mirror. */
    method Store(dst: nat, c: byte, ghost lo: int)
      requires Shape() && dst == |src| % DICT_SIZE && Held(Max(lo, |src| - DICT_SIZE))
      modifies this`src, dict
      ensures src == old(src) + [c] && Held(Max(lo, |src| - DICT_SIZE))
    {
      ghost var d := dict[..];
      ghost var s := src;
      dict[dst] := c;
      if dst < MIRROR {
        dict[DICT_SIZE + dst] := c;
      }
      src := src + [c];
      forall x | 0 <= x && Max(lo, |src| - DICT_SIZE) <= x < |src| ensures HeldAt(dict[..], src, x) {
        if x < |s| {
          assert HeldAt(d, s, x);
          OtherPlace(x, |s|);
        }
      }
    }

    /** Put position `pos` at the head of a hash chain. */
    method Insert(h: nat, pos: nat, ghost s: seq<byte>, ghost c: byte)
      requires Shape() && h < HASH_SIZE && Heads(hash[..], s, floor) && Links(next[..], s, floor)
      requires |s| - 2 >= floor && pos == (|s| - 2) % WORD && h == HashAt(s + [c], |s| - 2)
      modifies next, hash
      ensures next[..] == old(next[..])[pos % DICT_SIZE := old(hash[h])] && hash[..] == old(hash[..])[h := pos % 65536]
      ensures Heads(hash[..], s + [c], floor) && Links(next[..], s + [c], floor)
    {
      hide Heads, Links, HashAt;
      WordPlace(|s| - 2);
      WordEntry(|s| - 2);
      HeadsGrow(hash[..], s, floor, c);
      LinksGrow(next[..], hash[..], s, floor, c);
      next[pos % DICT_SIZE] := hash[h];
      hash[h] := pos % 65536;
    }

    lemma HeldByte(lo: int, x: nat)
      requires Shape() && Held(lo) && lo <= x < |src|
      ensures dict[x % DICT_SIZE] == src[x]
    {
      assert HeldAt(dict[..], src, x);
    }

    /** The loop that stores and hashes the bytes. */
    method TakeIn(input: seq<byte>, from: nat, to: nat, dst0: nat, ins0: nat, h0: nat, ghost lo: int)
      requires Shape() && from <= to <= |input| && dst0 == |src| % DICT_SIZE && |src| - 2 >= floor && ins0 == (|src| - 2) % WORD
      requires Held(Max(lo, |src| - DICT_SIZE)) && Chained() && Rolled(h0, src[|src| - 2], src[|src| - 1])
      modifies this`src, dict, next, hash
      ensures src == old(src) + input[from..to] && Held(Max(lo, |src| - DICT_SIZE)) && Chained()
    {
      hide Held, BitXor, Heads, Links, Hash3, Rolled;
      var i, dst, ins, h: nat := from, dst0, ins0, h0;
      assert input[from..from] == [];
      while i != to
        invariant from <= i <= to && dst == |src| % DICT_SIZE && |src| - 2 >= floor && ins == (|src| - 2) % WORD
        invariant src == old(src) + input[from..i] && Held(Max(lo, |src| - DICT_SIZE))
        invariant Chained() && Rolled(h, src[|src| - 2], src[|src| - 1])
      {
        var c := input[i];
        NextPlace(|src|);
        WordNext(|src| - 2, 1);
        RolledHash(h, src[|src| - 2], src[|src| - 1], c);
        RolledOn(src[|src| - 2], src[|src| - 1], c);
        assert input[from..i + 1] == input[from..i] + [c];
        ghost var s := src;
        Store(dst, c, lo);
        i := i + 1;
        h := BitXor(h * 32, c) % HASH_SIZE;
        Insert(h, ins, s, c);
        dst := (dst + 1) % DICT_SIZE;
        ins := (ins + 1) % WORD;
      }
    }

    /** What both ways of filling the lookahead do. */
    ghost predicate Filled(src0: seq<byte>, pos0: nat, size0: nat, dict0: nat, floor0: nat, input: seq<byte>, from: nat, to: nat)
      requires Shape() && from <= to <= |input|
      reads this, dict, next, hash
    {
      size0 <= MAX_MATCH && to - from == Min(|input| - from, MAX_MATCH - size0) && src == src0 + input[from..to] &&
      pos32 == pos0 % WORD && lookaheadPos == pos0 && lookaheadSize == size0 + (to - from) && dictSize == dict0 && floor == floor0 &&
      Held(Max(pos0 - dict0, |src| - DICT_SIZE)) && Chained()
    }

    lemma HeldMax(lo: int)
      requires Shape() && Held(lo)
      ensures Held(Max(lo, |src| - DICT_SIZE))
    {
    }

    /** The last two bytes are in the ring. */
    lemma LastTwo(ins: nat, lo: int)
      requires Shape() && Held(lo) && |src| >= 2 && lo <= |src| - 2 && ins == (|src| - 2) % WORD
      ensures dict[ins % DICT_SIZE] == src[|src| - 2] && dict[(ins + 1) % DICT_SIZE] == src[|src| - 1]
    {
      hide Held;
      WordPlace(|src| - 2);
      WordNext(|src| - 2, 1);
      HeldByte(lo, |src| - 2);
      HeldByte(lo, |src| - 1);
    }

    /** Take in source bytes when the hash of the last two is at hand. */
    method FillFast(input: seq<byte>, from: nat) returns (to: nat)
      requires Valid() && from <= |input| && lookaheadSize + dictSize >= MIN_MATCH - 1
      modifies this, dict, next, hash
      ensures Shape() && from <= to <= |input|
      ensures Filled(old(src), old(lookaheadPos), old(lookaheadSize), old(dictSize), old(floor), input, from, to)
    {
      hide Held, Heads, Links, BitXor, Rolled;
      WordNext(lookaheadPos, lookaheadSize);
      WordNext(lookaheadPos, lookaheadSize - 2);
      var dst := (pos32 + lookaheadSize) % DICT_SIZE;
      var ins := (pos32 + lookaheadSize - 2) % WORD;
      LastTwo(ins, lookaheadPos - dictSize);
      var h: nat := BitXor(dict[ins % DICT_SIZE] as nat * 32, dict[(ins + 1) % DICT_SIZE]);
      RolledStart(src[|src| - 2], src[|src| - 1]);
      to := from + Min(|input| - from, MAX_MATCH - lookaheadSize);
      HeldMax(lookaheadPos - dictSize);
      ghost var lo := lookaheadPos - dictSize;
      lookaheadSize := lookaheadSize + (to - from);
      TakeIn(input, from, to, dst, ins, h, lo);
    }

    lemma OneBack(s: seq<byte>, c: byte, ins: nat, lo: int)
      requires Shape() && Held(lo) && src == s + [c] && |s| >= 2 && lo <= |s| - 2 && ins == (|s| - 2) % WORD
      ensures Hash3(dict[ins % DICT_SIZE], dict[(ins + 1) % DICT_SIZE], c) == HashAt(s + [c], |s| - 2)
    {
      hide Held, Hash3;
      WordPlace(|s| - 2);
      WordNext(|s| - 2, 1);
      HeldByte(lo, |s| - 2);
      HeldByte(lo, |s| - 1);
    }

    /** One byte more in the slow loop, hashed if there are three. */
    method TakeByte(c: byte, ghost lo: int)
      requires Shape() && Held(Max(lo, |src| - DICT_SIZE)) && Chained() && Full(dictSize) && lookaheadSize < MAX_MATCH
      requires |src| == lookaheadPos + lookaheadSize && pos32 == lookaheadPos % WORD && lo == lookaheadPos - dictSize
      requires floor + dictSize <= lookaheadPos
      modifies this`src, this`lookaheadSize, dict, next, hash
      ensures src == old(src) + [c] && Held(Max(lo, |src| - DICT_SIZE)) && Chained() && lookaheadSize == old(lookaheadSize) + 1
    {
      hide Held, Heads, Links, HashAt;
      WordNext(lookaheadPos, lookaheadSize);
      var dst := (pos32 + lookaheadSize) % DICT_SIZE;
      ghost var s := src;
      Store(dst, c, lo);
      lookaheadSize := lookaheadSize + 1;
      if lookaheadSize + dictSize >= MIN_MATCH {
        WordNext(lookaheadPos, lookaheadSize - 3);
        var ins := (pos32 + (lookaheadSize - 1) - 2) % WORD;
        OneBack(s, c, ins, Max(lo, |src| - DICT_SIZE));
        Insert(Hash3(dict[ins % DICT_SIZE], dict[(ins + 1) % DICT_SIZE], c), ins, s, c);
      } else {
        ChainsWait(next[..], hash[..], s, floor, c);
      }
    }

    /** Take in source bytes one by one, until there are three to hash. */
    method FillSlow(input: seq<byte>, from: nat) returns (to: nat)
      requires Valid() && from <= |input|
      modifies this, dict, next, hash
      ensures Shape() && from <= to <= |input|
      ensures Filled(old(src), old(lookaheadPos), old(lookaheadSize), old(dictSize), old(floor), input, from, to)
    {
      hide Held, Chained;
      ghost var lo, s0 := lookaheadPos - dictSize, src;
      to := from;
      assert input[from..from] == [];
      HeldMax(lo);
      while to < |input| && lookaheadSize < MAX_MATCH
        invariant from <= to <= |input| && Shape() && |src| == lookaheadPos + lookaheadSize && pos32 == lookaheadPos % WORD
        invariant src == s0 + input[from..to] && Held(Max(lo, |src| - DICT_SIZE)) && Chained() && Full(dictSize)
        invariant lookaheadPos == old(lookaheadPos) && dictSize == old(dictSize) && floor == old(floor)
        invariant lookaheadSize == old(lookaheadSize) + (to - from) <= MAX_MATCH
      {
        assert input[from..to + 1] == input[from..to] + [input[to]];
        TakeByte(input[to], lo);
        to := to + 1;
      }
    }

    /** Fill the lookahead and let the oldest of the dictionary go. */
    method Fill(input: seq<byte>, from: nat) returns (to: nat)
      requires Valid() && from <= |input|
      modifies this, dict, next, hash
      ensures Valid() && from <= to <= |input| && src == old(src) + input[from..to]
      ensures lookaheadPos == old(lookaheadPos) && floor == old(floor) && dictSize == Min(32768 - lookaheadSize, old(dictSize))
      ensures to == |input| || lookaheadSize == 258
      ensures lookaheadSize == old(lookaheadSize) + (to - from)
    {
      hide Chained;
      if lookaheadSize + dictSize >= MIN_MATCH - 1 {
        to := FillFast(input, from);
      } else {
        to := FillSlow(input, from);
      }
      dictSize := Min(DICT_SIZE - lookaheadSize, dictSize);
    }

    /** Move the lookahead forward over bytes that have been coded. */
    method Advance(len: nat)
      requires Valid() && len <= lookaheadSize
      modifies this`pos32, this`lookaheadPos, this`lookaheadSize, this`dictSize
      ensures Valid() && lookaheadPos == old(lookaheadPos) + len && lookaheadSize == old(lookaheadSize) - len
      ensures dictSize == Min(old(dictSize) + len, 32768)
    {
      hide Heads, Links;
      WordNext(lookaheadPos, len);
      pos32 := (pos32 + len) % WORD;
      lookaheadPos := lookaheadPos + len;
      lookaheadSize := lookaheadSize - len;
      dictSize := Min(dictSize + len, DICT_SIZE);
    }
  }
}
