/** The hash chains of the match finder: what each of their entries is meant to hold, and the hash
    of three bytes as it is rolled on from one to the next. */
module HashChains {
  import opened Bits

  const CHAIN_SIZE := 32768  // TDEFL_LZ_DICT_SIZE
  const HASH_SIZE := 32768   // TDEFL_LZ_HASH_SIZE

  /** `(a << 10) ^ (b << 5) ^ c` on fifteen bits. */
  function Hash3(a: nat, b: nat, c: nat): (h: nat)
    ensures h < HASH_SIZE
  {
    BitXor(BitXor(a * 1024, b * 32), c) % HASH_SIZE
  }

  ghost function HashAt(src: seq<byte>, q: nat): (h: nat)
    requires q + 2 < |src|
    ensures h < HASH_SIZE
  {
    Hash3(src[q], src[q + 1], src[q + 2])
  }

  // ---------------------------------------------------------------- what the entries mean

  /** The last position before `n`, and not before `floor`, with the hash `h`; -1 if there is none. */
  ghost function Latest(src: seq<byte>, floor: nat, h: nat, n: int): (q: int)
    requires n + 2 <= |src|
    ensures q == -1 || (floor <= q < n && HashAt(src, q) == h)
    ensures forall x :: floor <= x < n && q < x ==> HashAt(src, x) != h
    decreases n - floor
  {
    if n <= floor then -1 else if HashAt(src, n - 1) == h then n - 1 else Latest(src, floor, h, n - 1)
  }

  /** Positions are kept on sixteen bits, with zero for none. */
  function Entry(q: int): nat {
    if q < 0 then 0 else q % 65536
  }

  /** Each head is the latest position with its hash. */
  ghost predicate Heads(hash: seq<nat>, src: seq<byte>, floor: nat) {
    |hash| == HASH_SIZE && forall h :: 0 <= h < HASH_SIZE ==> hash[h] == Entry(Latest(src, floor, h, |src| - 2))
  }

  /** The entry of a position is the one before it with the same hash. */
  ghost predicate LinkOk(next: seq<nat>, src: seq<byte>, floor: nat, q: nat)
    requires |next| == CHAIN_SIZE && q + 2 < |src|
  {
    next[q % CHAIN_SIZE] == Entry(Latest(src, floor, HashAt(src, q), q))
  }

  /** So it is for each of the last positions that have three bytes. */
  ghost predicate Links(next: seq<nat>, src: seq<byte>, floor: nat) {
    |next| == CHAIN_SIZE && forall q :: floor <= q < |src| - 2 && |src| - 2 - CHAIN_SIZE <= q ==> LinkOk(next, src, floor, q)
  }

  lemma {:induction false} LatestPrefix(src: seq<byte>, src': seq<byte>, floor: nat, h: nat, n: int)
    requires n + 2 <= |src| && src <= src'
    ensures Latest(src', floor, h, n) == Latest(src, floor, h, n)
    decreases n - floor
  {
    hide Hash3;
    if n > floor { LatestPrefix(src, src', floor, h, n - 1); }
  }

  /** One more byte completes a triple: its position becomes the head of its chain, */
  lemma HeadsGrow(hash: seq<nat>, src: seq<byte>, floor: nat, c: byte)
    requires Heads(hash, src, floor) && |src| - 2 >= floor
    ensures Heads(hash[HashAt(src + [c], |src| - 2) := (|src| - 2) % 65536], src + [c], floor)
  {
    hide HashAt;
    var src', n := src + [c], |src| - 2;
    forall h | 0 <= h < HASH_SIZE ensures Latest(src', floor, h, n) == Latest(src, floor, h, n) {
      LatestPrefix(src, src', floor, h, n);
    }
  }

  lemma OtherPlace(x: nat, y: nat)
    requires x < y < x + CHAIN_SIZE
    ensures x % CHAIN_SIZE != y % CHAIN_SIZE
  {
  }

  lemma LinkKept(next: seq<nat>, src: seq<byte>, floor: nat, c: byte, q: nat)
    requires |next| == CHAIN_SIZE && q + 2 < |src| && LinkOk(next, src, floor, q)
    ensures LinkOk(next, src + [c], floor, q)
  {
    hide Hash3;
    LatestPrefix(src, src + [c], floor, HashAt(src, q), q);
  }

  lemma LinkElsewhere(next: seq<nat>, src: seq<byte>, floor: nat, q: nat, p: nat, v: nat)
    requires |next| == CHAIN_SIZE && q + 2 < |src| && LinkOk(next, src, floor, q) && q < p < q + CHAIN_SIZE
    ensures LinkOk(next[p % CHAIN_SIZE := v], src, floor, q)
  {
    hide HashAt, Latest, Entry;
    OtherPlace(q, p);
  }

  lemma LinkNew(next: seq<nat>, hash: seq<nat>, src: seq<byte>, floor: nat, c: byte)
    requires |next| == CHAIN_SIZE && Heads(hash, src, floor) && |src| >= 2
    ensures var p, src' := |src| - 2, src + [c];
            LinkOk(next[p % CHAIN_SIZE := hash[HashAt(src', p)]], src', floor, p)
  {
    hide HashAt, Entry;
    LatestPrefix(src, src + [c], floor, HashAt(src + [c], |src| - 2), |src| - 2);
  }

  lemma HeadsSize(hash: seq<nat>, src: seq<byte>, floor: nat)
    requires Heads(hash, src, floor)
    ensures |hash| == HASH_SIZE
  {
  }

  /** and what the head was before, its link. */
  lemma LinksGrow(next: seq<nat>, hash: seq<nat>, src: seq<byte>, floor: nat, c: byte)
    requires Links(next, src, floor) && Heads(hash, src, floor) && |src| - 2 >= floor
    ensures Links(next[(|src| - 2) % CHAIN_SIZE := hash[HashAt(src + [c], |src| - 2)]], src + [c], floor)
  {
    hide LinkOk, HashAt, Heads;
    var p, src' := |src| - 2, src + [c];
    var h := HashAt(src', p);
    assert |hash| == HASH_SIZE by { HeadsSize(hash, src, floor); }
    LinkNew(next, hash, src, floor, c);
    var next' := next[p % CHAIN_SIZE := hash[h]];
    forall q | floor <= q < p && p + 1 - CHAIN_SIZE <= q ensures LinkOk(next', src', floor, q) {
      LinkKept(next, src, floor, c, q);
      LinkElsewhere(next, src', floor, q, p, hash[h]);
    }
  }

  /** As long as there is no triple nothing is in the chains. */
  lemma ChainsWait(next: seq<nat>, hash: seq<nat>, src: seq<byte>, floor: nat, c: byte)
    requires Heads(hash, src, floor) && Links(next, src, floor) && |src| - 2 < floor
    ensures Heads(hash, src + [c], floor) && Links(next, src + [c], floor)
  {
    hide HashAt;
  }

  lemma NothingChained(next: seq<nat>, hash: seq<nat>, src: seq<byte>, floor: nat)
    requires |next| == CHAIN_SIZE && |hash| == HASH_SIZE && |src| - 2 <= floor
    requires forall h :: 0 <= h < HASH_SIZE ==> hash[h] == 0
    ensures Heads(hash, src, floor) && Links(next, src, floor)
  {
    hide HashAt;
  }

  // ---------------------------------------------------------------- following a chain

  /** The `k`th position before `p` with the same hash; -1 if there are not so many. */
  ghost function Back(src: seq<byte>, floor: nat, p: nat, k: nat): (q: int)
    requires p + 2 < |src|
    ensures -1 <= q && (q >= 0 ==> q + k <= p && HashAt(src, q) == HashAt(src, p) && (k > 0 ==> floor <= q))
  {
    if k == 0 then p else
      var q := Back(src, floor, p, k - 1);
      if q < 0 then -1 else Latest(src, floor, HashAt(src, p), q)
  }

  /** The chain leads from `p` to its `k`th position: all so far are within the dictionary, and none
      is kept as a zero. */
  ghost predicate Reached(src: seq<byte>, floor: nat, p: nat, dictSize: nat, k: nat)
    requires p + 2 < |src|
  {
    forall j :: 1 <= j <= k ==> 0 <= Back(src, floor, p, j) && p - Back(src, floor, p, j) <= dictSize && Back(src, floor, p, j) % 65536 != 0
  }

  /** The `n` bytes at `p` and at `q` are the same. */
  ghost predicate Same(src: seq<byte>, p: nat, q: int, n: nat) {
    0 <= q <= p && p + n <= |src| && forall x :: p <= x < p + n ==> src[x] == src[x - p + q]
  }

  /** The last earlier position of the same three bytes is the first on the chain, unless other bytes
      with the same hash come between. */
  lemma TripleFirst(src: seq<byte>, floor: nat, p: nat, q: nat)
    requires floor <= q < p && p + 2 < |src| && Same(src, p, q, 3)
    requires forall x :: q < x < p ==> HashAt(src, x) != HashAt(src, p)
    ensures Back(src, floor, p, 1) == q
  {
    hide Hash3;
    assert src[p] == src[q] && src[p + 1] == src[q + 1] && src[p + 2] == src[q + 2];
    assert HashAt(src, q) == HashAt(src, p);
    assert Back(src, floor, p, 0) == p;
    assert Back(src, floor, p, 1) == Latest(src, floor, HashAt(src, p), p);
  }

  // ---------------------------------------------------------------- rolling

  lemma XorHalf(x: nat, y: nat)
    ensures BitXor(x, y) % 2 == (if x % 2 != y % 2 then 1 else 0) && BitXor(x, y) / 2 == BitXor(x / 2, y / 2)
    ensures BitXor(x, y) == BitXor(x, y) % 2 + 2 * BitXor(x / 2, y / 2)
  {
  }

  lemma XorDouble(u: nat, v: nat)
    ensures BitXor(2 * u, 2 * v) == 2 * BitXor(u, v)
  {
    XorHalf(2 * u, 2 * v);
  }

  lemma Twice(x: nat, k: nat)
    requires k > 0
    ensures x * Pow2(k) == 2 * (x * Pow2(k - 1))
  {
    MulAssoc(x, 2, Pow2(k - 1));
  }

  lemma {:induction false} XorTwice(x: nat, y: nat, k: nat)
    ensures BitXor(x * Pow2(k), y * Pow2(k)) == BitXor(x, y) * Pow2(k)
  {
    hide BitXor;
    if k > 0 {
      XorTwice(x, y, k - 1);
      Twice(x, k);
      Twice(y, k);
      Twice(BitXor(x, y), k);
      hide Pow2;
      XorDouble(x * Pow2(k - 1), y * Pow2(k - 1));
    }
  }

  lemma LowBit(x: nat, m: nat)
    requires m > 0
    ensures x % (2 * m) == x % 2 + 2 * (x / 2 % m) && x % (2 * m) % 2 == x % 2 && x % (2 * m) / 2 == x / 2 % m
  {
    var q := x / 2 / m;
    assert x / 2 == m * q + x / 2 % m;
    assert x == 2 * m * q + (x % 2 + 2 * (x / 2 % m));
    DivModUnique(x % 2 + 2 * (x / 2 % m), q, 2 * m);
  }

  /** The low bits of an exclusive or are those of its operands. */
  lemma {:induction false} XorLow(x: nat, y: nat, n: nat)
    ensures BitXor(x, y) % Pow2(n) == BitXor(x % Pow2(n), y % Pow2(n))
  {
    if n > 0 {
      var m := Pow2(n - 1);
      XorLow(x / 2, y / 2, n - 1);
      LowBit(x, m);
      LowBit(y, m);
      LowBit(BitXor(x, y), m);
      XorHalf(x, y);
      XorHalf(x % (2 * m), y % (2 * m));
    }
  }

  lemma {:induction false} XorNothing(y: nat)
    ensures BitXor(0, y) == y
    decreases y
  {
    if y > 0 { XorNothing(y / 2); }
  }

  /** The hash is ready for the byte after `a` and `b`. */
  ghost predicate Rolled(h: nat, a: nat, b: nat) {
    h * 32 % HASH_SIZE == BitXor(a * 1024, b * 32) % HASH_SIZE
  }

  lemma RolledStart(a: nat, b: nat)
    ensures Rolled(BitXor(a * 32, b), a, b)
  {
    hide BitXor;
    Pow2Values();
    XorTwice(a * 32, b, 5);
  }

  lemma XorLow15(x: nat, y: nat)
    ensures BitXor(x, y) % HASH_SIZE == BitXor(x % HASH_SIZE, y % HASH_SIZE)
  {
    hide BitXor;
    Pow2Values();
    XorLow(x, y, 15);
  }

  /** The next hash is that of the three bytes, */
  lemma RolledHash(h: nat, a: nat, b: nat, c: nat)
    requires Rolled(h, a, b)
    ensures BitXor(h * 32, c) % HASH_SIZE == Hash3(a, b, c)
  {
    hide BitXor;
    XorLow15(h * 32, c);
    XorLow15(BitXor(a * 1024, b * 32), c);
  }

  lemma XorTimes32(a: nat, b: nat, c: nat)
    ensures BitXor(BitXor(a * 1024, b * 32), c) * 32 == BitXor(BitXor(a * HASH_SIZE, b * 1024), c * 32)
  {
    hide BitXor;
    Pow2Values();
    XorTwice(BitXor(a * 1024, b * 32), c, 5);
    XorTwice(a * 1024, b * 32, 5);
  }

  lemma ModTimes(x: nat)
    ensures x % HASH_SIZE * 32 % HASH_SIZE == x * 32 % HASH_SIZE
  {
    var q, r := x / HASH_SIZE, x % HASH_SIZE;
    var s, t := r * 32 / HASH_SIZE, r * 32 % HASH_SIZE;
    assert x * 32 == t + HASH_SIZE * (s + q * 32);
    DivModUnique(t, s + q * 32, HASH_SIZE);
  }

  lemma Forgotten(a: nat, b: nat)
    ensures BitXor(a * HASH_SIZE, b) % HASH_SIZE == b % HASH_SIZE
  {
    hide BitXor;
    XorLow15(a * HASH_SIZE, b);
    assert a * HASH_SIZE % HASH_SIZE == 0;
    XorNothing(b % HASH_SIZE);
  }

  /** and ready for the one after that. */
  lemma RolledOn(a: nat, b: nat, c: nat)
    ensures Rolled(Hash3(a, b, c), b, c)
  {
    hide BitXor;
    ModTimes(BitXor(BitXor(a * 1024, b * 32), c));
    XorTimes32(a, b, c);
    XorLow15(BitXor(a * HASH_SIZE, b * 1024), c * 32);
    Forgotten(a, b * 1024);
    XorLow15(b * 1024, c * 32);
  }
}
