/** What every clock keeps: the cache, the burst on the bus, and the responses on their
    way stay in step with one another. */
module CacheInvariant {
  import opened Bits
  import opened Lanes
  import opened DataCache
  import opened SystemBus
  import opened Arbiters

  // ---------------------------------------------------------------- lines of RAM

  /** Line `n` of RAM, on the lanes the cache keeps it. */
  function RamLine(ram: seq<byte>, n: nat): (l: seq<byte>)
    ensures |l| == 64
  {
    RamWord(ram, 64 * n) + RamWord(ram, 64 * n + 8) + RamWord(ram, 64 * n + 16) + RamWord(ram, 64 * n + 24) +
    RamWord(ram, 64 * n + 32) + RamWord(ram, 64 * n + 40) + RamWord(ram, 64 * n + 48) + RamWord(ram, 64 * n + 56)
  }

  lemma RamLineWord(ram: seq<byte>, n: nat, w: nat)
    requires w < 8
    ensures WordOf(RamLine(ram, n), w) == RamWord(ram, 64 * n + 8 * w)
  {
    hide RamWord;
  }

  /** A line is its eight words. */
  lemma LineWords(a: seq<byte>, b: seq<byte>)
    requires |a| == 64 && |b| == 64 && forall w :: 0 <= w < 8 ==> WordOf(a, w) == WordOf(b, w)
    ensures a == b
  {
    forall i | 0 <= i < 64 ensures a[i] == b[i] {
      var w := i / 8;
      assert WordOf(a, w)[i % 8] == a[i] && WordOf(b, w)[i % 8] == b[i];
    }
  }

  lemma WriteRead(ram: seq<byte>, a: nat, b: nat, x: seq<byte>)
    requires |x| == 8 && a + 8 <= |ram| && (a == b || a + 8 <= b || b + 8 <= a)
    ensures RamWord(WriteWord(ram, a, x), b) == if a == b then x else RamWord(ram, b)
  {
    var r := WriteWord(ram, a, x);
    if b + 8 <= |ram| {
      forall i | 0 <= i < 8 ensures r[b..b + 8][i] == if a == b then Reversed(x)[i] else ram[b..b + 8][i] {
        assert r[b..b + 8][i] == r[b + i];
      }
    }
  }

  /** Writing word `w` of line `n` changes that word of that line only. */
  lemma WriteLine(ram: seq<byte>, n: nat, w: nat, x: seq<byte>, m: nat, v: nat)
    requires w < 8 && v < 8 && |x| == 8 && 64 * n + 64 <= |ram|
    ensures WordOf(RamLine(WriteWord(ram, 64 * n + 8 * w, x), m), v) ==
            if m == n && v == w then x else WordOf(RamLine(ram, m), v)
  {
    hide RamLine, RamWord, WriteWord, WordOf;
    RamLineWord(ram, m, v);
    RamLineWord(WriteWord(ram, 64 * n + 8 * w, x), m, v);
    WriteRead(ram, 64 * n + 8 * w, 64 * m + 8 * v, x);
  }

  // ---------------------------------------------------------------- the cache

  /** The line a row holds, by its tag. */
  function LineAt(d: DCache, r: nat): nat
    requires r < |d.tags|
  {
    d.tags[r] * ROWS + r
  }

  /** The row whose tag already names the new line while its data still arrive. */
  predicate Refilling(d: DCache, p: Proc, r: nat) {
    r == Row(p.line) && ((d.state == StateD && d.reqcyc) || d.state == StateE)
  }

  ghost predicate InRam(ram: seq<byte>, line: nat) {
    64 * line + 64 <= |ram|
  }

  /** The SRAM outputs show the row of the request. */
  ghost predicate ReadsShown(d: DCache, p: Proc)
    requires Sized(d)
  {
    var r := Row(p.line);
    d.outTag == d.tags[r] && d.outDirty == d.dirty[r] && d.outLine == d.lines[r]
  }

  /** What holds of the request in flight, state by state. */
  ghost predicate StateOk(d: DCache, p: Proc, ram: seq<byte>)
    requires Sized(d)
  {
    var r := Row(p.line);
    match d.state
    case StateA => !d.reqcyc
    case StateB => !d.reqcyc && ReadsShown(d, p)
    case StateC =>
      ReadsShown(d, p) && d.dirty[r] && d.tags[r] != p.line / ROWS && d.counter <= 9 &&
      (d.reqcyc <==> d.counter >= 1) && (d.counter >= 1 ==> d.reqtag == WRITE_TAG) &&
      (d.counter == 1 ==> d.req == LineAt(d, r) * 64) &&
      (d.counter >= 2 ==> d.req == Val(WordOf(d.lines[r], d.counter - 2)))
    case StateD =>
      if d.reqcyc then d.tags[r] == p.line / ROWS && !d.dirty[r] && d.req == p.line * 64 && d.reqtag == READ_TAG
      else d.tags[r] != p.line / ROWS && d.lines[r] == RamLine(ram, LineAt(d, r))
    case StateE =>
      !d.reqcyc && d.tags[r] == p.line / ROWS && !d.dirty[r] && d.reqtag == READ_TAG && d.counter <= 8 &&
      forall w :: 0 <= w < d.counter ==> WordOf(d.lines[r], w) == WordOf(RamLine(ram, p.line), w)
  }

  /** A clean row that is not being refilled equals RAM. */
  ghost predicate CleanOk(d: DCache, p: Proc, ram: seq<byte>)
    requires Sized(d)
  {
    forall r :: 0 <= r < ROWS && !d.dirty[r] && !Refilling(d, p, r) ==> d.lines[r] == RamLine(ram, LineAt(d, r))
  }

  ghost predicate CacheOk(d: DCache, p: Proc, ram: seq<byte>) {
    Sized(d) && (forall r :: 0 <= r < ROWS ==> InRam(ram, LineAt(d, r))) && InRam(ram, p.line) &&
    StateOk(d, p, ram) && CleanOk(d, p, ram)
  }

  // ---------------------------------------------------------------- the bus

  predicate DataOnBus(m: Machine) {
    m.d.reqcyc && (m.arb == DataSide || (m.arb == Nobody && !m.ic.reqcyc))
  }

  predicate FetchOnBus(m: Machine) {
    m.ic.reqcyc && m.arb != DataSide
  }

  /** A burst in progress belongs to the data cache, has the bus, and has delivered the
      words before the one now on the bus and that one. */
  ghost predicate BurstOk(m: Machine, p: Proc)
    requires Sized(m.d)
  {
    var r, c := Row(p.line), m.d.counter;
    if m.d.state == StateC && c >= 1 && DataOnBus(m) then
      m.bus.rxCount == 9 - c && m.bus.xferAddr == LineAt(m.d, r) * 64 && (c >= 2 ==> m.arb == DataSide) &&
      forall w :: 0 <= w < c - 1 ==> w < 8 ==> WordOf(RamLine(m.bus.ram, LineAt(m.d, r)), w) == WordOf(m.d.lines[r], w)
    else m.bus.rxCount == 0 && !(m.d.state == StateC && c >= 2)
  }

  /** The acknowledge pin answers whoever drives the bus, and nobody else. */
  ghost predicate AckOk(m: Machine) {
    m.bus.reqack == (DataOnBus(m) || FetchOnBus(m))
  }

  ghost predicate FetchOk(ic: ICache) {
    ic.state != StateC && (ic.reqcyc ==> ic.state == StateD && ic.reqtag == FETCH_TAG) &&
    (ic.state == StateE ==> ic.reqtag == FETCH_TAG)
  }

  /** A cache sees an acknowledge exactly when its own request has the bus. */
  lemma AckIsOwn(m: Machine)
    requires AckOk(m)
    ensures Arbitrate(m.arb, m.ic, m.d, m.bus.reqack).dcReqack == DataOnBus(m)
    ensures Arbitrate(m.arb, m.ic, m.d, m.bus.reqack).icReqack == FetchOnBus(m)
  {
  }

  // ---------------------------------------------------------------- responses

  /** The beats that carry a tag, in order. */
  function TagBeats(q: seq<Beat>, tag: nat): seq<seq<byte>> {
    if q == [] then [] else (if q[0].tag == tag then [q[0].data] else []) + TagBeats(q[1..], tag)
  }

  /** The beats for the data cache. */
  function DataBeats(q: seq<Beat>): seq<seq<byte>> {
    TagBeats(q, READ_TAG)
  }

  ghost predicate BeatsOk(q: seq<Beat>) {
    forall i :: 0 <= i < |q| ==> |q[i].data| == 8 && (q[i].tag == READ_TAG || q[i].tag == FETCH_TAG)
  }

  /** The beats queued for the data cache are the words of line `n` from word `k` on. */
  ghost predicate BeatsFrom(b: Bus, n: nat, k: nat)
    requires k <= 8
  {
    |DataBeats(b.txQueue)| == 8 - k &&
    forall j :: k <= j < 8 ==> DataBeats(b.txQueue)[j - k] == WordOf(RamLine(b.ram, n), j)
  }

  /** Reads of the data cache: one outstanding, if `out` allows it, of line `n`; or the
      beats of that line from word `k` on. */
  ghost predicate RespOk(b: Bus, out: bool, n: nat, k: nat) {
    BeatsOk(b.txQueue) &&
    (forall a :: a in b.addrToTag ==> b.addrToTag[a] == READ_TAG || b.addrToTag[a] == FETCH_TAG) &&
    (forall a :: a in b.addrToTag && b.addrToTag[a] == READ_TAG ==> out && a == 64 * n && k == 0 && DataBeats(b.txQueue) == []) &&
    (DataBeats(b.txQueue) != [] ==> k <= 8 && BeatsFrom(b, n, k))
  }

  /** The response pins show the front of the queue. */
  ghost predicate PinsOk(b: Bus) {
    |b.resp.data| == 8 && (b.resp.cyc <==> b.txQueue != []) &&
    (b.txQueue != [] ==> b.resp.data == b.txQueue[0].data && b.resp.tag == b.txQueue[0].tag)
  }

  ghost predicate ResponsesOk(m: Machine, p: Proc) {
    PinsOk(m.bus) &&
    match m.d.state
    case StateD => RespOk(m.bus, DataOnBus(m), p.line, 0) && DataBeats(m.bus.txQueue) == []
    case StateE => RespOk(m.bus, true, p.line, m.d.counter)
    case _ => RespOk(m.bus, false, 0, 0) && DataBeats(m.bus.txQueue) == []
  }

  ghost predicate Inv(m: Machine, p: Proc) {
    CacheOk(m.d, p, m.bus.ram) && BurstOk(m, p) && AckOk(m) && FetchOk(m.ic) && ResponsesOk(m, p)
  }
}
