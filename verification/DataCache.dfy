/** The data cache `DCacheDirectMap`: sixteen lines, a registered read of the three
    SRAMs, and the state machine STATEA to STATEE. */
module DataCache {
  import opened Bits
  import opened Lanes

  const ROWS := 16
  const WRITE_TAG := 0x103    // 13'b0000100000011
  const READ_TAG := 0x1103    // 13'b1000100000011

  /** A request of the memory stage, held until it is acknowledged. */
  datatype Proc = Proc(req: bool, write: bool, line: nat, word: nat, data: seq<byte>,
                       storeType: nat, loadType: nat, offset: nat)

  predicate ValidProc(p: Proc) {
    p.word < 8 && |p.data| == 8 && p.storeType < 4 && p.loadType < 4 && p.offset < 8
  }

  /** The response pins of the bus. */
  datatype Resp = Resp(cyc: bool, data: seq<byte>, tag: nat)

  datatype State = StateA | StateB | StateC | StateD | StateE

  datatype DCache = DCache(
    state: State, counter: nat, reqcyc: bool, req: nat, reqtag: nat, ack: bool, respack: bool, dataOut: seq<byte>,
    tags: seq<nat>, dirty: seq<bool>, lines: seq<seq<byte>>, outTag: nat, outDirty: bool, outLine: seq<byte>)

  ghost predicate Sized(d: DCache) {
    |d.tags| == ROWS && |d.dirty| == ROWS && |d.lines| == ROWS && |d.dataOut| == 8 && |d.outLine| == 64 &&
    forall r :: 0 <= r < ROWS ==> |d.lines[r]| == 64
  }

  // ---------------------------------------------------------------- lanes of loads and stores

  /** `{x[31:0], x[63:32]}`. */
  function SwapHalves(x: seq<byte>): (r: seq<byte>)
    requires |x| == 8
    ensures |r| == 8
  {
    x[4..] + x[..4]
  }

  /** The value of a load, from the doubleword `n`; the lane is the complement of the
      offset within its own bits. */
  function LoadValue(n: seq<byte>, loadType: nat, offset: nat): (v: seq<byte>)
    requires |n| == 8 && offset < 8
    ensures |v| == 8
  {
    if loadType == 0 then Down(n, 7 - offset)
    else if loadType == 1 then Down(n, 2 * (3 - offset / 2))
    else if loadType == 2 then Down(n, 4 * (1 - offset / 4))
    else SwapHalves(n)
  }

  /** The data a store puts on the write port. */
  function StoreData(p: Proc): (r: seq<byte>)
    requires ValidProc(p)
    ensures |r| == 64
  {
    var shifted := Up(SwapHalves(p.data) + NoLanes(56), 8 * p.word);
    var half := if p.offset / 4 == 1 then Down(shifted, 4) else shifted;
    if p.storeType == 0 then Up(half, (7 - p.offset) % 4)
    else if p.storeType == 1 then Up(half, 2 * ((3 - p.offset / 2) % 2))
    else if p.storeType == 2 then half
    else shifted
  }

  /** The first lane a store enables, and how many. */
  function StoreStart(p: Proc): nat
    requires ValidProc(p)
  {
    8 * p.word +
    if p.storeType == 0 then 7 - p.offset
    else if p.storeType == 1 then 2 * (3 - p.offset / 2)
    else if p.storeType == 2 then 4 * (1 - p.offset / 4)
    else 0
  }

  function StoreCount(p: Proc): nat
    requires ValidProc(p)
  {
    if p.storeType == 0 then 1 else if p.storeType == 1 then 2 else if p.storeType == 2 then 4 else 8
  }

  /** A line after the store. */
  function Stored(line: seq<byte>, p: Proc): (r: seq<byte>)
    requires |line| == 64 && ValidProc(p)
    ensures |r| == 64
  {
    Masked(line, StoreData(p), StoreStart(p), StoreCount(p))
  }

  /** Doubleword `w` of a line. */
  function WordOf(line: seq<byte>, w: nat): (r: seq<byte>)
    requires |line| == 64 && w < 8
    ensures |r| == 8
  {
    line[8 * w..8 * w + 8]
  }

  function Row(line: nat): nat {
    line % ROWS
  }

  // ---------------------------------------------------------------- one clock

  predicate Hit(d: DCache, p: Proc) {
    d.outTag == p.line / ROWS
  }

  /** What the combinational block computes: the next registers, and the SRAM write ports. */
  datatype Wires = Wires(
    state: State, counter: nat, reqcyc: bool, req: nat, reqtag: nat, ack: bool, respack: bool, dataOut: seq<byte>,
    tagWrite: bool, dirtyWrite: bool, dirtyLine: bool, writeData: seq<byte>, start: nat, count: nat)

  function Comb(d: DCache, p: Proc, reqack: bool, resp: Resp): (w: Wires)
    requires Sized(d) && ValidProc(p) && |resp.data| == 8
    ensures |w.writeData| == 64
  {
    var w := Wires(d.state, d.counter, false, 0, d.reqtag, false, false, d.dataOut, false, false, false, NoLanes(64), 0, 0);
    match d.state
    case StateA =>
      w.(state := if p.req then StateB else StateA)
    case StateB =>
      if Hit(d, p) then
        var v := w.(state := StateA, ack := true, dataOut := LoadValue(WordOf(d.outLine, p.word), p.loadType, p.offset));
        if p.write then
          v.(writeData := StoreData(p), start := StoreStart(p), count := StoreCount(p), dirtyWrite := true, dirtyLine := true)
        else v
      else if d.outDirty then w.(state := StateC, counter := 0)
      else w.(state := StateD)
    case StateC =>
      if d.counter == 0 then
        w.(req := (d.outTag * ROWS + Row(p.line)) * 64, reqtag := WRITE_TAG, reqcyc := true, counter := 1)
      else if reqack then
        if d.counter < 9 then w.(req := Val(WordOf(d.outLine, d.counter - 1)), reqcyc := true, counter := d.counter + 1)
        else w.(state := StateD)
      else w.(req := d.req, reqcyc := true)
    case StateD =>
      if reqack then w.(state := StateE, counter := 0)
      else w.(tagWrite := true, dirtyWrite := true, dirtyLine := false, reqcyc := true, req := p.line * 64, reqtag := READ_TAG)
    case StateE =>
      if resp.cyc && resp.tag == d.reqtag then
        var v := w.(counter := d.counter + 1, respack := true,
                    writeData := Up(resp.data + NoLanes(56), 8 * d.counter), start := 8 * d.counter, count := 8);
        if d.counter < 8 then v else v.(state := StateB, reqtag := 0)
      else w.(state := if d.counter == 8 then StateB else StateE)
  }

  /** The registers and the SRAMs after the clock edge; a read gives what was there before it. */
  function Latch(d: DCache, p: Proc, w: Wires): DCache
    requires Sized(d) && |w.writeData| == 64
  {
    var r := Row(p.line);
    DCache(w.state, w.counter, w.reqcyc, w.req, w.reqtag, w.ack, w.respack, w.dataOut,
           if w.tagWrite then d.tags[r := p.line / ROWS] else d.tags,
           if w.dirtyWrite then d.dirty[r := w.dirtyLine] else d.dirty,
           d.lines[r := Masked(d.lines[r], w.writeData, w.start, w.count)],
           d.tags[r], d.dirty[r], d.lines[r])
  }

  function Next(d: DCache, p: Proc, reqack: bool, resp: Resp): DCache
    requires Sized(d) && ValidProc(p) && |resp.data| == 8
  {
    Latch(d, p, Comb(d, p, reqack, resp))
  }

  // ---------------------------------------------------------------- what loads and stores mean

  /** The line in memory order: byte `a` of the line, the bus words being big-endian. */
  function MemByte(line: seq<byte>, a: nat): byte
    requires |line| == 64 && a < 64
  {
    line[8 * (a / 8) + 7 - a % 8]
  }

  /** The number of bytes of an access, and where in its line it begins. */
  function Size(accessType: nat): nat {
    if accessType == 0 then 1 else if accessType == 1 then 2 else if accessType == 2 then 4 else 8
  }

  function Start(p: Proc, accessType: nat): nat {
    8 * p.word + p.offset / Size(accessType) * Size(accessType)
  }

  /** Byte `i` of what a store writes, most significant first; a doubleword goes as its
      low half and then its high half. */
  function StoreByte(p: Proc, i: nat): byte
    requires ValidProc(p) && i < Size(p.storeType)
  {
    if p.storeType < 3 then p.data[Size(p.storeType) - 1 - i] else if i < 4 then p.data[3 - i] else p.data[11 - i]
  }

  lemma UpAt(x: seq<byte>, k: nat, i: nat)
    requires i < |x|
    ensures Up(x, k)[i] == if i < k then 0 else x[i - k]
  {
  }

  lemma DownAt(x: seq<byte>, k: nat, i: nat)
    requires i < |x|
    ensures Down(x, k)[i] == if i + k < |x| then x[i + k] else 0
  {
  }

  /** The doubleword on its lanes, its halves swapped. */
  function Shifted(p: Proc): (r: seq<byte>)
    requires ValidProc(p)
    ensures |r| == 64
  {
    Up(SwapHalves(p.data) + NoLanes(56), 8 * p.word)
  }

  function Halved(p: Proc): (r: seq<byte>)
    requires ValidProc(p)
    ensures |r| == 64
  {
    if p.offset / 4 == 1 then Down(Shifted(p), 4) else Shifted(p)
  }

  lemma ShiftedAt(p: Proc, j: nat)
    requires ValidProc(p) && j < 8
    ensures Shifted(p)[8 * p.word + j] == if j < 4 then p.data[4 + j] else p.data[j - 4]
  {
    hide Up;
    UpAt(SwapHalves(p.data) + NoLanes(56), 8 * p.word, 8 * p.word + j);
  }

  lemma HalvedAt(p: Proc, j: nat)
    requires ValidProc(p) && j < 4
    ensures Halved(p)[8 * p.word + (if p.offset < 4 then 4 else 0) + j] == p.data[j]
  {
    hide Shifted, Down;
    ShiftedAt(p, 4 + j);
    DownAt(Shifted(p), 4, 8 * p.word + j);
  }

  lemma StoreDataIs(p: Proc)
    requires ValidProc(p)
    ensures StoreData(p) ==
            if p.storeType == 0 then Up(Halved(p), (7 - p.offset) % 4)
            else if p.storeType == 1 then Up(Halved(p), 2 * ((3 - p.offset / 2) % 2))
            else if p.storeType == 2 then Halved(p)
            else Shifted(p)
  {
    hide Up, Down;
  }

  /** Lane `m` of those a store enables carries byte `m` of the data, counted from the low end. */
  lemma StoreLane(p: Proc, m: nat)
    requires ValidProc(p) && m < StoreCount(p)
    ensures StoreStart(p) + StoreCount(p) <= 64
    ensures StoreData(p)[StoreStart(p) + m] == if p.storeType < 3 then p.data[m] else if m < 4 then p.data[4 + m] else p.data[m - 4]
  {
    hide Up, Halved, Shifted;
    StoreDataIs(p);
    if p.storeType == 3 {
      ShiftedAt(p, m);
    } else {
      HalvedAt(p, m);
    }
    if p.storeType == 0 {
      UpAt(Halved(p), (7 - p.offset) % 4, StoreStart(p) + m);
    } else if p.storeType == 1 {
      UpAt(Halved(p), 2 * ((3 - p.offset / 2) % 2), StoreStart(p) + m);
    }
  }

  lemma LaneOf(w: nat, q: nat, t: nat, k: nat, n: nat)
    requires t < 8 && (n == 1 || n == 2 || n == 4 || n == 8) && k < 8 / n
    ensures var at, s, a, lane := 8 * w + k * n, 8 * w + 8 - n - k * n, 8 * q + t, 8 * q + 7 - t;
            (at <= a < at + n <==> s <= lane < s + n) && (at <= a < at + n ==> lane - s == n - 1 - (a - at))
  {
    if n == 1 {
    } else if n == 2 {
    } else if n == 4 {
    }
  }

  /** Lanes and addresses of an access run against each other within its doubleword. */
  lemma LaneAddress(p: Proc, a: nat)
    requires ValidProc(p) && a < 64
    ensures var at, n, lane := Start(p, p.storeType), Size(p.storeType), 8 * (a / 8) + 7 - a % 8;
            lane < 64 && StoreCount(p) == n && (at <= a < at + n <==> StoreStart(p) <= lane < StoreStart(p) + n) &&
            (at <= a < at + n ==> lane - StoreStart(p) == n - 1 - (a - at))
  {
    var q, t := a / 8, a % 8;
    LaneOf(p.word, q, t, p.offset / Size(p.storeType), Size(p.storeType));
    if p.storeType == 0 {
    } else if p.storeType == 1 {
    } else if p.storeType == 2 {
    }
  }

  /** A store changes exactly the bytes it addresses, most significant first. */
  lemma StoreMeaning(line: seq<byte>, p: Proc, a: nat)
    requires |line| == 64 && ValidProc(p) && a < 64
    ensures var at, n := Start(p, p.storeType), Size(p.storeType);
            MemByte(Stored(line, p), a) == if at <= a < at + n then StoreByte(p, a - at) else MemByte(line, a)
  {
    hide StoreData, StoreStart, Start;
    LaneAddress(p, a);
    var lane, s := 8 * (a / 8) + 7 - a % 8, StoreStart(p);
    if s <= lane < s + StoreCount(p) {
      StoreLane(p, lane - s);
    }
  }

  lemma ByteLane(line: seq<byte>, w: nat, t: nat)
    requires |line| == 64 && w < 8 && t < 8
    ensures MemByte(line, 8 * w + t) == WordOf(line, w)[7 - t]
  {
  }

  /** A load gives the bytes it addresses in the low lanes, most significant first. */
  lemma LoadMeaning(line: seq<byte>, p: Proc, i: nat)
    requires |line| == 64 && ValidProc(p) && i < Size(p.loadType)
    ensures Start(p, p.loadType) + i < 64
    ensures var v := LoadValue(WordOf(line, p.word), p.loadType, p.offset);
            (if p.loadType < 3 then v[Size(p.loadType) - 1 - i] else if i < 4 then v[3 - i] else v[11 - i]) ==
            MemByte(line, Start(p, p.loadType) + i)
  {
    hide Down, MemByte, WordOf;
    var n := WordOf(line, p.word);
    ByteLane(line, p.word, p.offset / Size(p.loadType) * Size(p.loadType) + i);
    if p.loadType == 0 {
      DownAt(n, 7 - p.offset, 0);
    } else if p.loadType == 1 {
      DownAt(n, 2 * (3 - p.offset / 2), 1 - i);
    } else if p.loadType == 2 {
      DownAt(n, 4 * (1 - p.offset / 4), 3 - i);
    }
  }

  // ---------------------------------------------------------------- lanes at 64 bits

  /** `~x * unit` where everything is 64 bits wide, as it is for the variable the source uses. */
  function WideShift(x: nat, unit: nat): nat
    requires x < 8
  {
    (0xffff_ffff_ffff_ffff - x) * unit % 0x1_0000_0000_0000_0000
  }

  function ShiftedRight(n: seq<byte>, bits: nat): (v: seq<byte>)
    requires |n| == 8 && bits % 8 == 0
    ensures |v| == 8
  {
    if bits >= 64 then NoLanes(8) else Down(n, bits / 8)
  }

  lemma WideShifts(x: nat, unit: nat)
    requires x < 8 && (unit == 8 || unit == 16 || unit == 32)
    ensures WideShift(x, unit) == 0x1_0000_0000_0000_0000 - (x + 1) * unit && WideShift(x, unit) % 8 == 0
  {
  }

  /** Of a shift count at 64 bits, the low six bits are the count within the offset's own bits. */
  lemma WideShiftLow(x: nat, unit: nat)
    requires x < 8 && (unit == 8 || unit == 16 || unit == 32) && (x + 1) * unit <= 64
    ensures WideShift(x, unit) % 64 == 64 - (x + 1) * unit
  {
    hide WideShift;
    WideShifts(x, unit);
    var k := (x + 1) * unit;
    assert 0x1_0000_0000_0000_0000 - k == 64 - k + 64 * 0x3ff_ffff_ffff_ffff;
    DivModUnique(64 - k, 0x3ff_ffff_ffff_ffff, 64);
  }

  /** The value of a load when the complement of the offset is taken at 64 bits. */
  function WideLoadValue(n: seq<byte>, loadType: nat, offset: nat): (v: seq<byte>)
    requires |n| == 8 && offset < 8
    ensures |v| == 8
  {
    if loadType == 0 then (WideShifts(offset, 8); ShiftedRight(n, WideShift(offset, 8)))
    else if loadType == 1 then (WideShifts(offset / 2, 16); ShiftedRight(n, WideShift(offset / 2, 16)))
    else if loadType == 2 then (WideShifts(offset / 4, 32); ShiftedRight(n, WideShift(offset / 4, 32)))
    else SwapHalves(n)
  }

  /** Both readings give the same exactly for doublewords, and where what is loaded is zero. */
  lemma WideLoads(n: seq<byte>, loadType: nat, offset: nat)
    requires |n| == 8 && offset < 8 && loadType < 4
    ensures WideLoadValue(n, loadType, offset) == LoadValue(n, loadType, offset) <==>
            loadType == 3 || LoadValue(n, loadType, offset) == NoLanes(8)
  {
    hide Down, NoLanes, WideShift;
    if loadType == 0 {
      WideShifts(offset, 8);
    } else if loadType == 1 {
      WideShifts(offset / 2, 16);
    } else if loadType == 2 {
      WideShifts(offset / 4, 32);
    }
  }

  // ---------------------------------------------------------------- the cache itself

  /** The registers after a reset. */
  function AfterReset(): DCache {
    DCache(StateA, 0, false, 0, 0, false, false, NoLanes(8),
           seq(ROWS, _ => 15), seq(ROWS, _ => true), seq(ROWS, _ => [15] + NoLanes(63)), 0, false, NoLanes(64))
  }

  class DataCacheUnit {
    var state: State           // p_state
    var counter: nat           // p_counter
    var reqcyc: bool           // p_reqcyc
    var req: nat               // p_req
    var reqtag: nat            // p_reqtag
    var ack: bool              // p_ack
    var respack: bool          // p_respack
    var dataOut: seq<byte>     // p_proc_data_out
    var tags: seq<nat>         // dcache_tagSRAM.mem
    var dirty: seq<bool>       // dcache_dirtySRAM.mem
    var lines: seq<seq<byte>>  // dcache_dataSRAM.mem
    var outTag: nat            // out_tag_sram
    var outDirty: bool         // out_dirty_sram
    var outLine: seq<byte>     // out_data_sram

    function Regs(): DCache
      reads this
    {
      DCache(state, counter, reqcyc, req, reqtag, ack, respack, dataOut, tags, dirty, lines, outTag, outDirty, outLine)
    }

    /** Reset: every row dirty, with tag and data 15. */
    constructor ()
      ensures Regs() == AfterReset()
    {
      state, counter, reqcyc, req, reqtag, ack, respack := StateA, 0, false, 0, 0, false, false;
      dataOut := NoLanes(8);
      tags, dirty, lines := seq(ROWS, _ => 15), seq(ROWS, _ => true), seq(ROWS, _ => [15] + NoLanes(63));
      outTag, outDirty, outLine := 0, false, NoLanes(64);
    }

    /** The combinational block. */
    method Combinational(p: Proc, reqack: bool, resp: Resp) returns (w: Wires)
      requires Sized(Regs()) && ValidProc(p) && |resp.data| == 8
      ensures w == Comb(Regs(), p, reqack, resp)
    {
      hide LoadValue, StoreData, StoreStart, StoreCount, Up, Val, NoLanes;
      var r := Row(p.line);
      w := Wires(state, counter, false, 0, reqtag, false, false, dataOut, false, false, false, NoLanes(64), 0, 0);
      match state {
        case StateA =>
          w := w.(state := if p.req then StateB else StateA);
        case StateB =>
          if outTag == p.line / ROWS {
            w := w.(state := StateA, ack := true);
            w := w.(dataOut := LoadValue(WordOf(outLine, p.word), p.loadType, p.offset));
            if p.write {
              w := w.(writeData := StoreData(p), start := StoreStart(p), count := StoreCount(p));
              w := w.(dirtyWrite := true, dirtyLine := true);
            }
          } else if outDirty {
            w := w.(state := StateC, counter := 0);
          } else {
            w := w.(state := StateD);
          }
        case StateC =>
          if counter == 0 {
            w := w.(req := (outTag * ROWS + r) * 64, reqtag := WRITE_TAG, reqcyc := true, counter := counter + 1);
          } else if reqack {
            if counter < 9 {
              w := w.(req := Val(WordOf(outLine, counter - 1)), reqcyc := true, counter := counter + 1);
            } else {
              w := w.(state := StateD);
            }
          } else {
            w := w.(req := req, reqcyc := true);
          }
        case StateD =>
          if reqack {
            w := w.(state := StateE, counter := 0);
          } else {
            w := w.(tagWrite := true, dirtyWrite := true, dirtyLine := false);
            w := w.(reqcyc := true, req := p.line * 64, reqtag := READ_TAG);
          }
        case StateE =>
          if resp.cyc && resp.tag == reqtag {
            w := w.(counter := counter + 1, respack := true);
            w := w.(writeData := Up(resp.data + NoLanes(56), 8 * counter), start := 8 * counter, count := 8);
            if counter >= 8 {
              w := w.(state := StateB, reqtag := 0);
            }
          } else if counter == 8 {
            w := w.(state := StateB);
          }
      }
    }

    /** The three SRAMs: a registered read of the old contents, and a write. */
    method ClockSrams(p: Proc, w: Wires)
      requires Sized(Regs()) && |w.writeData| == 64
      modifies this`tags, this`dirty, this`lines, this`outTag, this`outDirty, this`outLine
      ensures tags == if w.tagWrite then old(tags)[Row(p.line) := p.line / ROWS] else old(tags)
      ensures dirty == if w.dirtyWrite then old(dirty)[Row(p.line) := w.dirtyLine] else old(dirty)
      ensures lines == old(lines)[Row(p.line) := Masked(old(lines)[Row(p.line)], w.writeData, w.start, w.count)]
      ensures outTag == old(tags)[Row(p.line)] && outDirty == old(dirty)[Row(p.line)] && outLine == old(lines)[Row(p.line)]
    {
      hide Masked;
      var r := Row(p.line);
      outTag, outDirty, outLine := tags[r], dirty[r], lines[r];
      if w.tagWrite { tags := tags[r := p.line / ROWS]; }
      if w.dirtyWrite { dirty := dirty[r := w.dirtyLine]; }
      lines := lines[r := Masked(lines[r], w.writeData, w.start, w.count)];
    }

    /** One positive clock edge. */
    method Clock(p: Proc, reqack: bool, resp: Resp)
      requires Sized(Regs()) && ValidProc(p) && |resp.data| == 8
      modifies this
      ensures Regs() == Next(old(Regs()), p, reqack, resp)
    {
      hide Comb, Masked, Row;
      var w := Combinational(p, reqack, resp);
      ClockSrams(p, w);
      state, counter, reqcyc, req, reqtag := w.state, w.counter, w.reqcyc, w.req, w.reqtag;
      ack, respack, dataOut := w.ack, w.respack, w.dataOut;
    }
  }

  lemma NothingMasked(line: seq<byte>, data: seq<byte>, start: nat)
    requires |line| == |data|
    ensures Masked(line, data, start, 0) == line
  {
  }
}
