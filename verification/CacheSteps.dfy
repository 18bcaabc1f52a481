/** The invariant of caches, arbiter and memory is kept by every clock. */
module CacheSteps {
  import opened Bits
  import opened Lanes
  import opened DataCache
  import opened SystemBus
  import opened Arbiters
  import opened CacheInvariant
  import opened CacheResponses

  // ---------------------------------------------------------------- a clock in parts

  /** The processor side holds a request stable until it is acknowledged. */
  ghost predicate Allowed(m: Machine, p: Proc, x: Input) {
    ValidProc(x.proc) && InRam(m.bus.ram, x.proc.line) && (m.d.state != StateA ==> x.proc == p)
  }

  ghost function NewData(m: Machine, x: Input): DCache
    requires Shaped(m) && ValidProc(x.proc)
  {
    Next(m.d, x.proc, DataOnBus(m), m.bus.resp)
  }

  ghost function NewFetch(m: Machine, x: Input): ICache {
    FetchNext(m.ic, x.fetch, FetchOnBus(m), m.bus.resp)
  }

  ghost function NewOwner(m: Machine): Owner {
    if FetchOnBus(m) then InstructionSide else if DataOnBus(m) then DataSide else Nobody
  }

  ghost function NewQueue(m: Machine, x: Input): Bus
    requires Shaped(m) && ValidProc(x.proc)
  {
    Present(Pop(CompleteAll(m.bus, x.done), NewFetch(m, x).respack || NewData(m, x).respack))
  }

  /** The machine just before memory looks at the request pins. */
  ghost function Middle(m: Machine, x: Input): Machine
    requires Shaped(m) && ValidProc(x.proc)
  {
    Machine(NewData(m, x), NewFetch(m, x), NewOwner(m), NewQueue(m, x))
  }

  ghost function NewBus(n: Machine): Bus {
    if DataOnBus(n) then Accept(n.bus, n.d.req, n.d.reqtag).(reqack := true)
    else if FetchOnBus(n) then Accept(n.bus, n.ic.req, n.ic.reqtag).(reqack := true)
    else n.bus.(reqack := false, rxCount := 0)
  }

  lemma CycleParts(m: Machine, x: Input)
    requires Shaped(m) && ValidProc(x.proc) && AckOk(m)
    ensures Cycle(m, x) == Middle(m, x).(bus := NewBus(Middle(m, x)))
  {
    hide Next, FetchNext, Accept, Present, Pop, CompleteAll;
    AckIsOwn(m);
  }

  // ---------------------------------------------------------------- the response side

  /** A respond-acknowledge answers the beat at the front, and only its owner gives one. */
  lemma RespackOwner(m: Machine, p: Proc, x: Input)
    requires Inv(m, p) && Allowed(m, p, x)
    ensures NewData(m, x).respack <==> m.d.state == StateE && m.bus.txQueue != [] && m.bus.txQueue[0].tag == READ_TAG
    ensures NewFetch(m, x).respack ==> m.bus.txQueue != [] && m.bus.txQueue[0].tag == FETCH_TAG
  {
    hide CleanOk, BurstOk, RespOk, LoadValue, StoreData, Up, Masked;
  }

  lemma InvShaped(m: Machine, p: Proc)
    requires Inv(m, p)
    ensures Shaped(m)
  {
  }

  lemma InvCache(m: Machine, p: Proc)
    requires Inv(m, p)
    ensures CacheOk(m.d, p, m.bus.ram)
  {
  }

  ghost predicate QueueOk(m: Machine, p: Proc, x: Input, q: Bus)
    requires Shaped(m) && ValidProc(x.proc)
  {
    PinsOk(q) && q.ram == m.bus.ram && q.rxCount == m.bus.rxCount && q.xferAddr == m.bus.xferAddr &&
    match m.d.state
    case StateE =>
      if NewData(m, x).respack then
        m.d.counter < 8 && RespOk(q, true, p.line, m.d.counter + 1) &&
        m.bus.resp.data == WordOf(RamLine(m.bus.ram, p.line), m.d.counter)
      else RespOk(q, true, p.line, m.d.counter)
    case StateD =>
      if DataOnBus(m) then RespOk(q, true, p.line, 0) else RespOk(q, false, p.line, 0) && DataBeats(q.txQueue) == []
    case _ => RespOk(q, false, 0, 0) && DataBeats(q.txQueue) == []
  }

  lemma PresentKeeps(b: Bus, out: bool, n: nat, k: nat)
    requires RespOk(b, out, n, k)
    ensures RespOk(Present(b), out, n, k) && PinsOk(Present(b)) && Present(b) == b.(resp := Present(b).resp)
  {
    hide DataBeats, RamLine, WordOf;
  }

  lemma PinsFront(b: Bus)
    requires PinsOk(b) && b.txQueue != []
    ensures b.resp.data == b.txQueue[0].data
  {
  }

  lemma QueueStep(m: Machine, p: Proc, x: Input)
    requires Inv(m, p) && Allowed(m, p, x)
    ensures QueueOk(m, p, x, NewQueue(m, x))
  {
    hide RespOk, DataBeats, RamLine, WordOf, Present, NewData, NewFetch, BurstOk, CacheOk, PinsOk, FetchOk, AckOk;
    InvShaped(m, p);
    RespackOwner(m, p, x);
    var k := if m.d.state == StateE then m.d.counter else 0;
    var out := m.d.state == StateE || (m.d.state == StateD && DataOnBus(m));
    var n := if m.d.state == StateE || m.d.state == StateD then p.line else 0;
    CompletesKeep(m.bus, x.done, out, n, k);
    var c := CompleteAll(m.bus, x.done);
    if m.bus.txQueue != [] && (NewFetch(m, x).respack || NewData(m, x).respack) {
      PopKeeps(c, out, n, k);
      PinsFront(m.bus);
      PresentKeeps(c.(txQueue := c.txQueue[1..]), out, n, if NewData(m, x).respack then k + 1 else k);
    } else {
      PresentKeeps(c, out, n, k);
    }
  }

  // ---------------------------------------------------------------- the request side

  lemma AcceptFetch(b: Bus, req: nat)
    requires b.rxCount == 0
    ensures Accept(b, req, FETCH_TAG) ==
            b.(xferAddr := req, addrToTag := if req in b.addrToTag then b.addrToTag else b.addrToTag[req := FETCH_TAG])
  {
  }

  lemma AcceptWrite(b: Bus, req: nat)
    requires b.rxCount == 0
    ensures Accept(b, req, WRITE_TAG) == b.(rxCount := 8, xferAddr := req)
  {
  }

  lemma AcceptRead(b: Bus, req: nat)
    requires b.rxCount == 0
    ensures Accept(b, req, READ_TAG) ==
            b.(xferAddr := req, addrToTag := if req in b.addrToTag then b.addrToTag else b.addrToTag[req := READ_TAG])
  {
  }

  /** Beat `w` of a burst to line `n`. */
  lemma AcceptData(b: Bus, n: nat, w: nat, x: seq<byte>)
    requires w < 8 && b.rxCount == 8 - w && b.xferAddr == 64 * n && |x| == 8
    ensures Accept(b, Val(x), WRITE_TAG) == b.(ram := WriteWord(b.ram, 64 * n + 8 * w, x), rxCount := 7 - w)
  {
    hide WriteWord, Val;
    LanesOfVal(x);
    AroundLine(n, w);
  }

  lemma FetchStep(m: Machine, x: Input)
    requires FetchOk(m.ic)
    ensures FetchOk(NewFetch(m, x))
  {
  }

  /** With the data cache off the bus, memory is left alone. */
  lemma QuietBus(n: Machine, out: bool, line: nat, k: nat)
    requires n.bus.rxCount == 0 && FetchOk(n.ic) && !DataOnBus(n) && RespOk(n.bus, out, line, k) && PinsOk(n.bus)
    ensures var b := NewBus(n);
            b.ram == n.bus.ram && b.rxCount == 0 && b.txQueue == n.bus.txQueue && RespOk(b, out, line, k) && PinsOk(b) &&
            b.reqack == FetchOnBus(n)
  {
    hide Accept, DataBeats, RamLine, WordOf;
    AcceptFetch(n.bus, n.ic.req);
  }

  lemma IdleResponses(b: Bus, out: bool, n: nat, k: nat)
    requires RespOk(b, false, 0, 0) && DataBeats(b.txQueue) == []
    ensures RespOk(b, out, n, k)
  {
    hide DataBeats, BeatsFrom;
  }

  lemma CacheSized(d: DCache, p: Proc, ram: seq<byte>)
    requires CacheOk(d, p, ram)
    ensures Sized(d)
  {
  }

  /** What is left to show once the data cache is known to be off the bus and idle there. */
  lemma QuietStep(m: Machine, p: Proc, x: Input)
    requires Inv(m, p) && Allowed(m, p, x)
    requires m.d.state == StateA || m.d.state == StateB || (m.d.state == StateC && m.bus.rxCount == 0)
    requires !NewData(m, x).reqcyc && CacheOk(NewData(m, x), x.proc, m.bus.ram)
    requires NewData(m, x).state != StateE
    requires NewData(m, x).state == StateC ==> NewData(m, x).counter == 0
    ensures Inv(Cycle(m, x), x.proc) && Cycle(m, x).d == NewData(m, x) && Cycle(m, x).bus.ram == m.bus.ram
  {
    hide CacheOk, NewData, NewFetch, NewBus, RespOk, PinsOk, DataBeats, NewQueue, FetchOk, RamLine, WordOf, Cycle;
    InvShaped(m, p);
    CycleParts(m, x);
    QueueStep(m, p, x);
    FetchStep(m, x);
    var n := Middle(m, x);
    QuietBus(n, false, 0, 0);
    IdleResponses(NewBus(n), false, x.proc.line, 0);
    CacheSized(NewData(m, x), x.proc, m.bus.ram);
  }

  /** A clock that writes no SRAM. */
  lemma NoWrite(d: DCache, p: Proc, w: Wires)
    requires Sized(d) && w.writeData == NoLanes(64) && w.count == 0 && w.start == 0 && !w.tagWrite && !w.dirtyWrite
    ensures var r := Row(p.line);
            Latch(d, p, w) == DCache(w.state, w.counter, w.reqcyc, w.req, w.reqtag, w.ack, w.respack, w.dataOut,
                                     d.tags, d.dirty, d.lines, d.tags[r], d.dirty[r], d.lines[r])
  {
    var r := Row(p.line);
    NothingMasked(d.lines[r], NoLanes(64), 0);
    assert d.lines[r := d.lines[r]] == d.lines;
  }

  lemma RangeKept(d: DCache, e: DCache, ram: seq<byte>, next: seq<byte>)
    requires Sized(d) && Sized(e) && |next| == |ram| && forall r :: 0 <= r < ROWS ==> InRam(ram, LineAt(d, r))
    requires e.tags == d.tags
    ensures forall r :: 0 <= r < ROWS ==> InRam(next, LineAt(e, r))
  {
    forall r | 0 <= r < ROWS ensures InRam(next, LineAt(e, r)) {
      assert InRam(ram, LineAt(d, r));
    }
  }

  /** The same rows, none of them refilling, are as clean as before. */
  lemma CleanKept(d: DCache, p: Proc, e: DCache, q: Proc, ram: seq<byte>)
    requires Sized(d) && Sized(e) && CleanOk(d, p, ram) && e.tags == d.tags && e.dirty == d.dirty && e.lines == d.lines
    requires forall r :: 0 <= r < ROWS ==> (Refilling(d, p, r) ==> Refilling(e, q, r))
    ensures CleanOk(e, q, ram)
  {
    hide RamLine;
    forall r | 0 <= r < ROWS && !e.dirty[r] && !Refilling(e, q, r) ensures e.lines[r] == RamLine(ram, LineAt(e, r)) {
      assert d.lines[r] == RamLine(ram, LineAt(d, r));
    }
  }

  lemma StepA(m: Machine, p: Proc, x: Input)
    requires Inv(m, p) && Allowed(m, p, x) && m.d.state == StateA
    ensures Inv(Cycle(m, x), x.proc) && Cycle(m, x).bus.ram == m.bus.ram
    ensures Cycle(m, x).d.tags == m.d.tags && Cycle(m, x).d.lines == m.d.lines && !Cycle(m, x).d.ack
    ensures Cycle(m, x).d.state == StateA || Cycle(m, x).d.state == StateB
  {
    hide Cycle, RamLine, BurstOk, ResponsesOk, FetchOk, AckOk, Latch, CleanOk, Inv;
    InvShaped(m, p);
    InvCache(m, p);
    NoWrite(m.d, x.proc, Comb(m.d, x.proc, DataOnBus(m), m.bus.resp));
    RangeKept(m.d, NewData(m, x), m.bus.ram, m.bus.ram);
    CleanKept(m.d, p, NewData(m, x), x.proc, m.bus.ram);
    QuietStep(m, p, x);
  }

  lemma CleanAt(d: DCache, p: Proc, ram: seq<byte>, r: nat)
    requires Sized(d) && CleanOk(d, p, ram) && r < ROWS && !d.dirty[r] && !Refilling(d, p, r)
    ensures d.lines[r] == RamLine(ram, LineAt(d, r))
  {
    hide RamLine;
  }

  lemma StepMiss(m: Machine, p: Proc, x: Input)
    requires Inv(m, p) && Allowed(m, p, x) && m.d.state == StateB && !Hit(m.d, p)
    ensures Inv(Cycle(m, x), x.proc) && Cycle(m, x).bus.ram == m.bus.ram
    ensures Cycle(m, x).d.tags == m.d.tags && Cycle(m, x).d.lines == m.d.lines && !Cycle(m, x).d.ack
    ensures Cycle(m, x).d.state == StateC || (Cycle(m, x).d.state == StateD && !Cycle(m, x).d.reqcyc)
  {
    hide Cycle, RamLine, BurstOk, ResponsesOk, FetchOk, AckOk, Latch, CleanOk, Inv;
    InvShaped(m, p);
    InvCache(m, p);
    NoWrite(m.d, x.proc, Comb(m.d, x.proc, DataOnBus(m), m.bus.resp));
    RangeKept(m.d, NewData(m, x), m.bus.ram, m.bus.ram);
    CleanKept(m.d, p, NewData(m, x), x.proc, m.bus.ram);
    if !m.d.outDirty { CleanAt(m.d, p, m.bus.ram, Row(p.line)); }
    QuietStep(m, p, x);
  }

  lemma StepLoad(m: Machine, p: Proc, x: Input)
    requires Inv(m, p) && Allowed(m, p, x) && m.d.state == StateB && Hit(m.d, p) && !p.write
    ensures Inv(Cycle(m, x), x.proc) && Cycle(m, x).bus.ram == m.bus.ram
    ensures Cycle(m, x).d.tags == m.d.tags && Cycle(m, x).d.lines == m.d.lines && Cycle(m, x).d.ack
    ensures Cycle(m, x).d.state == StateA
    ensures Cycle(m, x).d.dataOut == LoadValue(WordOf(m.d.lines[Row(p.line)], p.word), p.loadType, p.offset)
  {
    hide Cycle, RamLine, BurstOk, ResponsesOk, FetchOk, AckOk, Latch, CleanOk, Inv, LoadValue;
    InvShaped(m, p);
    InvCache(m, p);
    NoWrite(m.d, x.proc, Comb(m.d, x.proc, DataOnBus(m), m.bus.resp));
    RangeKept(m.d, NewData(m, x), m.bus.ram, m.bus.ram);
    CleanKept(m.d, p, NewData(m, x), x.proc, m.bus.ram);
    QuietStep(m, p, x);
  }

  lemma CleanStored(d: DCache, p: Proc, e: DCache, q: Proc, ram: seq<byte>)
    requires Sized(d) && Sized(e) && CleanOk(d, p, ram) && e.tags == d.tags && d.state == StateB && e.state == StateA
    requires var r := Row(p.line); e.dirty == d.dirty[r := true] && |e.lines| == ROWS &&
                                   forall s :: 0 <= s < ROWS && s != r ==> e.lines[s] == d.lines[s]
    ensures CleanOk(e, q, ram)
  {
    hide RamLine;
    forall r | 0 <= r < ROWS && !e.dirty[r] && !Refilling(e, q, r) ensures e.lines[r] == RamLine(ram, LineAt(e, r)) {
      assert d.lines[r] == RamLine(ram, LineAt(d, r));
    }
  }

  lemma StepStore(m: Machine, p: Proc, x: Input)
    requires Inv(m, p) && Allowed(m, p, x) && m.d.state == StateB && Hit(m.d, p) && p.write
    ensures Inv(Cycle(m, x), x.proc) && Cycle(m, x).bus.ram == m.bus.ram
    ensures Cycle(m, x).d.tags == m.d.tags && Cycle(m, x).d.ack && Cycle(m, x).d.state == StateA
    ensures Cycle(m, x).d.lines == m.d.lines[Row(p.line) := Stored(m.d.lines[Row(p.line)], p)]
  {
    hide Cycle, RamLine, BurstOk, ResponsesOk, FetchOk, AckOk, CleanOk, Inv, LoadValue, StoreData, StoreStart, StoreCount, Masked;
    InvShaped(m, p);
    InvCache(m, p);
    var e := NewData(m, x);
    RangeKept(m.d, e, m.bus.ram, m.bus.ram);
    CleanStored(m.d, p, e, x.proc, m.bus.ram);
    QuietStep(m, p, x);
  }

  // ---------------------------------------------------------------- the write-back burst

  /** Memory's side of a clock in which the data cache drives the bus. */
  lemma DrivenBus(m: Machine, p: Proc, x: Input)
    requires Inv(m, p) && Allowed(m, p, x) && m.d.state == StateC && NewData(m, x).reqcyc
    ensures var n := Middle(m, x);
            PinsOk(n.bus) && RespOk(n.bus, false, 0, 0) && DataBeats(n.bus.txQueue) == [] &&
            n.bus.ram == m.bus.ram && n.bus.rxCount == m.bus.rxCount && n.bus.xferAddr == m.bus.xferAddr
    ensures Cycle(m, x) == Middle(m, x).(bus := NewBus(Middle(m, x))) && FetchOk(NewFetch(m, x))
  {
    hide NewData, NewFetch, NewBus, RespOk, PinsOk, DataBeats, NewQueue, FetchOk, RamLine, WordOf, Cycle, CacheOk, BurstOk;
    InvShaped(m, p);
    CycleParts(m, x);
    QueueStep(m, p, x);
    FetchStep(m, x);
  }

  lemma AddressIs(d: DCache, p: Proc, ram: seq<byte>)
    requires CacheOk(d, p, ram) && d.state == StateC && d.counter == 1
    ensures d.req == LineAt(d, Row(p.line)) * 64
  {
  }

  /** Responses do not depend on the transfer registers, nor on RAM while none are for the data cache. */
  lemma SameResponses(b: Bus, c: Bus)
    requires RespOk(b, false, 0, 0) && DataBeats(b.txQueue) == [] && PinsOk(b)
    requires c.txQueue == b.txQueue && c.addrToTag == b.addrToTag && c.resp == b.resp
    ensures RespOk(c, false, 0, 0) && PinsOk(c)
  {
    hide DataBeats, BeatsFrom;
  }

  /** The address beat is put on the wires, and on the bus if that is free. */
  lemma AddressBeat(m: Machine, p: Proc, x: Input)
    requires Inv(m, p) && Allowed(m, p, x) && m.d.state == StateC && m.bus.rxCount == 0 && !DataOnBus(m)
    requires var e := NewData(m, x); e.state == StateC && e.counter == 1 && e.reqcyc && e.reqtag == WRITE_TAG
    requires CacheOk(NewData(m, x), x.proc, m.bus.ram)
    ensures Inv(Cycle(m, x), x.proc) && Cycle(m, x).d == NewData(m, x) && Cycle(m, x).bus.ram == m.bus.ram
  {
    hide NewFetch, RespOk, PinsOk, DataBeats, NewQueue, FetchOk, RamLine, WordOf, Cycle, NewData, Accept;
    InvShaped(m, p);
    DrivenBus(m, p, x);
    var n := Middle(m, x);
    AcceptWrite(n.bus, n.d.req);
    AddressIs(n.d, x.proc, m.bus.ram);
    if DataOnBus(n) {
      SameResponses(n.bus, NewBus(n));
    } else {
      QuietBus(n, false, 0, 0);
    }
  }

  lemma InvBurst(m: Machine, p: Proc)
    requires Inv(m, p)
    ensures BurstOk(m, p)
  {
  }

  /** Before the address beat has been taken. */
  lemma StepWait(m: Machine, p: Proc, x: Input)
    requires Inv(m, p) && Allowed(m, p, x) && m.d.state == StateC && !DataOnBus(m)
    ensures Inv(Cycle(m, x), x.proc) && Cycle(m, x).bus.ram == m.bus.ram
    ensures Cycle(m, x).d.tags == m.d.tags && Cycle(m, x).d.lines == m.d.lines && !Cycle(m, x).d.ack
    ensures Cycle(m, x).d.state == StateC
  {
    hide Cycle, RamLine, ResponsesOk, FetchOk, AckOk, Latch, CleanOk, Inv;
    InvShaped(m, p);
    InvCache(m, p);
    InvBurst(m, p);
    NoWrite(m.d, x.proc, Comb(m.d, x.proc, DataOnBus(m), m.bus.resp));
    RangeKept(m.d, NewData(m, x), m.bus.ram, m.bus.ram);
    CleanKept(m.d, p, NewData(m, x), x.proc, m.bus.ram);
    AddressBeat(m, p, x);
  }

  /** Lines of other rows, and other words of this one, are not touched by a beat. */
  lemma BeatElsewhere(ram: seq<byte>, n: nat, w: nat, x: seq<byte>, m: nat)
    requires w < 8 && |x| == 8 && InRam(ram, n) && m != n
    ensures RamLine(WriteWord(ram, 64 * n + 8 * w, x), m) == RamLine(ram, m)
  {
    hide RamLine, WordOf, WriteWord;
    forall v | 0 <= v < 8
      ensures WordOf(RamLine(WriteWord(ram, 64 * n + 8 * w, x), m), v) == WordOf(RamLine(ram, m), v)
    {
      WriteLine(ram, n, w, x, m, v);
    }
    LineWords(RamLine(WriteWord(ram, 64 * n + 8 * w, x), m), RamLine(ram, m));
  }

  /** Writing back one word of a dirty row leaves the clean rows equal to RAM. */
  lemma CleanWritten(d: DCache, p: Proc, e: DCache, ram: seq<byte>, w: nat, x: seq<byte>)
    requires CacheOk(d, p, ram) && Sized(e) && d.state == StateC && e.state == StateC && w < 8 && |x| == 8
    requires e.tags == d.tags && e.dirty == d.dirty && e.lines == d.lines
    ensures var next := WriteWord(ram, 64 * LineAt(d, Row(p.line)) + 8 * w, x);
            CleanOk(e, p, next) && forall r :: 0 <= r < ROWS ==> InRam(next, LineAt(e, r))
  {
    hide RamLine, WriteWord;
    var n := LineAt(d, Row(p.line));
    var next := WriteWord(ram, 64 * n + 8 * w, x);
    RangeKept(d, e, ram, next);
    forall r | 0 <= r < ROWS && !e.dirty[r] && !Refilling(e, p, r) ensures e.lines[r] == RamLine(next, LineAt(e, r)) {
      assert d.lines[r] == RamLine(ram, LineAt(d, r));
      BeatElsewhere(ram, n, w, x, LineAt(d, r));
    }
  }

  /** The registers after an acknowledged beat of the burst. */
  lemma BeatRegisters(m: Machine, p: Proc, x: Input)
    requires Inv(m, p) && Allowed(m, p, x) && m.d.state == StateC && DataOnBus(m) && m.d.counter <= 8
    ensures Shaped(m) && Sized(m.d) && Sized(NewData(m, x)) && 1 <= m.d.counter
    ensures var e := NewData(m, x);
            e.state == StateC && e.counter == m.d.counter + 1 && e.reqcyc && e.reqtag == WRITE_TAG && !e.ack &&
            e.tags == m.d.tags && e.dirty == m.d.dirty && e.lines == m.d.lines &&
            e.req == Val(WordOf(m.d.lines[Row(p.line)], m.d.counter - 1)) && ReadsShown(e, p)
  {
    hide Cycle, RamLine, ResponsesOk, FetchOk, AckOk, Latch, CleanOk, Inv, Val, BurstOk;
    InvShaped(m, p);
    InvCache(m, p);
    NoWrite(m.d, x.proc, Comb(m.d, x.proc, DataOnBus(m), m.bus.resp));
  }

  lemma InvRange(m: Machine, p: Proc)
    requires Inv(m, p)
    ensures Sized(m.d) && forall r :: 0 <= r < ROWS ==> InRam(m.bus.ram, LineAt(m.d, r))
  {
  }

  /** A data beat: one more word of the old line is in RAM. */
  lemma BeatBurst(m: Machine, p: Proc, x: Input)
    requires Inv(m, p) && Allowed(m, p, x) && m.d.state == StateC && DataOnBus(m) && m.d.counter <= 8
    ensures Shaped(m) && Sized(m.d) && 1 <= m.d.counter
    ensures var w := m.d.counter - 1;
            Cycle(m, x).bus.ram == WriteWord(m.bus.ram, 64 * LineAt(m.d, Row(p.line)) + 8 * w, WordOf(m.d.lines[Row(p.line)], w))
    ensures Sized(Cycle(m, x).d) && BurstOk(Cycle(m, x), p) && AckOk(Cycle(m, x)) && FetchOk(Cycle(m, x).ic)
    ensures Cycle(m, x).d == NewData(m, x) && ResponsesOk(Cycle(m, x), p)
  {
    hide NewFetch, RespOk, PinsOk, DataBeats, NewQueue, FetchOk, RamLine, WordOf, Cycle, NewData, Accept, Val, WriteWord, CacheOk,
         ReadsShown;
    InvShaped(m, p);
    BeatRegisters(m, p, x);
    InvBurst(m, p);
    DrivenBus(m, p, x);
    var n, w, l := Middle(m, x), m.d.counter - 1, LineAt(m.d, Row(p.line));
    var word := WordOf(m.d.lines[Row(p.line)], w);
    AcceptData(n.bus, l, w, word);
    SameResponses(n.bus, NewBus(n));
    InvRange(m, p);
    forall v | 0 <= v < w + 1
      ensures WordOf(RamLine(WriteWord(m.bus.ram, 64 * l + 8 * w, word), l), v) == WordOf(m.d.lines[Row(p.line)], v)
    {
      WriteLine(m.bus.ram, l, w, word, l, v);
    }
  }

  lemma MakeInv(m: Machine, p: Proc)
    requires CacheOk(m.d, p, m.bus.ram) && BurstOk(m, p) && AckOk(m) && FetchOk(m.ic) && ResponsesOk(m, p)
    ensures Inv(m, p)
  {
  }

  lemma StepBeat(m: Machine, p: Proc, x: Input)
    requires Inv(m, p) && Allowed(m, p, x) && m.d.state == StateC && DataOnBus(m) && m.d.counter <= 8
    ensures Inv(Cycle(m, x), x.proc) && Shaped(m) && 1 <= m.d.counter
    ensures var w := m.d.counter - 1;
            Cycle(m, x).bus.ram == WriteWord(m.bus.ram, 64 * LineAt(m.d, Row(p.line)) + 8 * w, WordOf(m.d.lines[Row(p.line)], w))
    ensures Cycle(m, x).d.tags == m.d.tags && Cycle(m, x).d.lines == m.d.lines && !Cycle(m, x).d.ack
    ensures Cycle(m, x).d.state == StateC
  {
    hide NewData, Cycle, BurstOk, AckOk, FetchOk, ResponsesOk, RamLine, WordOf, WriteWord, Val, Inv, CleanOk;
    InvCache(m, p);
    BeatRegisters(m, p, x);
    BeatBurst(m, p, x);
    var w := m.d.counter - 1;
    var word := WordOf(m.d.lines[Row(p.line)], w);
    CleanWritten(m.d, p, NewData(m, x), m.bus.ram, w, word);
    MakeInv(Cycle(m, x), x.proc);
  }

  /** The burst is complete: the old line is in RAM, and the bus is let go. */
  lemma StepBurstEnd(m: Machine, p: Proc, x: Input)
    requires Inv(m, p) && Allowed(m, p, x) && m.d.state == StateC && DataOnBus(m) && m.d.counter > 8
    ensures Inv(Cycle(m, x), x.proc) && Cycle(m, x).bus.ram == m.bus.ram
    ensures Cycle(m, x).d.tags == m.d.tags && Cycle(m, x).d.lines == m.d.lines && !Cycle(m, x).d.ack
    ensures Cycle(m, x).d.state == StateD && !Cycle(m, x).d.reqcyc
  {
    hide Cycle, RamLine, ResponsesOk, FetchOk, AckOk, Latch, CleanOk, Inv, WordOf, Val;
    InvShaped(m, p);
    InvCache(m, p);
    InvBurst(m, p);
    NoWrite(m.d, x.proc, Comb(m.d, x.proc, DataOnBus(m), m.bus.resp));
    RangeKept(m.d, NewData(m, x), m.bus.ram, m.bus.ram);
    CleanKept(m.d, p, NewData(m, x), x.proc, m.bus.ram);
    var r := Row(p.line);
    LineWords(RamLine(m.bus.ram, LineAt(m.d, r)), m.d.lines[r]);
    QuietStep(m, p, x);
  }

  // ---------------------------------------------------------------- the refill

  lemma SplitLine(line: nat)
    ensures line / ROWS * ROWS + Row(line) == line
  {
  }

  /** The registers while the read request waits for the bus. */
  lemma RequestRegisters(m: Machine, p: Proc, x: Input)
    requires Inv(m, p) && Allowed(m, p, x) && m.d.state == StateD && !DataOnBus(m)
    ensures Shaped(m) && Sized(NewData(m, x))
    ensures var e := NewData(m, x);
            e.state == StateD && e.reqcyc && !e.ack && e.req == p.line * 64 && e.reqtag == READ_TAG && e.lines == m.d.lines &&
            e.tags == m.d.tags[Row(p.line) := p.line / ROWS] && e.dirty == m.d.dirty[Row(p.line) := false]
    ensures CacheOk(NewData(m, x), p, m.bus.ram)
  {
    hide Cycle, RamLine, ResponsesOk, FetchOk, AckOk, Inv, BurstOk, Masked;
    InvShaped(m, p);
    InvCache(m, p);
    var d, e, r := m.d, NewData(m, x), Row(p.line);
    NothingMasked(d.lines[r], NoLanes(64), 0);
    assert d.lines[r := d.lines[r]] == d.lines;
    SplitLine(p.line);
    forall s | 0 <= s < ROWS ensures InRam(m.bus.ram, LineAt(e, s)) {
      assert InRam(m.bus.ram, LineAt(d, s));
    }
    forall s | 0 <= s < ROWS && !e.dirty[s] && !Refilling(e, p, s) ensures e.lines[s] == RamLine(m.bus.ram, LineAt(e, s)) {
      assert d.lines[s] == RamLine(m.bus.ram, LineAt(d, s));
    }
  }

  lemma ReadResponses(b: Bus, c: Bus, n: nat)
    requires RespOk(b, false, n, 0) && DataBeats(b.txQueue) == [] && PinsOk(b)
    requires c.txQueue == b.txQueue && c.resp == b.resp
    requires c.addrToTag == if 64 * n in b.addrToTag then b.addrToTag else b.addrToTag[64 * n := READ_TAG]
    ensures RespOk(c, true, n, 0) && PinsOk(c)
  {
    hide DataBeats, BeatsFrom;
  }

  /** The tag is overwritten and the read request put up. */
  lemma StepRequest(m: Machine, p: Proc, x: Input)
    requires Inv(m, p) && Allowed(m, p, x) && m.d.state == StateD && !DataOnBus(m)
    ensures Inv(Cycle(m, x), x.proc) && Cycle(m, x).bus.ram == m.bus.ram && Sized(m.d)
    ensures Cycle(m, x).d.state == StateD && Cycle(m, x).d.reqcyc && Cycle(m, x).d.lines == m.d.lines && !Cycle(m, x).d.ack
    ensures Cycle(m, x).d.tags == m.d.tags[Row(p.line) := p.line / ROWS]
  {
    hide NewData, NewFetch, RespOk, PinsOk, DataBeats, NewQueue, FetchOk, RamLine, Cycle, Accept, CacheOk;
    InvShaped(m, p);
    RequestRegisters(m, p, x);
    CycleParts(m, x);
    QueueStep(m, p, x);
    FetchStep(m, x);
    var n := Middle(m, x);
    if DataOnBus(n) {
      AcceptRead(n.bus, 64 * p.line);
      ReadResponses(n.bus, NewBus(n), p.line);
    } else {
      QuietBus(n, false, p.line, 0);
    }
  }

  /** After eight words nothing is left for the data cache. */
  lemma AllTaken(b: Bus, n: nat)
    requires RespOk(b, true, n, 8)
    ensures RespOk(b, false, 0, 0) && DataBeats(b.txQueue) == []
  {
    hide DataBeats;
  }

  /** As `QuietStep`, towards and within the refill. */
  lemma RefillStep(m: Machine, p: Proc, x: Input, k: nat)
    requires Inv(m, p) && Allowed(m, p, x) && (m.d.state == StateE || (m.d.state == StateD && DataOnBus(m)))
    requires !NewData(m, x).reqcyc && CacheOk(NewData(m, x), p, m.bus.ram)
    requires RespOk(NewQueue(m, x), true, p.line, k)
    requires (NewData(m, x).state == StateE && NewData(m, x).counter == k) || (NewData(m, x).state == StateB && k == 8)
    ensures Inv(Cycle(m, x), x.proc) && Cycle(m, x).d == NewData(m, x) && Cycle(m, x).bus.ram == m.bus.ram
  {
    hide CacheOk, NewData, NewFetch, NewBus, RespOk, PinsOk, DataBeats, NewQueue, FetchOk, RamLine, WordOf, Cycle;
    InvShaped(m, p);
    CycleParts(m, x);
    QueueStep(m, p, x);
    FetchStep(m, x);
    var n := Middle(m, x);
    QuietBus(n, true, p.line, k);
    if k == 8 { AllTaken(NewBus(n), p.line); }
    CacheSized(NewData(m, x), p, m.bus.ram);
  }

  /** The read request is acknowledged. */
  lemma StepGranted(m: Machine, p: Proc, x: Input)
    requires Inv(m, p) && Allowed(m, p, x) && m.d.state == StateD && DataOnBus(m)
    ensures Inv(Cycle(m, x), x.proc) && Cycle(m, x).bus.ram == m.bus.ram
    ensures Cycle(m, x).d.tags == m.d.tags && Cycle(m, x).d.lines == m.d.lines && !Cycle(m, x).d.ack
    ensures Cycle(m, x).d.state == StateE
  {
    hide Cycle, RamLine, BurstOk, ResponsesOk, FetchOk, AckOk, Latch, CleanOk, Inv, RespOk, NewQueue;
    InvShaped(m, p);
    InvCache(m, p);
    QueueStep(m, p, x);
    NoWrite(m.d, x.proc, Comb(m.d, x.proc, DataOnBus(m), m.bus.resp));
    RangeKept(m.d, NewData(m, x), m.bus.ram, m.bus.ram);
    CleanKept(m.d, p, NewData(m, x), x.proc, m.bus.ram);
    RefillStep(m, p, x, 0);
  }

  lemma WiresRespack(m: Machine, x: Input)
    requires Shaped(m) && ValidProc(x.proc)
    ensures NewData(m, x).respack == Comb(m.d, x.proc, DataOnBus(m), m.bus.resp).respack
  {
    hide Comb, Masked;
  }

  /** A row whose eight words have come is clean. */
  lemma RefilledClean(d: DCache, p: Proc, e: DCache, ram: seq<byte>)
    requires CacheOk(d, p, ram) && Sized(e) && d.state == StateE && d.counter == 8 && e.state == StateB
    requires e.tags == d.tags && e.dirty == d.dirty && e.lines == d.lines
    ensures CleanOk(e, p, ram)
  {
    hide RamLine, WordOf;
    var r := Row(p.line);
    SplitLine(p.line);
    LineWords(d.lines[r], RamLine(ram, p.line));
    forall s | 0 <= s < ROWS && !e.dirty[s] && !Refilling(e, p, s) ensures e.lines[s] == RamLine(ram, LineAt(e, s)) {
      if s != r { assert d.lines[s] == RamLine(ram, LineAt(d, s)); }
    }
  }

  /** No beat for this cache: it waits, or after the last word returns to the look-up. */
  lemma StepNoBeat(m: Machine, p: Proc, x: Input)
    requires Inv(m, p) && Allowed(m, p, x) && m.d.state == StateE && Shaped(m) && !NewData(m, x).respack
    ensures Inv(Cycle(m, x), x.proc) && Cycle(m, x).bus.ram == m.bus.ram
    ensures Cycle(m, x).d.tags == m.d.tags && Cycle(m, x).d.lines == m.d.lines && !Cycle(m, x).d.ack
    ensures Cycle(m, x).d.state == if m.d.counter == 8 then StateB else StateE
  {
    hide Cycle, RamLine, BurstOk, ResponsesOk, FetchOk, AckOk, Latch, CleanOk, Inv, RespOk, NewQueue, WordOf;
    InvCache(m, p);
    QueueStep(m, p, x);
    WiresRespack(m, x);
    NoWrite(m.d, x.proc, Comb(m.d, x.proc, DataOnBus(m), m.bus.resp));
    RangeKept(m.d, NewData(m, x), m.bus.ram, m.bus.ram);
    if m.d.counter == 8 {
      RefilledClean(m.d, p, NewData(m, x), m.bus.ram);
    } else {
      CleanKept(m.d, p, NewData(m, x), x.proc, m.bus.ram);
    }
    RefillStep(m, p, x, m.d.counter);
  }

  /** One more word in its place. */
  lemma WordPlaced(line: seq<byte>, data: seq<byte>, k: nat, w: nat)
    requires |line| == 64 && |data| == 8 && k < 8 && w < 8
    ensures WordOf(Masked(line, Up(data + NoLanes(56), 8 * k), 8 * k, 8), w) == if w == k then data else WordOf(line, w)
  {
    hide Up;
    var n := Masked(line, Up(data + NoLanes(56), 8 * k), 8 * k, 8);
    forall i | 0 <= i < 8 ensures WordOf(n, w)[i] == if w == k then data[i] else WordOf(line, w)[i] {
      assert WordOf(n, w)[i] == n[8 * w + i];
      if w == k { UpAt(data + NoLanes(56), 8 * k, 8 * k + i); }
    }
  }

  /** The registers when a beat of the refill is taken. */
  lemma TakenRegisters(m: Machine, p: Proc, x: Input)
    requires Inv(m, p) && Allowed(m, p, x) && m.d.state == StateE && Shaped(m) && NewData(m, x).respack && m.d.counter < 8
    ensures var e, r := NewData(m, x), Row(p.line);
            e.state == StateE && e.counter == m.d.counter + 1 && !e.reqcyc && !e.ack && e.reqtag == READ_TAG &&
            Sized(e) && e.tags == m.d.tags && e.dirty == m.d.dirty && |m.bus.resp.data| == 8 &&
            e.lines == m.d.lines[r := Masked(m.d.lines[r], Up(m.bus.resp.data + NoLanes(56), 8 * m.d.counter), 8 * m.d.counter, 8)]
  {
    hide Cycle, RamLine, BurstOk, ResponsesOk, FetchOk, AckOk, CleanOk, Inv, Masked, Up, WordOf;
    InvCache(m, p);
    WiresRespack(m, x);
  }

  /** The cache with one more word of the line, which is the word RAM has. */
  lemma TakenCache(d: DCache, p: Proc, e: DCache, ram: seq<byte>, data: seq<byte>)
    requires CacheOk(d, p, ram) && d.state == StateE && d.counter < 8 && Sized(e) && |data| == 8
    requires e.state == StateE && e.counter == d.counter + 1 && !e.reqcyc && e.reqtag == READ_TAG
    requires e.tags == d.tags && e.dirty == d.dirty
    requires var r := Row(p.line); e.lines == d.lines[r := Masked(d.lines[r], Up(data + NoLanes(56), 8 * d.counter), 8 * d.counter, 8)]
    requires data == WordOf(RamLine(ram, p.line), d.counter)
    ensures CacheOk(e, p, ram)
  {
    hide RamLine, WordOf, Masked, Up;
    var r := Row(p.line);
    RangeKept(d, e, ram, ram);
    forall w | 0 <= w < e.counter ensures WordOf(e.lines[r], w) == WordOf(RamLine(ram, p.line), w) {
      WordPlaced(d.lines[r], data, d.counter, w);
    }
    forall s | 0 <= s < ROWS && !e.dirty[s] && !Refilling(e, p, s) ensures e.lines[s] == RamLine(ram, LineAt(e, s)) {
      assert d.lines[s] == RamLine(ram, LineAt(d, s));
    }
  }

  /** A beat of the refill: the next word of the line goes into the row. */
  lemma StepTaken(m: Machine, p: Proc, x: Input)
    requires Inv(m, p) && Allowed(m, p, x) && m.d.state == StateE && Shaped(m) && NewData(m, x).respack
    ensures Inv(Cycle(m, x), x.proc) && Cycle(m, x).bus.ram == m.bus.ram
    ensures Cycle(m, x).d.tags == m.d.tags && !Cycle(m, x).d.ack && Cycle(m, x).d.state == StateE
    ensures forall s :: 0 <= s < ROWS && s != Row(p.line) ==> Cycle(m, x).d.lines[s] == m.d.lines[s]
  {
    hide Cycle, RamLine, BurstOk, ResponsesOk, FetchOk, AckOk, CleanOk, Inv, RespOk, NewQueue, WordOf, NewData, Masked, Up;
    InvCache(m, p);
    QueueStep(m, p, x);
    TakenRegisters(m, p, x);
    TakenCache(m.d, p, NewData(m, x), m.bus.ram, m.bus.resp.data);
    RefillStep(m, p, x, m.d.counter + 1);
  }
}
