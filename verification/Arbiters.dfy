/** The arbiter between the two caches, the instruction cache's state machine, and one
    clock of the whole: caches, arbiter and memory. */
module Arbiters {
  import opened Bits
  import opened Lanes
  import opened DataCache
  import opened SystemBus

  // ---------------------------------------------------------------- the arbiter

  datatype Owner = Nobody | InstructionSide | DataSide   // STATEI, STATEA, STATEB

  datatype Grant = Grant(reqcyc: bool, req: nat, reqtag: nat, dcReqack: bool, icReqack: bool, next: Owner)

  /** The state machine of `ICacheDirectMap`, as the bus sees it: whether a look-up hits is
      an input. */
  datatype ICache = ICache(state: State, counter: nat, reqcyc: bool, req: nat, reqtag: nat, respack: bool)

  function Arbitrate(s: Owner, ic: ICache, d: DCache, reqack: bool): Grant {
    match s
    case Nobody =>
      if ic.reqcyc then Grant(true, ic.req, ic.reqtag, false, reqack, InstructionSide)
      else if d.reqcyc then Grant(true, d.req, d.reqtag, reqack, false, DataSide)
      else Grant(false, 0, 0, false, false, Nobody)
    case InstructionSide =>
      if ic.reqcyc then Grant(true, ic.req, ic.reqtag, false, reqack, InstructionSide)
      else Grant(false, 0, 0, false, reqack, Nobody)
    case DataSide =>
      if d.reqcyc then Grant(true, d.req, d.reqtag, reqack, false, DataSide)
      else Grant(false, 0, 0, reqack, false, Nobody)
  }

  class ArbiterUnit {
    var state: Owner   // p_state

    constructor ()
      ensures state == Nobody
    {
      state := Nobody;
    }

    /** The outputs, which follow the inputs within a clock. */
    function Outputs(ic: ICache, d: DCache, reqack: bool): Grant
      reads this
    {
      Arbitrate(state, ic, d, reqack)
    }

    method Clock(ic: ICache, d: DCache, reqack: bool)
      modifies this
      ensures state == Arbitrate(old(state), ic, d, reqack).next
    {
      state := Outputs(ic, d, reqack).next;
    }
  }

  // ---------------------------------------------------------------- the instruction cache

  const FETCH_TAG := 0x1100   // 13'b1000100000000

  datatype Fetch = Fetch(req: bool, line: nat, hit: bool)

  function FetchNext(c: ICache, f: Fetch, reqack: bool, resp: Resp): ICache {
    var w := c.(reqcyc := false, req := 0, respack := false);
    match c.state
    case StateA => w.(state := if f.req then StateB else StateA)
    case StateB => w.(state := if f.hit then StateA else StateD)
    case StateC => w
    case StateD =>
      if reqack then w.(state := StateE, counter := 0)
      else w.(reqcyc := true, req := f.line * 64, reqtag := FETCH_TAG)
    case StateE =>
      if resp.cyc && resp.tag == c.reqtag then
        var v := w.(counter := c.counter + 1, respack := true);
        if c.counter < 8 then v else v.(state := StateB, reqtag := 0)
      else w.(state := if c.counter == 8 then StateB else StateE)
  }

  // ---------------------------------------------------------------- one clock

  datatype Machine = Machine(d: DCache, ic: ICache, arb: Owner, bus: Bus)

  /** What comes from outside in one clock: both processor sides, and the reads that complete. */
  datatype Input = Input(proc: Proc, fetch: Fetch, done: seq<nat>)

  ghost predicate Shaped(m: Machine) {
    Sized(m.d) && |m.bus.resp.data| == 8
  }

  /** A positive edge, at which everything samples the pins; then `tick(1)`; then the
      negative edge with `tick(0)`. */
  function Cycle(m: Machine, x: Input): Machine
    requires Shaped(m) && ValidProc(x.proc)
  {
    var g := Arbitrate(m.arb, m.ic, m.d, m.bus.reqack);
    var d := Next(m.d, x.proc, g.dcReqack, m.bus.resp);
    var ic := FetchNext(m.ic, x.fetch, g.icReqack, m.bus.resp);
    var h := Arbitrate(g.next, ic, d, m.bus.reqack);
    var bus := TickHigh(m.bus, x.done, h.reqcyc, h.req, h.reqtag, ic.respack || d.respack);
    Machine(d, ic, g.next, TickLow(bus, h.reqcyc))
  }

  /** After the reset. */
  function Initial(ram: seq<byte>): Machine {
    Machine(AfterReset(), ICache(StateA, 0, false, 0, 0, false), Nobody,
            Bus(ram, 0, 0, map[], [], false, Resp(false, NoLanes(8), 0)))
  }

  /** The parts put together. */
  class TopLevel {
    const dcache: DataCacheUnit
    const arbiter: ArbiterUnit
    const memory: MemorySystem
    var ic: ICache

    ghost function State(): Machine
      reads this, dcache, arbiter, memory, memory.ram
    {
      Machine(dcache.Regs(), ic, arbiter.state, memory.State())
    }

    constructor (ram: array<byte>)
      ensures State() == Initial(ram[..]) && memory.ram == ram && fresh(dcache) && fresh(arbiter) && fresh(memory)
    {
      dcache := new DataCacheUnit();
      arbiter := new ArbiterUnit();
      memory := new MemorySystem(ram);
      ic := ICache(StateA, 0, false, 0, 0, false);
    }

    method ClockAll(x: Input)
      requires Shaped(State()) && ValidProc(x.proc)
      modifies this, dcache, arbiter, memory, memory.ram
      ensures memory.ram == old(memory.ram) && State() == Cycle(old(State()), x)
    {
      hide Next, FetchNext, Arbitrate, TickHigh, TickLow;
      ghost var d0 := dcache.Regs();
      var reqack, resp := memory.reqack, memory.resp;
      var g := Arbitrate(arbiter.state, ic, dcache.Regs(), reqack);
      arbiter.state := g.next;
      var ic' := FetchNext(ic, x.fetch, g.icReqack, resp);
      dcache.Clock(x.proc, g.dcReqack, resp);
      ic := ic';
      var h := Arbitrate(arbiter.state, ic, dcache.Regs(), reqack);
      memory.Tick1(x.done, h.reqcyc, h.req, h.reqtag, ic.respack || dcache.respack);
      memory.Tick0(h.reqcyc);
    }
  }
}
